/** main: outline, reference height, components, and the composite drawing, in that order. */
module Pipeline {
  import opened Wrappers
  import opened Geometry
  import opened PyNum
  import opened Distinct
  import opened Outline
  import opened Components
  import opened Transform
  import opened Canvas

  /** A parsed .brd file: its <plain> wires, if there is a <plain>, and its <elements>. */
  datatype Document = Document(plain: Option<seq<RawWire>>, elements: seq<RawElement>)

  /**
   * How a run ends: an exception escaping main, the early exit when no
   * component is found, or the composite drawing that main writes out.
   */
  datatype Outcome = Crashed(error: Error) | NoComponents | Converted(svg: Svg)

  /** The bmaxY main passes to extract_components: the outline's max Y, or 2000 without one. */
  function ReferenceHeight(outline: Option<seq<Point>>): (h: real)
    ensures outline.Some? ==> forall i :: 0 <= i < |outline.value| ==> outline.value[i].y <= h
    ensures outline.Some? && |outline.value| > 0 ==>
      exists i :: 0 <= i < |outline.value| && outline.value[i].y == h
    ensures outline.None? || |outline.value| == 0 ==> h == 2000.0
  {
    Extents(outline).maxY
  }

  /**
   * The wires combine_svgs re-reads through the global root: those of the
   * <plain>, when every one of them parses.
   */
  function PlainSegments(plain: Option<seq<RawWire>>): seq<Segment> {
    if plain.Some? && ParseWires(plain.value).Ok? then ParseWires(plain.value).value else []
  }

  /** What main does with a parsed document and the artwork lookup. */
  function Convert(doc: Document, lib: Library): Outcome {
    match BoardOutline(doc.plain)
    case Err(e) => Crashed(e)
    case Ok(outline) =>
      match ExtractedComponents(doc.elements, ReferenceHeight(outline))
      case Err(e) => Crashed(e)
      case Ok(cs) =>
        if |cs| == 0 then NoComponents
        else
          match Composite(cs, outline, PlainSegments(doc.plain), lib)
          case Err(e) => Crashed(e)
          case Ok(svg) => Converted(svg)
  }

  /** main from parse_brd_file on, the parsed document and the artwork lookup given. */
  method RunConversion(doc: Document, lib: Library) returns (out: Outcome)
    ensures out == Convert(doc, lib)
  {
    var outline := ExtractBoardOutline(doc.plain);
    if outline.Err? {
      return Crashed(outline.error);
    }
    var bmaxY := Extents(outline.value).maxY;
    var components := ExtractComponents(doc.elements, bmaxY);
    if components.Err? {
      return Crashed(components.error);
    }
    if |components.value| == 0 {
      return NoComponents;
    }
    var finalSvg := CombineSvgs(components.value, outline.value, PlainSegments(doc.plain), lib);
    if finalSvg.Err? {
      return Crashed(finalSvg.error);
    }
    return Converted(finalSvg.value);
  }

  /** Without an outline, the parts are flipped about y = 2000, the default canvas height. */
  lemma DefaultReferenceHeight()
    ensures ReferenceHeight(None) == 2000.0
    ensures ReferenceHeight(None) == CreateSvgRoot(Extents(None)).viewBox.height
  {
  }

  /** An outline main obtains is never empty, so combine_svgs never meets bounding_box of []. */
  lemma OutlineNonEmpty(plain: Option<seq<RawWire>>)
    requires BoardOutline(plain).Ok? && BoardOutline(plain).value.Some?
    ensures |BoardOutline(plain).value.value| > 0
    ensures ReferenceHeight(BoardOutline(plain).value) == BoundingBox(BoardOutline(plain).value.value).maxY
  {
    OutlineShape(plain.value);
  }

  /**
   * A converted drawing: the canvas spans the outline's extents, the outline
   * lines and the parts are flipped about the same height, and the groups are
   * those of the parts extracted with that height.
   */
  lemma ConvertedLayout(doc: Document, lib: Library)
    requires Convert(doc, lib).Converted?
    ensures var outline := BoardOutline(doc.plain).value;
      var h := ReferenceHeight(outline);
      var cs := ExtractedComponents(doc.elements, h);
      var svg := Convert(doc, lib).svg;
      && cs.Ok? && |cs.value| > 0
      && svg.root == CreateSvgRoot(Extents(outline))
      && svg.lines == (if outline.Some? then OutlineLines(PlainSegments(doc.plain), h) else [])
      && PlacementGroups(cs.value, lib) == Ok(svg.groups)
  {
    var outline := BoardOutline(doc.plain).value;
    if outline.Some? {
      OutlineNonEmpty(doc.plain);
    }
  }

  /**
   * Both endpoints of every wire of <plain> are points of the outline
   * extract_board_outline returns for it.
   */
  lemma SegmentEndsInOutline(ws: seq<RawWire>)
    requires BoardOutline(Some(ws)).Ok? && BoardOutline(Some(ws)).value.Some?
    ensures var pts, segs := BoardOutline(Some(ws)).value.value, PlainSegments(Some(ws));
      forall k :: 0 <= k < |segs| ==> segs[k].p1 in pts && segs[k].p2 in pts
  {
    var pts := BoardOutline(Some(ws)).value.value;
    var segs := ParseWires(ws).value;
    var ends := Endpoints(segs);
    OutlineShape(ws);
    forall k | 0 <= k < |segs|
      ensures segs[k].p1 in pts && segs[k].p2 in pts
    {
      assert ends[2 * k] == segs[k].p1 && ends[2 * k + 1] == segs[k].p2;
      assert ends[2 * k] in ends && ends[2 * k + 1] in ends;
    }
  }

  /** combine_svgs unfolded for a non-empty outline. */
  lemma CompositeSteps(cs: seq<Component>, pts: seq<Point>, segs: seq<Segment>, lib: Library, b: Box)
    requires |pts| > 0 && BoundingBox(pts) == b
    ensures Composite(cs, Some(pts), segs, lib) ==
      match PlacementGroups(cs, lib)
      case Err(e) => Err(e)
      case Ok(gs) => Ok(Svg(CreateSvgRoot(b), OutlineLines(segs, b.maxY), gs))
  {
  }

  /** The flipped wires of a present outline stay within the canvas height. */
  lemma OutlineLinesOnCanvas(ws: seq<RawWire>, cs: seq<Component>, lib: Library)
    requires BoardOutline(Some(ws)).Ok? && BoardOutline(Some(ws)).value.Some?
    requires Composite(cs, BoardOutline(Some(ws)).value, PlainSegments(Some(ws)), lib).Ok?
    ensures var svg := Composite(cs, BoardOutline(Some(ws)).value, PlainSegments(Some(ws)), lib).value;
      forall k :: 0 <= k < |svg.lines| ==>
        && 0.0 <= svg.lines[k].y1 <= svg.root.viewBox.height
        && 0.0 <= svg.lines[k].y2 <= svg.root.viewBox.height
  {
    SegmentEndsInOutline(ws);
    OutlineWithinViewBox(BoardOutline(Some(ws)).value.value, PlainSegments(Some(ws)), cs, lib);
  }

  /** main's steps unfolded, once the outline and the parts are known. */
  lemma ConvertSteps(doc: Document, lib: Library, outline: Option<seq<Point>>, cs: seq<Component>)
    requires BoardOutline(doc.plain) == Ok(outline)
    requires ExtractedComponents(doc.elements, ReferenceHeight(outline)) == Ok(cs) && |cs| > 0
    ensures Convert(doc, lib) ==
      match Composite(cs, outline, PlainSegments(doc.plain), lib)
      case Err(e) => Crashed(e)
      case Ok(svg) => Converted(svg)
  {
  }

  /**
   * Every outline line of a converted drawing lies within the canvas height:
   * each wire endpoint is a point of the outline, so its y is between the
   * bounding box's minimum and maximum.
   */
  lemma ConvertedLinesOnCanvas(doc: Document, lib: Library)
    requires Convert(doc, lib).Converted?
    ensures var svg := Convert(doc, lib).svg;
      forall k :: 0 <= k < |svg.lines| ==>
        && 0.0 <= svg.lines[k].y1 <= svg.root.viewBox.height
        && 0.0 <= svg.lines[k].y2 <= svg.root.viewBox.height
  {
    var outline := BoardOutline(doc.plain).value;
    var cs := ExtractedComponents(doc.elements, ReferenceHeight(outline)).value;
    var segs := PlainSegments(doc.plain);
    ConvertSteps(doc, lib, outline, cs);
    var svg := Composite(cs, outline, segs, lib).value;
    assert Convert(doc, lib).svg == svg;
    if outline.Some? {
      OutlineLinesOnCanvas(doc.plain.value, cs, lib);
    } else {
      DefaultCanvas(cs, segs, lib);
    }
  }

  /**
   * main exits early exactly when the outline reads without error and no
   * element has both a name and a package (unnamed elements are never read).
   */
  lemma NoComponentsExactly(doc: Document, lib: Library)
    ensures Convert(doc, lib) == NoComponents <==>
      BoardOutline(doc.plain).Ok? && forall i :: 0 <= i < |doc.elements| ==> !Named(doc.elements[i])
  {
    if BoardOutline(doc.plain).Ok? {
      var h := ReferenceHeight(BoardOutline(doc.plain).value);
      var es := doc.elements;
      ExtractedError(es, h);
      var ns := NamedElements(es);
      if ExtractedComponents(es, h).Ok? {
        ExtractedMatchesNamed(es, h);
        if |ns| > 0 {
          assert ns[0] in es;
        }
      }
    }
  }

  /** A wire given by four numbers. */
  function Wire(x1: real, y1: real, x2: real, y2: real): RawWire {
    RawWire(Some(Float(x1)), Some(Float(y1)), Some(Float(x2)), Some(Float(y2)))
  }

  /** An L-shaped board, 1000 wide and 500 high. */
  const BoardWires: seq<RawWire> := [Wire(0.0, 0.0, 1000.0, 0.0), Wire(1000.0, 0.0, 1000.0, 500.0)]

  const BoardSegments: seq<Segment> := [
    Segment(Point(0.0, 0.0), Point(1000.0, 0.0)),
    Segment(Point(1000.0, 0.0), Point(1000.0, 500.0))]

  const BoardCorners: seq<Point> := [Point(0.0, 0.0), Point(1000.0, 0.0), Point(1000.0, 500.0)]

  const Resistor: RawElement :=
    RawElement(Some("R1"), Some("RES_0805"), Some(Float(500.0)), Some(Float(250.0)), Some("R0"))

  lemma BoardWiresParse()
    ensures ParseWires(BoardWires) == Ok(BoardSegments)
    ensures PlainSegments(Some(BoardWires)) == BoardSegments
  {
    var w1, w2 := BoardWires[0], BoardWires[1];
    var s1, s2 := BoardSegments[0], BoardSegments[1];
    assert ParseWire(w1) == Ok(s1);
    assert ParseWire(w2) == Ok(s2);
    assert ParseWires([]) == Ok([]);
    ParseWiresSnoc([], w1);
    assert [] + [w1] == [w1] && [] + [s1] == [s1];
    ParseWiresSnoc([w1], w2);
    assert [w1] + [w2] == BoardWires && [s1] + [s2] == BoardSegments;
  }

  lemma BoardDedup()
    ensures Dedup(Endpoints(BoardSegments)) == BoardCorners
  {
    var s1, s2 := BoardSegments[0], BoardSegments[1];
    var ends := [Point(0.0, 0.0), Point(1000.0, 0.0), Point(1000.0, 0.0), Point(1000.0, 500.0)];
    EndpointsSnoc([], s1);
    assert [] + [s1] == [s1];
    EndpointsSnoc([s1], s2);
    assert [s1] + [s2] == BoardSegments;
    assert Endpoints(BoardSegments) == ends;
    var pts := BoardCorners;
    assert forall p :: p in ends ==> p in pts;
    assert forall p :: p in pts ==> p in ends;
    assert FirstIndex(ends, pts[0]) == 0;
    assert FirstIndex(ends, pts[1]) == 1;
    assert FirstIndex(ends, pts[2]) == 3;
    DedupCharacterized(ends, pts);
  }

  lemma BoardBox()
    ensures BoundingBox(BoardCorners) == Box(0.0, 0.0, 1000.0, 500.0)
  {
    var pts := BoardCorners;
    assert pts[..2][..1] == [pts[0]];
    assert pts[..2] == [pts[0], pts[1]];
    assert BoundingBox([pts[0]]) == Box(0.0, 0.0, 0.0, 0.0);
    assert BoundingBox(pts[..2]) == Box(0.0, 0.0, 1000.0, 0.0);
  }

  /** The L-shaped board's outline: its three corners, in first-seen order, spanning (0,0)-(1000,500). */
  lemma BoardExampleOutline()
    ensures BoardOutline(Some(BoardWires)) == Ok(Some(BoardCorners))
    ensures Extents(Some(BoardCorners)) == Box(0.0, 0.0, 1000.0, 500.0)
  {
    BoardWiresParse();
    BoardDedup();
    BoardBox();
  }

  lemma ResistorExtracted(h: real)
    ensures ExtractedComponents([Resistor], h) == Ok([Component("R1", "RES_0805", 500.0, h - 250.0, "R0")])
  {
    var c := Component("R1", "RES_0805", 500.0, h - 250.0, "R0");
    assert ToComponent(Resistor, h) == Ok(c);
    ExtractedSnoc([], Resistor, h);
    assert [] + [Resistor] == [Resistor] && [] + [c] == [c];
  }

  lemma BoardLines()
    ensures OutlineLines(BoardSegments, 500.0) ==
      [Line(0.0, 500.0, 1000.0, 500.0, OutlineStyle), Line(1000.0, 500.0, 1000.0, 0.0, OutlineStyle)]
  {
    var s1, s2 := BoardSegments[0], BoardSegments[1];
    OutlineLinesSnoc([], s1, 500.0);
    assert [] + [s1] == [s1];
    OutlineLinesSnoc([s1], s2, 500.0);
    assert [s1] + [s2] == BoardSegments;
  }

  lemma SinglePart(c: Component, lib: Library)
    ensures PlacementGroups([c], lib) ==
      if !Resolves(c, lib) then Ok([])
      else (match PartGroup(c, lib[c.package].value) case Err(e) => Err(e) case Ok(g) => Ok([g]))
  {
    PlacementGroupsSnoc([], c, lib);
    assert [] + [c] == [c];
    assert PlacementGroups([], lib) == Ok([]);
    if Resolves(c, lib) {
      match PartGroup(c, lib[c.package].value)
      case Ok(g) =>
        assert [] + [g] == [g];
      case Err(_) =>
    }
  }

  /** The resistor on the L-shaped board: components extracted about height 500. */
  lemma ResistorDocument(doc: Document)
    requires doc == Document(Some(BoardWires), [Resistor])
    ensures BoardOutline(doc.plain) == Ok(Some(BoardCorners))
    ensures ReferenceHeight(Some(BoardCorners)) == 500.0
    ensures ExtractedComponents(doc.elements, 500.0) == Ok([Component("R1", "RES_0805", 500.0, 250.0, "R0")])
    ensures PlainSegments(doc.plain) == BoardSegments
  {
    BoardExampleOutline();
    BoardWiresParse();
    ResistorExtracted(500.0);
  }

  /** The resistor's group: its name, translate(500,250) rotate(0), and the artwork's children. */
  lemma ResistorGroup(art: Artwork)
    ensures PlacementGroups([Component("R1", "RES_0805", 500.0, 250.0, "R0")], map["RES_0805" := Some(art)]) ==
      Ok([Group("R1", [Translate(500.0, 250.0), Rotate(0)], art.children)])
  {
    var lib := map["RES_0805" := Some(art)];
    var r1 := Component("R1", "RES_0805", 500.0, 250.0, "R0");
    var g := Group("R1", [Translate(500.0, 250.0), Rotate(0)], art.children);
    assert Decimal(0) == "0" && "R" + Decimal(0) == "R0";
    assert WithinDigitLimit(0);
    RotateCode(500.0, 250.0, 0);
    assert PartGroup(r1, art) == Ok(g);
    SinglePart(r1, lib);
    assert Resolves(r1, lib) && lib[r1.package].value == art;
  }

  /** combine_svgs for the resistor on the L-shaped board, its artwork present. */
  lemma ResistorComposite(art: Artwork)
    ensures Composite([Component("R1", "RES_0805", 500.0, 250.0, "R0")], Some(BoardCorners), BoardSegments,
                      map["RES_0805" := Some(art)]) ==
      Ok(Svg(
        SvgRoot(1.0, 0.5, ViewBox(0.0, 0.0, 1000.0, 500.0), "1.1"),
        [Line(0.0, 500.0, 1000.0, 500.0, OutlineStyle), Line(1000.0, 500.0, 1000.0, 0.0, OutlineStyle)],
        [Group("R1", [Translate(500.0, 250.0), Rotate(0)], art.children)]))
  {
    var lib := map["RES_0805" := Some(art)];
    var r1 := Component("R1", "RES_0805", 500.0, 250.0, "R0");
    BoardLines();
    ResistorGroup(art);
    var b := Box(0.0, 0.0, 1000.0, 500.0);
    assert CreateSvgRoot(b) == SvgRoot(1.0, 0.5, ViewBox(0.0, 0.0, 1000.0, 500.0), "1.1");
    BoardBox();
    CompositeSteps([r1], BoardCorners, BoardSegments, lib, b);
  }

  /**
   * The two-wire board with one resistor R1 (package RES_0805) at (500,250),
   * orientation R0, whose artwork is present: a 1 x 0.5 inch canvas with
   * viewBox 0 0 1000 500, both wires drawn flipped, and exactly one group, R1,
   * placed at (500,250) with rotate(0).
   */
  lemma ResistorOnBoard(art: Artwork)
    ensures Convert(Document(Some(BoardWires), [Resistor]), map["RES_0805" := Some(art)]) ==
      Converted(Svg(
        SvgRoot(1.0, 0.5, ViewBox(0.0, 0.0, 1000.0, 500.0), "1.1"),
        [Line(0.0, 500.0, 1000.0, 500.0, OutlineStyle), Line(1000.0, 500.0, 1000.0, 0.0, OutlineStyle)],
        [Group("R1", [Translate(500.0, 250.0), Rotate(0)], art.children)]))
  {
    var doc := Document(Some(BoardWires), [Resistor]);
    ResistorDocument(doc);
    ResistorComposite(art);
    ConvertSteps(doc, map["RES_0805" := Some(art)], Some(BoardCorners), [Component("R1", "RES_0805", 500.0, 250.0, "R0")]);
  }

  /** With no <plain> and no element, main stops before drawing anything. */
  lemma EmptyDocumentStops(lib: Library)
    ensures Convert(Document(None, []), lib) == NoComponents
  {
  }

  /** The resistor whose package has no artwork: the drawing is made, without any group. */
  lemma MissingArtworkSkipped(lib: Library)
    requires "RES_0805" !in lib
    ensures Convert(Document(Some(BoardWires), [Resistor]), lib).Converted?
    ensures Convert(Document(Some(BoardWires), [Resistor]), lib).svg.groups == []
  {
    var doc := Document(Some(BoardWires), [Resistor]);
    ResistorDocument(doc);
    var r1 := Component("R1", "RES_0805", 500.0, 250.0, "R0");
    SinglePart(r1, lib);
    BoardBox();
    CompositeSteps([r1], BoardCorners, BoardSegments, lib, Box(0.0, 0.0, 1000.0, 500.0));
    ConvertSteps(doc, lib, Some(BoardCorners), [r1]);
  }
}
