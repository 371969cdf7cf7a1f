/** create_svg_root and combine_svgs: the canvas extents and the composite drawing. */
module Canvas {
  import opened Wrappers
  import opened Geometry
  import opened Components
  import opened Transform

  /** The extents used when the board has no outline: 2000 x 2000 mils from the origin. */
  const DefaultExtents: Box := Box(0.0, 0.0, 2000.0, 2000.0)

  /** Board units are mils; the root's width and height are in inches. */
  const MilsPerInch: real := 1000.0

  /** The version attribute of the root element. */
  const SvgVersion: string := "1.1"

  /** The style of every outline <line>. */
  const OutlineStyle: string := "stroke:#000000;stroke-width:10"

  /**
   * `if board_outline:` picks the outline's bounding box, otherwise the default
   * extents (an absent or empty outline is false in Python).
   */
  function Extents(outline: Option<seq<Point>>): (b: Box)
    ensures b.minX <= b.maxX && b.minY <= b.maxY
    ensures outline.Some? ==> forall i :: 0 <= i < |outline.value| ==> Inside(outline.value[i], b)
    ensures outline.None? || |outline.value| == 0 ==> b == DefaultExtents
    ensures outline.Some? && |outline.value| > 0 ==>
      && (exists i :: 0 <= i < |outline.value| && outline.value[i].x == b.minX)
      && (exists i :: 0 <= i < |outline.value| && outline.value[i].y == b.minY)
      && (exists i :: 0 <= i < |outline.value| && outline.value[i].x == b.maxX)
      && (exists i :: 0 <= i < |outline.value| && outline.value[i].y == b.maxY)
  {
    if outline.Some? && |outline.value| > 0 then BoundingBox(outline.value) else DefaultExtents
  }

  /** The viewBox attribute "minX minY width height" (section 7.7 of SVG 1.1). */
  datatype ViewBox = ViewBox(minX: real, minY: real, width: real, height: real)

  /** The attributes of the root <svg>: width and height carry the unit "in". */
  datatype SvgRoot = SvgRoot(widthIn: real, heightIn: real, viewBox: ViewBox, version: string)

  /**
   * create_svg_root(minX, minY, maxX, maxY): the viewBox starts at 0,0 and spans
   * the extents; width and height state the same spans in inches.
   */
  function CreateSvgRoot(b: Box): (s: SvgRoot)
    ensures s.viewBox.minX == 0.0 && s.viewBox.minY == 0.0
    ensures s.viewBox.width + b.minX == b.maxX && s.viewBox.height + b.minY == b.maxY
    ensures s.widthIn * MilsPerInch == s.viewBox.width && s.heightIn * MilsPerInch == s.viewBox.height
    ensures s.version == SvgVersion
  {
    var width := b.maxX - b.minX;
    var height := b.maxY - b.minY;
    SvgRoot(width / MilsPerInch, height / MilsPerInch, ViewBox(0.0, 0.0, width, height), SvgVersion)
  }

  /** An element of the artwork below its root, kept as it was parsed. */
  datatype ArtNode = ArtNode(tag: string, attrs: map<string, string>, children: seq<ArtNode>)

  /** The root <svg> of a part's artwork and its children. */
  datatype Artwork = Artwork(attrs: map<string, string>, children: seq<ArtNode>)

  /**
   * What the artwork lookup gives for a package: no entry when match_svg finds
   * no file, None when parse_svg fails, the parsed artwork otherwise.
   */
  type Library = map<string, Option<Artwork>>

  /** The attributes combine_svgs pops from the artwork root. */
  const DimensionAttrs: set<string> := {"width", "height", "viewBox"}

  /** The three attrib.pop calls: drop width, height and viewBox, keep the rest. */
  function StripDimensions(a: Artwork): (r: Artwork)
    ensures r.children == a.children
    ensures forall k :: k in r.attrs <==> k in a.attrs && k !in DimensionAttrs
    ensures forall k :: k in r.attrs ==> r.attrs[k] == a.attrs[k]
  {
    a.(attrs := a.attrs - DimensionAttrs)
  }

  /** One outline <line>, its y coordinates flipped. */
  datatype Line = Line(x1: real, y1: real, x2: real, y2: real, style: string)

  /** <g id=name transform=...> holding the children of the part's artwork. */
  datatype Group = Group(id: string, transform: seq<TransformOp>, children: seq<ArtNode>)

  /**
   * The output tree: the root, and inside <g id="breadboard"><g> first the
   * outline lines, then one group per placed part.
   */
  datatype Svg = Svg(root: SvgRoot, lines: seq<Line>, groups: seq<Group>)

  predicate Resolves(c: Component, lib: Library) {
    c.package in lib && lib[c.package].Some?
  }

  function OutlineLine(s: Segment, maxY: real): Line {
    Line(s.p1.x, FlipY(maxY, s.p1.y), s.p2.x, FlipY(maxY, s.p2.y), OutlineStyle)
  }

  /** One line per wire, in order, each endpoint flipped about maxY. */
  function OutlineLines(segs: seq<Segment>, maxY: real): (ls: seq<Line>)
    ensures |ls| == |segs|
    ensures forall k :: 0 <= k < |segs| ==> ls[k] == OutlineLine(segs[k], maxY)
  {
    if |segs| == 0 then [] else OutlineLines(segs[..|segs| - 1], maxY) + [OutlineLine(segs[|segs| - 1], maxY)]
  }

  /** The group for a part whose artwork resolves, or the error build_transform raises. */
  function PartGroup(c: Component, art: Artwork): Result<Group> {
    match BuildTransform(c.x, c.y, c.rot)
    case Err(e) => Err(e)
    case Ok(ops) => Ok(Group(c.name, ops, StripDimensions(art).children))
  }

  /**
   * The groups of the component loop: unresolved parts are skipped, so there are
   * as many groups as resolved parts; the only error is build_transform's.
   */
  function PlacementGroups(cs: seq<Component>, lib: Library): (r: Result<seq<Group>>)
    ensures r.Ok? ==> |r.value| == |ResolvedParts(cs, lib)| <= |cs|
    ensures r.Err? ==> r.error == ValueError
  {
    if |cs| == 0 then Ok([])
    else
      match PlacementGroups(cs[..|cs| - 1], lib)
      case Err(e) => Err(e)
      case Ok(gs) =>
        var c := cs[|cs| - 1];
        if !Resolves(c, lib) then Ok(gs)
        else
          match PartGroup(c, lib[c.package].value)
          case Err(e) => Err(e)
          case Ok(g) => Ok(gs + [g])
  }

  /** The parts whose artwork resolves, in input order. */
  function ResolvedParts(cs: seq<Component>, lib: Library): (rs: seq<Component>)
    ensures |rs| <= |cs|
    ensures forall k :: 0 <= k < |rs| ==> Resolves(rs[k], lib) && rs[k] in cs
    ensures forall i :: 0 <= i < |cs| && Resolves(cs[i], lib) ==> cs[i] in rs
  {
    if |cs| == 0 then []
    else
      var rs := ResolvedParts(cs[..|cs| - 1], lib);
      if Resolves(cs[|cs| - 1], lib) then rs + [cs[|cs| - 1]] else rs
  }

  /**
   * combine_svgs(components, board_outline) as a value. The outline lines are
   * drawn when an outline is given, flipped about its bounding box's max Y; an
   * empty outline there makes bounding_box raise ValueError.
   */
  function Composite(cs: seq<Component>, outline: Option<seq<Point>>, segs: seq<Segment>, lib: Library)
    : Result<Svg>
  {
    var root := CreateSvgRoot(Extents(outline));
    if outline == Some([]) then Err(ValueError)
    else
      var lines := if outline.Some? then OutlineLines(segs, BoundingBox(outline.value).maxY) else [];
      match PlacementGroups(cs, lib)
      case Err(e) => Err(e)
      case Ok(gs) => Ok(Svg(root, lines, gs))
  }

  /** The resolved parts of a list are those of its first part followed by those of the rest, in order. */
  lemma {:induction false} ResolvedPartsConcat(a: seq<Component>, b: seq<Component>, lib: Library)
    ensures ResolvedParts(a + b, lib) == ResolvedParts(a, lib) + ResolvedParts(b, lib)
  {
    if |b| == 0 {
      assert a + b == a;
    } else {
      var p, c := b[..|b| - 1], b[|b| - 1];
      assert b == p + [c];
      assert a + b == (a + p) + [c];
      assert (a + b)[..|a + b| - 1] == a + p;
      ResolvedPartsConcat(a, p, lib);
    }
  }

  lemma OutlineLinesSnoc(segs: seq<Segment>, s: Segment, maxY: real)
    ensures OutlineLines(segs + [s], maxY) == OutlineLines(segs, maxY) + [OutlineLine(s, maxY)]
  {
    assert (segs + [s])[..|segs|] == segs;
  }

  lemma PlacementGroupsSnoc(cs: seq<Component>, c: Component, lib: Library)
    ensures PlacementGroups(cs + [c], lib) ==
      match PlacementGroups(cs, lib)
      case Err(e) => Err(e)
      case Ok(gs) =>
        if !Resolves(c, lib) then Ok(gs)
        else (match PartGroup(c, lib[c.package].value) case Err(e) => Err(e) case Ok(g) => Ok(gs + [g]))
  {
    assert (cs + [c])[..|cs|] == cs;
  }

  lemma {:induction false} PlacementGroupsErrorPrefix(cs: seq<Component>, n: nat, lib: Library)
    requires n <= |cs| && PlacementGroups(cs[..n], lib).Err?
    ensures PlacementGroups(cs, lib) == PlacementGroups(cs[..n], lib)
    decreases |cs| - n
  {
    if n < |cs| {
      PlacementGroupsSnoc(cs[..n], cs[n], lib);
      assert cs[..n + 1] == cs[..n] + [cs[n]];
      PlacementGroupsErrorPrefix(cs, n + 1, lib);
    } else {
      assert cs[..n] == cs;
    }
  }

  /** combine_svgs, with the parsed <plain> wires passed in for the outline lines. */
  method CombineSvgs(components: seq<Component>, outline: Option<seq<Point>>, segs: seq<Segment>, lib: Library)
    returns (r: Result<Svg>)
    ensures r == Composite(components, outline, segs, lib)
  {
    var b := DefaultExtents;
    if outline.Some? && |outline.value| > 0 {
      b := BoundingBox(outline.value);
    }
    var root := CreateSvgRoot(b);
    var lines: seq<Line> := [];
    if outline.Some? {
      if |outline.value| == 0 {
        return Err(ValueError);
      }
      var maxY := BoundingBox(outline.value).maxY;
      var i := 0;
      while i < |segs|
        invariant 0 <= i <= |segs|
        invariant lines == OutlineLines(segs[..i], maxY)
      {
        assert segs[..i + 1] == segs[..i] + [segs[i]];
        OutlineLinesSnoc(segs[..i], segs[i], maxY);
        var s := segs[i];
        lines := lines + [Line(s.p1.x, FlipY(maxY, s.p1.y), s.p2.x, FlipY(maxY, s.p2.y), OutlineStyle)];
        i := i + 1;
      }
      assert segs[..i] == segs;
    }
    var groups: seq<Group> := [];
    var j := 0;
    while j < |components|
      invariant 0 <= j <= |components|
      invariant PlacementGroups(components[..j], lib) == Ok(groups)
    {
      var c := components[j];
      assert components[..j + 1] == components[..j] + [c];
      PlacementGroupsSnoc(components[..j], c, lib);
      if c.package !in lib || lib[c.package].None? {
        j := j + 1;
        continue;
      }
      var art := StripDimensions(lib[c.package].value);
      var transform := BuildTransform(c.x, c.y, c.rot);
      if transform.Err? {
        PlacementGroupsErrorPrefix(components, j + 1, lib);
        return Err(transform.error);
      }
      groups := groups + [Group(c.name, transform.value, art.children)];
      j := j + 1;
    }
    assert components[..j] == components;
    return Ok(Svg(root, lines, groups));
  }

  /**
   * Exactly one group per part whose artwork resolves, in input order: its id is
   * the part's name, its transform build_transform's list for the part, its
   * content the children of the part's artwork.
   */
  lemma {:induction false} GroupsMatchResolved(cs: seq<Component>, lib: Library)
    requires PlacementGroups(cs, lib).Ok?
    ensures var gs, rs := PlacementGroups(cs, lib).value, ResolvedParts(cs, lib);
      && |gs| == |rs|
      && forall k :: 0 <= k < |gs| ==>
        && gs[k].id == rs[k].name
        && BuildTransform(rs[k].x, rs[k].y, rs[k].rot) == Ok(gs[k].transform)
        && gs[k].children == lib[rs[k].package].value.children
  {
    if |cs| > 0 {
      var p, c := cs[..|cs| - 1], cs[|cs| - 1];
      assert cs == p + [c];
      PlacementGroupsSnoc(p, c, lib);
      GroupsMatchResolved(p, lib);
    }
  }

  /** The loop raises exactly when some resolved part's orientation code has an angle int() rejects. */
  lemma {:induction false} GroupsError(cs: seq<Component>, lib: Library)
    ensures PlacementGroups(cs, lib).Err? <==>
      exists i :: 0 <= i < |cs| && Resolves(cs[i], lib) && BuildTransform(cs[i].x, cs[i].y, cs[i].rot).Err?
  {
    if |cs| > 0 {
      var p, c := cs[..|cs| - 1], cs[|cs| - 1];
      assert cs == p + [c];
      PlacementGroupsSnoc(p, c, lib);
      GroupsError(p, lib);
      assert forall i :: 0 <= i < |p| ==> p[i] == cs[i];
    }
  }

  /**
   * A part whose artwork is missing or unparseable is skipped: removing it from
   * the list changes no group and no error.
   */
  lemma {:induction false} SkippedPartChangesNothing(a: seq<Component>, c: Component, b: seq<Component>, lib: Library)
    requires !Resolves(c, lib)
    ensures PlacementGroups(a + [c] + b, lib) == PlacementGroups(a + b, lib)
  {
    if |b| == 0 {
      assert a + [c] + b == a + [c];
      assert a + b == a;
      PlacementGroupsSnoc(a, c, lib);
    } else {
      var p, d := b[..|b| - 1], b[|b| - 1];
      assert b == p + [d];
      assert a + [c] + b == (a + [c] + p) + [d];
      assert a + b == (a + p) + [d];
      SkippedPartChangesNothing(a, c, p, lib);
      PlacementGroupsSnoc(a + [c] + p, d, lib);
      PlacementGroupsSnoc(a + p, d, lib);
    }
  }

  /** Without an outline the canvas is 2 x 2 inches, viewBox "0 0 2000 2000", and carries no line. */
  lemma DefaultCanvas(cs: seq<Component>, segs: seq<Segment>, lib: Library)
    requires Composite(cs, None, segs, lib).Ok?
    ensures var svg := Composite(cs, None, segs, lib).value;
      && svg.root == SvgRoot(2.0, 2.0, ViewBox(0.0, 0.0, 2000.0, 2000.0), "1.1")
      && svg.lines == []
  {
    var root := CreateSvgRoot(Extents(None));
    assert Extents(None) == DefaultExtents;
    assert root.viewBox == ViewBox(0.0, 0.0, 2000.0, 2000.0);
    assert root.widthIn == 2.0 && root.heightIn == 2.0;
    match PlacementGroups(cs, lib)
    case Ok(gs) =>
      assert Composite(cs, None, segs, lib) == Ok(Svg(root, [], gs));
  }

  /**
   * With an outline, every flipped outline endpoint lies within the viewBox's
   * height, and every x within its width exactly when the outline's minimum x
   * is 0: the content is not shifted by minX.
   */
  lemma OutlineWithinViewBox(pts: seq<Point>, segs: seq<Segment>, cs: seq<Component>, lib: Library)
    requires |pts| > 0
    requires forall k :: 0 <= k < |segs| ==> segs[k].p1 in pts && segs[k].p2 in pts
    requires Composite(cs, Some(pts), segs, lib).Ok?
    ensures var svg := Composite(cs, Some(pts), segs, lib).value;
      && (forall k :: 0 <= k < |svg.lines| ==>
            && 0.0 <= svg.lines[k].y1 <= svg.root.viewBox.height
            && 0.0 <= svg.lines[k].y2 <= svg.root.viewBox.height)
      && ((forall p :: p in pts ==> 0.0 <= p.x <= svg.root.viewBox.width) <==> BoundingBox(pts).minX == 0.0)
  {
    var b := BoundingBox(pts);
    var svg := Composite(cs, Some(pts), segs, lib).value;
    if b.minX != 0.0 {
      if b.minX > 0.0 {
        var i :| 0 <= i < |pts| && pts[i].x == b.maxX;
        assert pts[i] in pts && pts[i].x > svg.root.viewBox.width;
      } else {
        var i :| 0 <= i < |pts| && pts[i].x == b.minX;
        assert pts[i] in pts && pts[i].x < 0.0;
      }
    }
  }
}
