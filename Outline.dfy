/** extract_board_outline: the board outline as the distinct endpoints of the <plain> wires. */
module Outline {
  import opened Wrappers
  import opened Geometry
  import opened Distinct
  import opened PyNum

  /** A <wire> element as parsed: each coordinate attribute may be missing (None). */
  datatype RawWire = RawWire(
    x1: Option<FloatText>, y1: Option<FloatText>,
    x2: Option<FloatText>, y2: Option<FloatText>)

  predicate WellFormed(w: RawWire) {
    ReadFloat(w.x1).Ok? && ReadFloat(w.y1).Ok? && ReadFloat(w.x2).Ok? && ReadFloat(w.y2).Ok?
  }

  /** The four float() calls of one wire, in the order x1, y1, x2, y2. */
  function ParseWire(w: RawWire): (r: Result<Segment>)
    ensures r.Ok? <==> WellFormed(w)
    ensures r.Ok? ==> r.value == Segment(Point(w.x1.value.value, w.y1.value.value),
                                         Point(w.x2.value.value, w.y2.value.value))
  {
    match ReadFloat(w.x1)
    case Err(e) => Err(e)
    case Ok(x1) =>
      match ReadFloat(w.y1)
      case Err(e) => Err(e)
      case Ok(y1) =>
        match ReadFloat(w.x2)
        case Err(e) => Err(e)
        case Ok(x2) =>
          match ReadFloat(w.y2)
          case Err(e) => Err(e)
          case Ok(y2) => Ok(Segment(Point(x1, y1), Point(x2, y2)))
  }

  /** All wires parsed in document order; the first wire that fails decides the error. */
  function ParseWires(ws: seq<RawWire>): (r: Result<seq<Segment>>)
    ensures r.Ok? <==> forall i :: 0 <= i < |ws| ==> WellFormed(ws[i])
    ensures r.Ok? ==> |r.value| == |ws|
    ensures r.Ok? ==> forall k :: 0 <= k < |ws| ==> r.value[k] == ParseWire(ws[k]).value
  {
    if |ws| == 0 then Ok([])
    else
      match ParseWires(ws[..|ws| - 1])
      case Err(e) => Err(e)
      case Ok(ss) =>
        match ParseWire(ws[|ws| - 1])
        case Err(e) => Err(e)
        case Ok(s) => Ok(ss + [s])
  }

  /** Both endpoints of every segment, in order: the `points` list of the first loop. */
  function Endpoints(ss: seq<Segment>): (ps: seq<Point>)
    ensures |ps| == 2 * |ss|
    ensures forall k :: 0 <= k < |ss| ==> ps[2 * k] == ss[k].p1 && ps[2 * k + 1] == ss[k].p2
  {
    if |ss| == 0 then [] else Endpoints(ss[..|ss| - 1]) + [ss[|ss| - 1].p1, ss[|ss| - 1].p2]
  }

  /**
   * The value extract_board_outline returns: None when there is no <plain> or it
   * holds no wires, otherwise the distinct endpoints in first-seen order.
   */
  function BoardOutline(plain: Option<seq<RawWire>>): Result<Option<seq<Point>>> {
    match plain
    case None => Ok(None)
    case Some(ws) =>
      match ParseWires(ws)
      case Err(e) => Err(e)
      case Ok(ss) => if |ss| == 0 then Ok(None) else Ok(Some(Dedup(Endpoints(ss))))
  }

  lemma ParseWiresSnoc(ws: seq<RawWire>, w: RawWire)
    ensures ParseWires(ws + [w]) ==
      match ParseWires(ws)
      case Err(e) => Err(e)
      case Ok(ss) => (match ParseWire(w) case Err(e) => Err(e) case Ok(s) => Ok(ss + [s]))
  {
    assert (ws + [w])[..|ws|] == ws;
  }

  /** Once a prefix of the wires fails, the whole list fails with the same error. */
  lemma {:induction false} ParseWiresErrorPrefix(ws: seq<RawWire>, n: nat)
    requires n <= |ws| && ParseWires(ws[..n]).Err?
    ensures ParseWires(ws) == ParseWires(ws[..n])
    decreases |ws| - n
  {
    if n < |ws| {
      ParseWiresSnoc(ws[..n], ws[n]);
      assert ws[..n + 1] == ws[..n] + [ws[n]];
      ParseWiresErrorPrefix(ws, n + 1);
    } else {
      assert ws[..n] == ws;
    }
  }

  lemma EndpointsSnoc(ss: seq<Segment>, s: Segment)
    ensures Endpoints(ss + [s]) == Endpoints(ss) + [s.p1, s.p2]
  {
    assert (ss + [s])[..|ss|] == ss;
  }

  /** The first loop of extract_board_outline: both endpoints of every wire, or the first float() error. */
  method CollectEndpoints(ws: seq<RawWire>) returns (r: Result<seq<Point>>)
    ensures r == match ParseWires(ws) case Err(e) => Err(e) case Ok(ss) => Ok(Endpoints(ss))
  {
    var points: seq<Point> := [];
    ghost var segs: seq<Segment> := [];
    var i := 0;
    while i < |ws|
      invariant 0 <= i <= |ws|
      invariant ParseWires(ws[..i]) == Ok(segs)
      invariant points == Endpoints(segs)
    {
      assert ws[..i + 1] == ws[..i] + [ws[i]];
      ParseWiresSnoc(ws[..i], ws[i]);
      var s := ParseWire(ws[i]);
      if s.Err? {
        ParseWiresErrorPrefix(ws, i + 1);
        return Err(s.error);
      }
      EndpointsSnoc(segs, s.value);
      points := points + [s.value.p1, s.value.p2];
      segs := segs + [s.value];
      i := i + 1;
    }
    assert ws[..i] == ws;
    return Ok(points);
  }

  /** The second loop of extract_board_outline: keep each point the first time it is seen. */
  method DedupPoints(points: seq<Point>) returns (unique: seq<Point>)
    ensures unique == Dedup(points)
  {
    var seen: set<Point> := {};
    unique := [];
    var j := 0;
    while j < |points|
      invariant 0 <= j <= |points|
      invariant unique == Dedup(points[..j])
      invariant forall p :: p in seen <==> p in unique
    {
      var p := points[j];
      assert points[..j + 1] == points[..j] + [p];
      DedupSnoc(points[..j], p);
      if p !in seen {
        unique := unique + [p];
        seen := seen + {p};
      }
      j := j + 1;
    }
    assert points[..j] == points;
  }

  /** extract_board_outline, with the <plain> wires passed in (None when there is no <plain>). */
  method ExtractBoardOutline(plain: Option<seq<RawWire>>) returns (r: Result<Option<seq<Point>>>)
    ensures r == BoardOutline(plain)
  {
    if plain.None? {
      return Ok(None);
    }
    var points := CollectEndpoints(plain.value);
    if points.Err? {
      return Err(points.error);
    }
    if |points.value| == 0 {
      return Ok(None);
    }
    var unique := DedupPoints(points.value);
    return Ok(Some(unique));
  }

  /** The outline is absent exactly when there is no <plain> or it holds no wire. */
  lemma OutlineAbsent(plain: Option<seq<RawWire>>)
    requires BoardOutline(plain).Ok?
    ensures BoardOutline(plain).value.None? <==> plain.None? || |plain.value| == 0
  {
  }

  /** The run aborts exactly when some wire has a missing or non-numeric coordinate. */
  lemma OutlineError(plain: Option<seq<RawWire>>)
    ensures BoardOutline(plain).Err? <==>
      plain.Some? && exists i :: 0 <= i < |plain.value| && !WellFormed(plain.value[i])
  {
  }

  /**
   * A present outline holds each wire endpoint exactly once, in first-seen order,
   * is non-empty, and has at most two points per wire, exactly two when all
   * endpoints are distinct.
   */
  lemma OutlineShape(ws: seq<RawWire>)
    requires BoardOutline(Some(ws)).Ok? && BoardOutline(Some(ws)).value.Some?
    ensures var pts := BoardOutline(Some(ws)).value.value;
      var ends := Endpoints(ParseWires(ws).value);
      && 0 < |pts| <= 2 * |ws|
      && (|pts| == 2 * |ws| <==> NoDuplicates(ends))
      && NoDuplicates(pts)
      && (forall p :: p in pts <==> p in ends)
      && InFirstOccurrenceOrder(pts, ends)
  {
    var ends := Endpoints(ParseWires(ws).value);
    var pts := Dedup(ends);
    DedupLength(ends);
    DedupOrder(ends);
    assert ends[0] in pts;
  }

  lemma {:induction false} ParseWiresConcat(a: seq<RawWire>, b: seq<RawWire>)
    requires ParseWires(a).Ok? && ParseWires(b).Ok?
    ensures ParseWires(a + b) == Ok(ParseWires(a).value + ParseWires(b).value)
  {
    if |b| == 0 {
      assert a + b == a;
      assert ParseWires(a).value + ParseWires(b).value == ParseWires(a).value;
    } else {
      var p, w := b[..|b| - 1], b[|b| - 1];
      assert b == p + [w];
      assert a + b == (a + p) + [w];
      ParseWiresSnoc(p, w);
      var sa, sp, sw := ParseWires(a).value, ParseWires(p).value, ParseWire(w).value;
      assert ParseWires(b) == Ok(sp + [sw]);
      ParseWiresConcat(a, p);
      ParseWiresSnoc(a + p, w);
      assert (sa + sp) + [sw] == sa + (sp + [sw]);
    }
  }

  lemma {:induction false} EndpointsConcat(a: seq<Segment>, b: seq<Segment>)
    ensures Endpoints(a + b) == Endpoints(a) + Endpoints(b)
  {
    if |b| > 0 {
      var p, s := b[..|b| - 1], b[|b| - 1];
      assert b == p + [s];
      assert a + b == (a + p) + [s];
      EndpointsConcat(a, p);
      EndpointsSnoc(a + p, s);
      EndpointsSnoc(p, s);
    } else {
      assert a + b == a;
    }
  }

  /** Listing every wire of <plain> twice yields the same outline as listing it once. */
  lemma OutlineStable(ws: seq<RawWire>)
    ensures BoardOutline(Some(ws + ws)) == BoardOutline(Some(ws))
  {
    if ParseWires(ws).Ok? {
      var ss := ParseWires(ws).value;
      ParseWiresConcat(ws, ws);
      EndpointsConcat(ss, ss);
      DedupSelfConcat(Endpoints(ss));
    } else {
      assert (ws + ws)[..|ws|] == ws;
      ParseWiresErrorPrefix(ws + ws, |ws|);
    }
  }
}
