/** extract_components: the placed parts of the board, anchored in SVG's Y-down coordinates. */
module Components {
  import opened Wrappers
  import opened Geometry
  import opened PyNum

  /** An <element> of <elements> as parsed; every attribute may be missing. */
  datatype RawElement = RawElement(
    name: Option<string>, package: Option<string>,
    x: Option<FloatText>, y: Option<FloatText>, rot: Option<string>)

  /** The tuple (name, package, x, y, rot) of the `comps` list, y already flipped. */
  datatype Component = Component(name: string, package: string, x: real, y: real, rot: string)

  /** The orientation an element without a rot attribute gets. */
  const DefaultRot: string := "R0"

  /** `name and package`: both attributes present and non-empty. */
  predicate Named(e: RawElement) {
    e.name.Some? && e.name.value != "" && e.package.Some? && e.package.value != ""
  }

  /** x and y read with default 0, as float(elem.get("x", "0")) does. */
  predicate Readable(e: RawElement) {
    ReadFloatOr(e.x, 0.0).Ok? && ReadFloatOr(e.y, 0.0).Ok?
  }

  function RotOf(e: RawElement): string {
    if e.rot.None? then DefaultRot else e.rot.value
  }

  /** One loop iteration for a named element: x, then y, then the flip about h. */
  function ToComponent(e: RawElement, h: real): (r: Result<Component>)
    requires Named(e)
    ensures r.Ok? <==> Readable(e)
  {
    match ReadFloatOr(e.x, 0.0)
    case Err(err) => Err(err)
    case Ok(x) =>
      match ReadFloatOr(e.y, 0.0)
      case Err(err) => Err(err)
      case Ok(y) => Ok(Component(e.name.value, e.package.value, x, FlipY(h, y), RotOf(e)))
  }

  /** The elements that the `continue` does not skip, in document order. */
  function NamedElements(es: seq<RawElement>): (ns: seq<RawElement>)
    ensures |ns| <= |es|
    ensures forall k :: 0 <= k < |ns| ==> Named(ns[k]) && ns[k] in es
    ensures forall i :: 0 <= i < |es| && Named(es[i]) ==> es[i] in ns
  {
    if |es| == 0 then []
    else
      var ns := NamedElements(es[..|es| - 1]);
      assert forall k :: 0 <= k < |ns| ==> ns[k] in es by {
        forall k | 0 <= k < |ns| ensures ns[k] in es {
          var i :| 0 <= i < |es| - 1 && es[..|es| - 1][i] == ns[k];
          assert es[i] == ns[k];
        }
      }
      assert forall i :: 0 <= i < |es| - 1 ==> es[i] == es[..|es| - 1][i];
      if Named(es[|es| - 1]) then ns + [es[|es| - 1]] else ns
  }

  /** The elements kept from a document are those kept from its first part followed by those of the rest. */
  lemma {:induction false} NamedElementsConcat(a: seq<RawElement>, b: seq<RawElement>)
    ensures NamedElements(a + b) == NamedElements(a) + NamedElements(b)
  {
    if |b| == 0 {
      assert a + b == a;
    } else {
      var p, e := b[..|b| - 1], b[|b| - 1];
      assert b == p + [e];
      assert a + b == (a + p) + [e];
      assert (a + b)[..|a + b| - 1] == a + p;
      NamedElementsConcat(a, p);
    }
  }

  /** The `comps` list extract_components builds, or the first float() error. */
  function ExtractedComponents(es: seq<RawElement>, h: real): Result<seq<Component>> {
    if |es| == 0 then Ok([])
    else
      match ExtractedComponents(es[..|es| - 1], h)
      case Err(err) => Err(err)
      case Ok(cs) =>
        var e := es[|es| - 1];
        if !Named(e) then Ok(cs)
        else
          match ToComponent(e, h)
          case Err(err) => Err(err)
          case Ok(c) => Ok(cs + [c])
  }

  lemma ExtractedSnoc(es: seq<RawElement>, e: RawElement, h: real)
    ensures ExtractedComponents(es + [e], h) ==
      match ExtractedComponents(es, h)
      case Err(err) => Err(err)
      case Ok(cs) =>
        if !Named(e) then Ok(cs)
        else (match ToComponent(e, h) case Err(err) => Err(err) case Ok(c) => Ok(cs + [c]))
  {
    assert (es + [e])[..|es|] == es;
  }

  lemma {:induction false} ExtractedErrorPrefix(es: seq<RawElement>, n: nat, h: real)
    requires n <= |es| && ExtractedComponents(es[..n], h).Err?
    ensures ExtractedComponents(es, h) == ExtractedComponents(es[..n], h)
    decreases |es| - n
  {
    if n < |es| {
      ExtractedSnoc(es[..n], es[n], h);
      assert es[..n + 1] == es[..n] + [es[n]];
      ExtractedErrorPrefix(es, n + 1, h);
    } else {
      assert es[..n] == es;
    }
  }

  /** extract_components(root, board_max_y), with the <element>s passed in document order. */
  method ExtractComponents(es: seq<RawElement>, boardMaxY: real) returns (r: Result<seq<Component>>)
    ensures r == ExtractedComponents(es, boardMaxY)
  {
    var comps: seq<Component> := [];
    var i := 0;
    while i < |es|
      invariant 0 <= i <= |es|
      invariant ExtractedComponents(es[..i], boardMaxY) == Ok(comps)
    {
      var e := es[i];
      assert es[..i + 1] == es[..i] + [e];
      ExtractedSnoc(es[..i], e, boardMaxY);
      if !(e.name.Some? && e.name.value != "" && e.package.Some? && e.package.value != "") {
        i := i + 1;
        continue;
      }
      var x := ReadFloatOr(e.x, 0.0);
      if x.Err? {
        ExtractedErrorPrefix(es, i + 1, boardMaxY);
        return Err(x.error);
      }
      var y := ReadFloatOr(e.y, 0.0);
      if y.Err? {
        ExtractedErrorPrefix(es, i + 1, boardMaxY);
        return Err(y.error);
      }
      var rot := if e.rot.None? then DefaultRot else e.rot.value;
      comps := comps + [Component(e.name.value, e.package.value, x.value, FlipY(boardMaxY, y.value), rot)];
      i := i + 1;
    }
    assert es[..i] == es;
    return Ok(comps);
  }

  /**
   * The run aborts exactly when some named element has an x or y that float()
   * rejects; a skipped element's attributes are never read.
   */
  lemma {:induction false} ExtractedError(es: seq<RawElement>, h: real)
    ensures ExtractedComponents(es, h).Err? <==>
      exists i :: 0 <= i < |es| && Named(es[i]) && !Readable(es[i])
  {
    if |es| > 0 {
      var p, e := es[..|es| - 1], es[|es| - 1];
      assert es == p + [e];
      ExtractedError(p, h);
      assert forall i :: 0 <= i < |p| ==> p[i] == es[i];
    }
  }

  /**
   * One component per named element, in document order: same name and package,
   * x defaulting to 0, y (default 0) replaced by board_max_y - y, rot defaulting
   * to "R0". Flipping the stored y again about the same height gives back the
   * element's y.
   */
  lemma {:induction false} ExtractedMatchesNamed(es: seq<RawElement>, h: real)
    requires ExtractedComponents(es, h).Ok?
    ensures var cs, ns := ExtractedComponents(es, h).value, NamedElements(es);
      && |cs| == |ns|
      && forall k :: 0 <= k < |cs| ==>
        && cs[k].name == ns[k].name.value && cs[k].name != ""
        && cs[k].package == ns[k].package.value && cs[k].package != ""
        && Readable(ns[k])
        && cs[k].x == ReadFloatOr(ns[k].x, 0.0).value
        && cs[k].y == h - ReadFloatOr(ns[k].y, 0.0).value
        && FlipY(h, cs[k].y) == ReadFloatOr(ns[k].y, 0.0).value
        && cs[k].rot == RotOf(ns[k])
  {
    if |es| > 0 {
      var p, e := es[..|es| - 1], es[|es| - 1];
      assert es == p + [e];
      ExtractedSnoc(p, e, h);
      ExtractedMatchesNamed(p, h);
    }
  }

  /** An element with only a name and a package sits at (0, board_max_y) with orientation "R0". */
  lemma DefaultPlacement(name: string, package: string, h: real)
    requires name != "" && package != ""
    ensures ExtractedComponents([RawElement(Some(name), Some(package), None, None, None)], h)
      == Ok([Component(name, package, 0.0, h, "R0")])
  {
    var es := [RawElement(Some(name), Some(package), None, None, None)];
    assert es[..|es| - 1] == [];
    assert ExtractedComponents(es[..|es| - 1], h) == Ok([]);
    var c := Component(name, package, 0.0, h, "R0");
    assert ToComponent(es[0], h) == Ok(c);
    assert [] + [c] == [c];
  }
}
