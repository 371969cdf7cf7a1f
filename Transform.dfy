/**
 * build_transform: the placement of one part as an SVG transform list
 * (section 7.6 of SVG 1.1): translate, then an optional mirror, then rotate.
 */
module Transform {
  import opened Wrappers
  import opened Geometry
  import opened PyNum

  /** One entry of a transform list. */
  datatype TransformOp =
    | Translate(tx: real, ty: real)
    | Scale(sx: int, sy: int)
    | Rotate(angle: int)

  predicate StartsWith(s: string, prefix: string) {
    |prefix| <= |s| && s[..|prefix|] == prefix
  }

  /** How build_transform reads an orientation code, before int() sees the angle text. */
  datatype Orientation =
    | Mirrored(angleText: string)  // begins with "M": the text after "MR", or else after "M"
    | Turned(angleText: string)    // begins with "R": the text after it
    | Unturned                     // anything else: no rotation is read

  function ReadOrientation(rot: string): (o: Orientation)
    ensures o.Mirrored? <==> StartsWith(rot, "M")
    ensures o.Turned? <==> !StartsWith(rot, "M") && StartsWith(rot, "R")
  {
    if StartsWith(rot, "M") then Mirrored(if StartsWith(rot, "MR") then rot[2..] else rot[1..])
    else if StartsWith(rot, "R") then Turned(rot[1..])
    else Unturned
  }

  /**
   * build_transform(x, y, rot_str). Every result begins with the translation to
   * the anchor; an angle text that int() rejects raises ValueError.
   */
  function BuildTransform(x: real, y: real, rot: string): (r: Result<seq<TransformOp>>)
    ensures r.Ok? ==> |r.value| >= 1 && r.value[0] == Translate(x, y)
    ensures r.Err? <==> !ReadOrientation(rot).Unturned? && ParseInt(ReadOrientation(rot).angleText).None?
    ensures r.Err? ==> r.error == ValueError
  {
    var t := [Translate(x, y)];
    match ReadOrientation(rot)
    case Mirrored(text) =>
      (match ParseInt(text)
       case None => Err(ValueError)
       case Some(n) => Ok(t + [Scale(-1, 1), Rotate(n)]))
    case Turned(text) =>
      (match ParseInt(text)
       case None => Err(ValueError)
       case Some(n) => Ok(t + [Rotate(n)]))
    case Unturned => Ok(t)
  }

  /**
   * The whole dispatch: a code beginning with "M" yields translate, scale(-1,1),
   * rotate; one beginning with "R" translate, rotate; any other code the
   * translation alone.
   */
  lemma BuildTransformShape(x: real, y: real, rot: string)
    requires BuildTransform(x, y, rot).Ok?
    ensures var ops := BuildTransform(x, y, rot).value;
      var o := ReadOrientation(rot);
      && (o.Unturned? ==> ops == [Translate(x, y)])
      && (o.Mirrored? ==> ops == [Translate(x, y), Scale(-1, 1), Rotate(ParseInt(o.angleText).value)])
      && (o.Turned? ==> ops == [Translate(x, y), Rotate(ParseInt(o.angleText).value)])
  {
    match ReadOrientation(rot)
    case Mirrored(text) => MirroredTransform(x, y, rot, ParseInt(text).value);
    case Turned(text) => TurnedTransform(x, y, rot, ParseInt(text).value);
    case Unturned =>
  }

  lemma DecimalHead(n: int)
    ensures |Decimal(n)| > 0 && (Decimal(n)[0] == '-' || IsDigit(Decimal(n)[0]))
  {
  }

  lemma MirroredTransform(x: real, y: real, rot: string, n: int)
    requires ReadOrientation(rot).Mirrored? && ParseInt(ReadOrientation(rot).angleText) == Some(n)
    ensures BuildTransform(x, y, rot) == Ok([Translate(x, y), Scale(-1, 1), Rotate(n)])
  {
    assert [Translate(x, y)] + [Scale(-1, 1), Rotate(n)] == [Translate(x, y), Scale(-1, 1), Rotate(n)];
  }

  lemma TurnedTransform(x: real, y: real, rot: string, n: int)
    requires ReadOrientation(rot).Turned? && ParseInt(ReadOrientation(rot).angleText) == Some(n)
    ensures BuildTransform(x, y, rot) == Ok([Translate(x, y), Rotate(n)])
  {
    assert [Translate(x, y)] + [Rotate(n)] == [Translate(x, y), Rotate(n)];
  }

  /** "R" followed by str(n) rotates by n and does not mirror; past int()'s digit limit it raises. */
  lemma RotateCode(x: real, y: real, n: int)
    ensures BuildTransform(x, y, "R" + Decimal(n)) ==
      if WithinDigitLimit(n) then Ok([Translate(x, y), Rotate(n)]) else Err(ValueError)
  {
    var rot := "R" + Decimal(n);
    assert ReadOrientation(rot) == Turned(Decimal(n)) by {
      assert rot[0] == 'R' && rot[..1] == "R" && rot[1..] == Decimal(n);
    }
    ParseDecimal(n);
    if WithinDigitLimit(n) {
      TurnedTransform(x, y, rot, n);
    }
  }

  /** "MR" followed by str(n) mirrors, then rotates by n; past int()'s digit limit it raises. */
  lemma MirrorRotateCode(x: real, y: real, n: int)
    ensures BuildTransform(x, y, "MR" + Decimal(n)) ==
      if WithinDigitLimit(n) then Ok([Translate(x, y), Scale(-1, 1), Rotate(n)]) else Err(ValueError)
  {
    var rot := "MR" + Decimal(n);
    assert ReadOrientation(rot) == Mirrored(Decimal(n)) by {
      assert rot[..1] == "M" && rot[..2] == "MR" && rot[2..] == Decimal(n);
    }
    ParseDecimal(n);
    if WithinDigitLimit(n) {
      MirroredTransform(x, y, rot, n);
    }
  }

  /** "M" followed by str(n) mirrors, then rotates by n, like "MR". */
  lemma MirrorCode(x: real, y: real, n: int)
    ensures BuildTransform(x, y, "M" + Decimal(n)) ==
      if WithinDigitLimit(n) then Ok([Translate(x, y), Scale(-1, 1), Rotate(n)]) else Err(ValueError)
  {
    var rot := "M" + Decimal(n);
    assert ReadOrientation(rot) == Mirrored(Decimal(n)) by {
      DecimalHead(n);
      assert rot[..1] == "M" && rot[1] == Decimal(n)[0] && rot[1..] == Decimal(n);
    }
    ParseDecimal(n);
    if WithinDigitLimit(n) {
      MirroredTransform(x, y, rot, n);
    }
  }

  /** Eagle's spin codes ("SR90", "SMR90") begin with neither "M" nor "R": they place without turning. */
  lemma SpinCodeIgnored(x: real, y: real, rest: string)
    ensures BuildTransform(x, y, "S" + rest) == Ok([Translate(x, y)])
  {
    var rot := "S" + rest;
    assert rot[..1] == "S";
  }

  /** An angle of more than MaxStrDigits digits ("R" followed by 4301 ones, say) makes int() raise. */
  lemma LongAngleFails(x: real, y: real, digits: string)
    requires |digits| > MaxStrDigits && forall i :: 0 <= i < |digits| ==> IsDigit(digits[i])
    ensures BuildTransform(x, y, "R" + digits) == Err(ValueError)
  {
    var rot := "R" + digits;
    assert ReadOrientation(rot) == Turned(digits) by {
      assert rot[0] == 'R' && rot[..1] == "R" && rot[1..] == digits;
    }
    assert IsDigit(digits[0]) && IsDigit(digits[|digits| - 1]);
    StripUnpadded(digits);
    assert DigitCount(digits) == |digits|;
  }

  /** Eagle writes fractional angles such as "R22.5"; int() rejects them, so the run stops. */
  lemma FractionalAngleFails(x: real, y: real)
    ensures BuildTransform(x, y, "R22.5") == Err(ValueError)
  {
    var rot := "R22.5";
    assert ReadOrientation(rot) == Turned("22.5") by {
      assert rot[..1] == "R" && rot[1..] == "22.5";
    }
    DecimalPointRejected(rot[1..]);
  }

  lemma DecimalPointRejected(text: string)
    requires text == "22.5"
    ensures ParseInt(text) == None
  {
    assert text[0] == '2' && text[3] == '5' && text[2] == '.';
    StripUnpadded(text);
    assert Unsigned(text) == text;
    StrayCharRejected(text, 2);
  }

  /** A code whose angle part is missing ("R", "M", "MR") raises ValueError. */
  lemma EmptyAngleFails(x: real, y: real)
    ensures BuildTransform(x, y, "R").Err?
    ensures BuildTransform(x, y, "M").Err?
    ensures BuildTransform(x, y, "MR").Err?
  {
    assert ReadOrientation("MR") == Mirrored([]) by { assert "MR"[..2] == "MR"; }
    assert ReadOrientation("M") == Mirrored([]) by { assert "M"[..1] == "M"; }
    assert ReadOrientation("R") == Turned([]) by { assert "R"[..1] == "R"; }
    assert ParseInt([]) == None;
  }

  // What a transform list does to a point, for angles that are whole quarter turns.

  /** rotate(90 * q) for q in 0..3: x' = x cos a - y sin a, y' = x sin a + y cos a. */
  function QuarterTurn(q: int, p: Point): Point
    requires 0 <= q < 4
  {
    if q == 0 then p
    else if q == 1 then Point(-p.y, p.x)
    else if q == 2 then Point(-p.x, -p.y)
    else Point(p.y, -p.x)
  }

  function ApplyOp(op: TransformOp, p: Point): Option<Point> {
    match op
    case Translate(tx, ty) => Some(Point(p.x + tx, p.y + ty))
    case Scale(sx, sy) => Some(Point(sx as real * p.x, sy as real * p.y))
    case Rotate(a) => if a % 90 == 0 then Some(QuarterTurn((a / 90) % 4, p)) else None
  }

  /**
   * The point a transform list maps p to: the rightmost entry acts first, as in
   * SVG. None when some rotation is not a whole quarter turn.
   */
  function Apply(ops: seq<TransformOp>, p: Point): Option<Point> {
    if |ops| == 0 then Some(p)
    else
      match ApplyOp(ops[|ops| - 1], p)
      case None => None
      case Some(q) => Apply(ops[..|ops| - 1], q)
  }

  /** The last entry of a list acts first. */
  lemma ApplyThree(a: TransformOp, b: TransformOp, c: TransformOp, p: Point)
    ensures Apply([a, b, c], p) ==
      match ApplyOp(c, p)
      case None => None
      case Some(p1) =>
        match ApplyOp(b, p1)
        case None => None
        case Some(p2) => ApplyOp(a, p2)
  {
    var ops := [a, b, c];
    assert ops[..2] == [a, b] && [a, b][..1] == [a] && [a][..0] == [];
    assert Apply([a, b, c], p) == match ApplyOp(c, p) case None => None case Some(p1) => Apply([a, b], p1);
    forall p1 ensures Apply([a, b], p1) == match ApplyOp(b, p1) case None => None case Some(p2) => Apply([a], p2) {
    }
    forall p2 ensures Apply([a], p2) == ApplyOp(a, p2) {
      assert Apply([a], p2) == match ApplyOp(a, p2) case None => None case Some(p3) => Apply([], p3);
    }
  }

  lemma NinetyParses()
    ensures ParseInt("90") == Some(90)
  {
    assert NatDigits(9) == "9";
    assert NatDigits(90) == "90";
    assert WithinDigitLimit(90);
    ParseDecimal(90);
  }

  /** build_transform(100, 200, "MR90") is translate(100,200) scale(-1,1) rotate(90). */
  lemma MirrorRotate90()
    ensures BuildTransform(100.0, 200.0, "MR90") == Ok([Translate(100.0, 200.0), Scale(-1, 1), Rotate(90)])
  {
    assert ReadOrientation("MR90") == Mirrored("90") by {
      assert "MR90"[..1] == "M" && "MR90"[..2] == "MR" && "MR90"[2..] == "90";
    }
    NinetyParses();
    MirroredTransform(100.0, 200.0, "MR90", 90);
  }

  /** That list sends (1, 0) to (100, 201); rotating before mirroring would give (100, 199). */
  lemma MirrorRotate90Point()
    ensures Apply([Translate(100.0, 200.0), Scale(-1, 1), Rotate(90)], Point(1.0, 0.0)) == Some(Point(100.0, 201.0))
    ensures Apply([Translate(100.0, 200.0), Rotate(90), Scale(-1, 1)], Point(1.0, 0.0)) == Some(Point(100.0, 199.0))
  {
    ApplyThree(Translate(100.0, 200.0), Scale(-1, 1), Rotate(90), Point(1.0, 0.0));
    assert ApplyOp(Rotate(90), Point(1.0, 0.0)) == Some(Point(0.0, 1.0));
    ApplyThree(Translate(100.0, 200.0), Rotate(90), Scale(-1, 1), Point(1.0, 0.0));
    assert ApplyOp(Rotate(90), Point(-1.0, 0.0)) == Some(Point(0.0, -1.0));
  }

  /**
   * For every odd number of quarter turns, the fixed order (translate, mirror,
   * rotate) places some point elsewhere than the order with mirror and rotate
   * swapped: the order is part of the meaning.
   */
  lemma MirrorOrderMatters(x: real, y: real, n: int)
    requires n % 90 == 0 && (n / 90) % 2 == 1
    ensures Apply([Translate(x, y), Scale(-1, 1), Rotate(n)], Point(1.0, 0.0)) !=
            Apply([Translate(x, y), Rotate(n), Scale(-1, 1)], Point(1.0, 0.0))
  {
    var q := (n / 90) % 4;
    assert q == 1 || q == 3;
    ApplyThree(Translate(x, y), Scale(-1, 1), Rotate(n), Point(1.0, 0.0));
    ApplyThree(Translate(x, y), Rotate(n), Scale(-1, 1), Point(1.0, 0.0));
    var turned := QuarterTurn(q, Point(1.0, 0.0));
    var mirrored := QuarterTurn(q, Point(-1.0, 0.0));
    assert turned.y != mirrored.y;
  }
}
