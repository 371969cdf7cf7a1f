/**
 * Python's number conversions as brd2svg.py uses them: float() on attribute text,
 * and int() on the angle part of an orientation code.
 */
module PyNum {
  import opened Wrappers

  /** What float() makes of an attribute's text: a number, or text it rejects. */
  datatype FloatText = Float(value: real) | NotFloat

  /** float(elem.get(name)): a missing attribute (None) raises TypeError, bad text ValueError. */
  function ReadFloat(a: Option<FloatText>): (r: Result<real>)
    ensures r.Ok? <==> a.Some? && a.value.Float?
    ensures r.Ok? ==> r.value == a.value.value
    ensures r.Err? ==> (r.error == TypeError <==> a.None?)
  {
    match a
    case None => Err(TypeError)
    case Some(NotFloat) => Err(ValueError)
    case Some(Float(v)) => Ok(v)
  }

  /** float(elem.get(name, default)): a missing attribute reads as the default. */
  function ReadFloatOr(a: Option<FloatText>, default: real): (r: Result<real>)
    ensures r.Ok? <==> a.None? || a.value.Float?
    ensures r.Ok? ==> r.value == if a.None? then default else a.value.value
    ensures r.Err? ==> r.error == ValueError
  {
    if a.None? then Ok(default) else ReadFloat(a)
  }

  /**
   * The characters int() strips from both ends of its text: the ASCII whitespace
   * ' ' and '\t' to '\r', and the non-ASCII characters str.isspace() accepts.
   * U+001C to U+001F are not stripped: int() leaves ASCII characters as they are.
   */
  predicate IsSpace(c: char) {
    c == ' ' || ('\t' <= c <= '\r') || c == '\U{85}' || c == '\U{A0}'
    || c == '\U{1680}' || ('\U{2000}' <= c <= '\U{200A}') || c == '\U{2028}' || c == '\U{2029}'
    || c == '\U{202F}' || c == '\U{205F}' || c == '\U{3000}'
  }

  predicate IsDigit(c: char) { '0' <= c <= '9' }

  function DigitValue(c: char): (d: nat)
    requires IsDigit(c)
    ensures d < 10
  {
    (c as int) - ('0' as int)
  }

  function DigitChar(d: nat): (c: char)
    requires d < 10
    ensures IsDigit(c) && DigitValue(c) == d
  {
    ('0' as int + d) as char
  }

  /** s without its leading whitespace. */
  function TrimStart(s: string): (r: string)
    ensures |r| <= |s| && r == s[|s| - |r|..]
    ensures r == [] || !IsSpace(r[0])
    ensures forall i :: 0 <= i < |s| - |r| ==> IsSpace(s[i])
  {
    if |s| > 0 && IsSpace(s[0]) then TrimStart(s[1..]) else s
  }

  /** s without its trailing whitespace. */
  function TrimEnd(s: string): (r: string)
    ensures |r| <= |s| && r == s[..|r|]
    ensures r == [] || !IsSpace(r[|r| - 1])
    ensures forall i :: |r| <= i < |s| ==> IsSpace(s[i])
  {
    if |s| > 0 && IsSpace(s[|s| - 1]) then TrimEnd(s[..|s| - 1]) else s
  }

  function Strip(s: string): string {
    TrimEnd(TrimStart(s))
  }

  /**
   * A run of decimal digits as int() accepts it: digits, where a single
   * underscore may separate two of them.
   */
  predicate IsDigitRun(s: string) {
    && |s| > 0
    && IsDigit(s[|s| - 1])
    && (|s| == 1 ||
        if s[|s| - 2] == '_' then |s| > 2 && IsDigitRun(s[..|s| - 2])
        else IsDigitRun(s[..|s| - 1]))
  }

  /** The number the digits of a run spell, underscores ignored. */
  function RunValue(s: string): nat
    requires IsDigitRun(s)
  {
    var d := DigitValue(s[|s| - 1]);
    if |s| == 1 then d
    else if s[|s| - 2] == '_' then 10 * RunValue(s[..|s| - 2]) + d
    else 10 * RunValue(s[..|s| - 1]) + d
  }

  /**
   * The default of sys.get_int_max_str_digits() (Python 3.11 on, and the 3.7-3.10
   * security releases): int() rejects a decimal text with more digits than this.
   */
  const MaxStrDigits: nat := 4300

  /** The number of decimal digits in s; signs and underscores do not count. */
  function DigitCount(s: string): (k: nat)
    ensures k <= |s|
    ensures k == |s| <==> forall i :: 0 <= i < |s| ==> IsDigit(s[i])
  {
    if |s| == 0 then 0 else (if IsDigit(s[0]) then 1 else 0) + DigitCount(s[1..])
  }

  /** Every character of a digit run is a digit or an underscore. */
  lemma {:induction false} RunChars(s: string)
    ensures IsDigitRun(s) ==> forall i :: 0 <= i < |s| ==> IsDigit(s[i]) || s[i] == '_'
  {
    if IsDigitRun(s) && |s| > 1 {
      var p := if s[|s| - 2] == '_' then s[..|s| - 2] else s[..|s| - 1];
      RunChars(p);
      assert forall i :: 0 <= i < |p| ==> s[i] == p[i];
    }
  }

  /** t without its leading sign, if it has one. */
  function Unsigned(t: string): string {
    if |t| > 0 && (t[0] == '+' || t[0] == '-') then t[1..] else t
  }

  /**
   * int(s): surrounding whitespace, an optional sign, then a digit run of at most
   * MaxStrDigits digits; None where int() raises ValueError.
   */
  function ParseInt(s: string): (r: Option<int>)
    ensures r.Some? ==> IsDigitRun(Unsigned(Strip(s)))
    ensures r.Some? ==> forall i :: 0 <= i < |Unsigned(Strip(s))| ==>
      IsDigit(Unsigned(Strip(s))[i]) || Unsigned(Strip(s))[i] == '_'
    ensures r.Some? ==> DigitCount(Strip(s)) <= MaxStrDigits
    ensures r.Some? ==> |Strip(s)| > 0 && IsDigit(Strip(s)[|Strip(s)| - 1])
    ensures r.Some? && r.value < 0 ==> Strip(s)[0] == '-'
  {
    var t := Strip(s);
    var u := Unsigned(t);
    RunChars(u);
    if IsDigitRun(u) && DigitCount(u) <= MaxStrDigits then
      Some(if |t| > 0 && t[0] == '-' then -(RunValue(u) as int) else RunValue(u))
    else None
  }

  /** Whether str(n) stays within the digit limit, so that int() reads it back. */
  /** Any character other than a digit or '_' inside the unsigned angle text makes int() raise. */
  lemma StrayCharRejected(s: string, i: nat)
    requires i < |Unsigned(Strip(s))|
    requires !IsDigit(Unsigned(Strip(s))[i]) && Unsigned(Strip(s))[i] != '_'
    ensures ParseInt(s) == None
  {
  }

  predicate WithinDigitLimit(n: int) {
    |NatDigits(if n < 0 then -n else n)| <= MaxStrDigits
  }

  /** The decimal digits of n, most significant first. */
  function NatDigits(n: nat): (s: string)
    ensures |s| > 0 && forall i :: 0 <= i < |s| ==> IsDigit(s[i])
  {
    if n < 10 then [DigitChar(n)] else NatDigits(n / 10) + [DigitChar(n % 10)]
  }

  /** str(n) for a Python int. */
  function Decimal(n: int): string {
    if n < 0 then "-" + NatDigits(-n) else NatDigits(n)
  }

  lemma {:induction false} NatDigitsValue(n: nat)
    ensures IsDigitRun(NatDigits(n)) && RunValue(NatDigits(n)) == n
  {
    var s := NatDigits(n);
    if n >= 10 {
      NatDigitsValue(n / 10);
      assert s[..|s| - 1] == NatDigits(n / 10);
      assert IsDigit(s[|s| - 2]);
    }
  }

  lemma StripUnpadded(s: string)
    requires |s| > 0 && !IsSpace(s[0]) && !IsSpace(s[|s| - 1])
    ensures Strip(s) == s
  {
    assert TrimStart(s) == s;
  }

  lemma DigitsUnpadded(n: nat)
    ensures !IsSpace(NatDigits(n)[0]) && !IsSpace(NatDigits(n)[|NatDigits(n)| - 1])
  {
    var s := NatDigits(n);
    assert IsDigit(s[0]) && IsDigit(s[|s| - 1]);
  }

  /**
   * int() reads back what str() writes, up to the digit limit; past it int()
   * raises: the partner of ParseInt.
   */
  lemma ParseDecimal(n: int)
    ensures ParseInt(Decimal(n)) == if WithinDigitLimit(n) then Some(n) else None
  {
    var s := Decimal(n);
    var m: nat := if n < 0 then -n else n;
    NatDigitsValue(m);
    DigitsUnpadded(m);
    assert DigitCount(NatDigits(m)) == |NatDigits(m)|;
    if n < 0 {
      assert s[1..] == NatDigits(m);
      assert s[|s| - 1] == NatDigits(m)[|NatDigits(m)| - 1];
      StripUnpadded(s);
    } else {
      StripUnpadded(s);
      assert IsDigit(s[0]);
    }
  }
}
