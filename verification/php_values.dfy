/**
  PHP values as the resolver sees them, and the explicit scalar casts
  `(int)`, `(bool)`, `(float)` and `(string)` the builtin type candidates apply.
 */
module PhpValues {
  import opened Wrappers

  /** An array key: PHP arrays are keyed by strings or by integers. */
  datatype Key = KStr(s: string) | KInt(i: int)

  /**
    A PHP value. Floats are opaque tokens whose conversions come from a
    FloatOps record; an object carries its class name and an identity.
   */
  datatype Value =
    | Null
    | Bool(b: bool)
    | Int(i: int)
    | Float(token: nat)
    | Str(s: string)
    | Arr(entries: seq<(Key, Value)>)
    | Obj(cls: string, id: nat)

  /** The failures the resolver raises or lets escape. */
  datatype Error =
    | NoInputException
    | NullValueException
    | FactoryException
    | DiException
      // a PHP engine Error: a method called on null, an object cast to string
    | EngineError
      // reflection of a class, function or method that does not exist
    | ReflectionException

  /** The float semantics the model does not interpret. */
  datatype FloatOps = FloatOps(
    fromValue: Value -> nat,  // the float `(float) v` yields for a non-float v
    toInt: nat -> int,        // `(int) f`
    isZero: nat -> bool,      // `f == 0.0`
    text: nat -> string       // `(string) f`
  )

  /** The bounds of a 64-bit PHP integer. */
  const MinInt: int := -0x8000_0000_0000_0000
  const MaxInt: int := 0x7FFF_FFFF_FFFF_FFFF

  predicate IsDigit(c: char) {
    '0' <= c <= '9'
  }

  /** The whitespace PHP skips in front of a numeric string. */
  predicate IsSpace(c: char) {
    c == ' ' || c == '\t' || c == '\n' || c == '\r' || c as int == 11 || c as int == 12
  }

  function DigitValue(c: char): (d: nat)
    ensures d < 10
  {
    if IsDigit(c) then c as int - '0' as int else 0
  }

  function DigitChar(d: nat): (c: char)
    requires d < 10
    ensures IsDigit(c) && DigitValue(c) == d
  {
    (d + '0' as int) as char
  }

  /** The decimal numeral of n, most significant digit first. */
  function NatToString(n: nat): (s: string)
    ensures |s| > 0
    ensures forall i :: 0 <= i < |s| ==> IsDigit(s[i])
    ensures IsDigit(s[0])
  {
    if n < 10 then [DigitChar(n)] else NatToString(n / 10) + [DigitChar(n % 10)]
  }

  /** `(string) $n` for an integer. */
  function IntToString(n: int): string {
    if n < 0 then "-" + NatToString(-n) else NatToString(n)
  }

  /** The value of a numeral, read from its last digit backwards. */
  function DigitsValue(ds: string): nat {
    if |ds| == 0 then 0 else 10 * DigitsValue(ds[..|ds| - 1]) + DigitValue(ds[|ds| - 1])
  }

  /** The length of the run of digits that s starts with. */
  function DigitCount(s: string): (n: nat)
    ensures n <= |s|
    ensures forall i :: 0 <= i < n ==> IsDigit(s[i])
    ensures n == |s| || !IsDigit(s[n])
  {
    if |s| > 0 && IsDigit(s[0]) then 1 + DigitCount(s[1..]) else 0
  }

  function TrimLeadingSpace(s: string): (t: string)
    ensures |t| <= |s|
    ensures |t| == 0 || !IsSpace(t[0])
  {
    if |s| > 0 && IsSpace(s[0]) then TrimLeadingSpace(s[1..]) else s
  }

  /** Saturation into the 64-bit range. */
  function Clamp(n: int): (r: int)
    ensures MinInt <= r <= MaxInt
    ensures MinInt <= n <= MaxInt ==> r == n
  {
    if n < MinInt then MinInt else if n > MaxInt then MaxInt else n
  }

  /**
    `(int) $s` for a string: the leading numeric prefix after optional
    whitespace and sign, or 0 when there is none; out-of-range prefixes
    saturate.
   */
  function LeadingInt(s: string): (n: int)
    ensures MinInt <= n <= MaxInt
  {
    var t := TrimLeadingSpace(s);
    if |t| > 0 && t[0] == '-' then Clamp(-(Magnitude(t[1..]) as int))
    else if |t| > 0 && t[0] == '+' then Clamp(Magnitude(t[1..]))
    else Clamp(Magnitude(t))
  }

  /** The value of the digit run that s starts with. */
  function Magnitude(s: string): nat {
    DigitsValue(s[..DigitCount(s)])
  }

  /** `(int) $v`. */
  function ToInt(v: Value, floats: FloatOps): (r: int)
    ensures v.Int? ==> r == v.i
    ensures v.Str? ==> r == LeadingInt(v.s) && MinInt <= r <= MaxInt
    ensures v.Null? ==> r == 0
    ensures v.Bool? ==> (r == 1 <==> v.b) && (r == 0 <==> !v.b)
    ensures v.Arr? ==> (r == 1 <==> |v.entries| > 0) && (r == 0 <==> |v.entries| == 0)
    ensures v.Obj? ==> r == 1
  {
    match v
    case Null => 0
    case Bool(b) => if b then 1 else 0
    case Int(i) => i
    case Float(t) => floats.toInt(t)
    case Str(s) => LeadingInt(s)
    case Arr(es) => if |es| == 0 then 0 else 1
    case Obj(_, _) => 1
  }

  /** `(bool) $v`: PHP truthiness. */
  function ToBool(v: Value, floats: FloatOps): (b: bool)
    ensures v.Str? ==> (b <==> v.s != "" && v.s != "0")
    ensures v.Int? ==> (b <==> v.i != 0)
    ensures v.Bool? ==> b == v.b
    ensures v.Arr? ==> (b <==> |v.entries| > 0)
    ensures v.Null? ==> !b
    ensures v.Obj? ==> b
  {
    match v
    case Null => false
    case Bool(b) => b
    case Int(i) => i != 0
    case Float(t) => !floats.isZero(t)
    case Str(s) => s != "" && s != "0"
    case Arr(es) => |es| > 0
    case Obj(_, _) => true
  }

  /** `(float) $v`. */
  function ToFloat(v: Value, floats: FloatOps): (r: Value)
    ensures r.Float?
    ensures v.Float? ==> r == v
  {
    if v.Float? then v else Float(floats.fromValue(v))
  }

  /** `(string) $v`; an object without `__toString` raises an Error. */
  function ToString(v: Value, floats: FloatOps): (r: Result<string, Error>)
    ensures r.Err? <==> v.Obj?
    ensures v.Str? ==> r == Ok(v.s)
    ensures v.Null? ==> r == Ok("")
    ensures v.Int? ==> r == Ok(IntToString(v.i))
    ensures v.Bool? ==> r == Ok(if v.b then "1" else "")
    ensures v.Arr? ==> r == Ok("Array")
  {
    match v
    case Null => Ok("")
    case Bool(b) => Ok(if b then "1" else "")
    case Int(i) => Ok(IntToString(i))
    case Float(t) => Ok(floats.text(t))
    case Str(s) => Ok(s)
    case Arr(_) => Ok("Array")
    case Obj(_, _) => Err(EngineError)
  }

  /** A numeral reads back as the number it was written from. */
  lemma {:induction false} DigitsValueOfNatToString(n: nat)
    ensures DigitsValue(NatToString(n)) == n
  {
    if n >= 10 {
      var s := NatToString(n / 10);
      var t := NatToString(n);
      assert t == s + [DigitChar(n % 10)];
      assert t[..|t| - 1] == s;
      DigitsValueOfNatToString(n / 10);
    }
  }

  /** A digit run followed by a non-digit is counted exactly. */
  lemma {:induction false} DigitCountOfDigits(ds: string, rest: string)
    requires forall i :: 0 <= i < |ds| ==> IsDigit(ds[i])
    requires |rest| == 0 || !IsDigit(rest[0])
    ensures DigitCount(ds + rest) == |ds|
  {
    if |ds| > 0 {
      assert (ds + rest)[1..] == ds[1..] + rest;
      DigitCountOfDigits(ds[1..], rest);
    } else {
      assert ds + rest == rest;
    }
  }

  /** The digit run of a numeral followed by a non-digit is that numeral. */
  lemma MagnitudeOfDigits(ds: string, rest: string)
    requires forall i :: 0 <= i < |ds| ==> IsDigit(ds[i])
    requires |rest| == 0 || !IsDigit(rest[0])
    ensures Magnitude(ds + rest) == DigitsValue(ds)
  {
    DigitCountOfDigits(ds, rest);
    assert (ds + rest)[..|ds|] == ds;
  }

  /**
    `(int)` reads back any 64-bit integer from its decimal numeral, whatever
    non-numeric text follows it ("23 times bla bla" gives 23).
   */
  lemma LeadingIntOfNumeral(n: int, rest: string)
    requires MinInt <= n <= MaxInt
    requires |rest| == 0 || !IsDigit(rest[0])
    ensures LeadingInt(IntToString(n) + rest) == n
  {
    if n < 0 {
      assert IntToString(n) + rest == "-" + NatToString(-n) + rest;
      NegativeNumeral(-n, rest);
    } else {
      UnsignedNumeral(n, rest);
    }
  }

  lemma UnsignedNumeral(n: nat, rest: string)
    requires n <= MaxInt
    requires |rest| == 0 || !IsDigit(rest[0])
    ensures LeadingInt(NatToString(n) + rest) == n
  {
    var ds := NatToString(n);
    var s := ds + rest;
    assert s[0] == ds[0];
    NoSpaceNoTrim(s);
    DigitsValueOfNatToString(n);
    MagnitudeOfDigits(ds, rest);
    assert Magnitude(s) == n;
  }

  lemma NegativeNumeral(n: nat, rest: string)
    requires 0 < n <= -MinInt
    requires |rest| == 0 || !IsDigit(rest[0])
    ensures LeadingInt("-" + NatToString(n) + rest) == -(n as int)
  {
    var ds := NatToString(n);
    var s := "-" + ds + rest;
    assert s[0] == '-';
    assert s[1..] == ds + rest;
    NoSpaceNoTrim(s);
    DigitsValueOfNatToString(n);
    MagnitudeOfDigits(ds, rest);
    assert Magnitude(s[1..]) == n;
  }

  lemma NoSpaceNoTrim(s: string)
    requires |s| > 0 && (s[0] == '-' || IsDigit(s[0]))
    ensures TrimLeadingSpace(s) == s
  {
    assert !IsSpace(s[0]);
  }

  /** `(int)` undoes `(string)` on every 64-bit integer. */
  lemma IntCastOfStringCast(n: int, floats: FloatOps)
    requires MinInt <= n <= MaxInt
    ensures ToString(Int(n), floats).Ok?
    ensures ToInt(Str(ToString(Int(n), floats).value), floats) == n
  {
    assert IntToString(n) + "" == IntToString(n);
    LeadingIntOfNumeral(n, "");
  }

  /** The integer cast of a numeral-first string (the test with "23 times bla bla"). */
  lemma IntCastOfLeadingNumber()
    ensures ToInt(Str("23 times bla bla"), FloatOps(_ => 0, _ => 0, _ => true, _ => "")) == 23
  {
    assert IntToString(23) == "23";
    assert "23 times bla bla" == IntToString(23) + " times bla bla";
    LeadingIntOfNumeral(23, " times bla bla");
  }
}
