/** The JavaScript values the parser handles, with the conversions the source relies on:
    truthiness (`||`, `if (x)`), `String(x)` / `x.toString()` and `Number(x)`. */
module JsValues {
  import opened Text

  datatype Option<+T> = None | Some(value: T) {
    function GetOr(default: T): T {
      match this
      case Some(v) => v
      case None => default
    }
  }

  /** A value read from a field bag. Numbers are the integral ones; an object or an array
      (`Composite`) carries the text `String()` makes of it, which is what `Number()`,
      `new Date()` and `toString()` work from for plain JSON objects and arrays. */
  datatype Value =
    | Undefined
    | Null
    | Bool(b: bool)
    | Num(n: int)
    | NaN
    | Str(s: string)
    | Composite(text: string)

  /** JavaScript truthiness. */
  predicate Truthy(v: Value) {
    match v
    case Undefined => false
    case Null => false
    case Bool(b) => b
    case Num(n) => n != 0
    case NaN => false
    case Str(s) => s != []
    case Composite(_) => true
  }

  /** The falsy values of JavaScript are exactly `undefined`, `null`, `false`, `0`, `NaN`
      and the empty string; every object is truthy. */
  lemma FalsyValues(v: Value)
    ensures !Truthy(v) <==> v in [Undefined, Null, Bool(false), Num(0), NaN, Str([])]
    ensures v.Composite? ==> Truthy(v)
  {
  }

  /** Decimal digits of a natural number, without leading zeros. */
  function NatToDecimal(n: nat): (r: string)
    ensures r != []
  {
    if n < 10 then [('0' as int + n) as char]
    else NatToDecimal(n / 10) + [('0' as int + n % 10) as char]
  }

  /** The text is all digits and has no leading zero. */
  lemma {:induction false} NatToDecimalDigits(n: nat)
    ensures AllDigits(NatToDecimal(n))
    ensures |NatToDecimal(n)| > 1 ==> NatToDecimal(n)[0] != '0'
  {
    if n >= 10 {
      NatToDecimalDigits(n / 10);
    }
  }

  /** The number a string of decimal digits denotes. */
  function DecimalValue(s: string): nat
    requires AllDigits(s)
  {
    if s == [] then 0 else 10 * DecimalValue(s[..|s| - 1]) + (s[|s| - 1] as int - '0' as int)
  }

  /** Reading back the digits gives the number. */
  lemma {:induction false} DecimalRoundTrip(n: nat)
    ensures AllDigits(NatToDecimal(n)) && DecimalValue(NatToDecimal(n)) == n
  {
    NatToDecimalDigits(n);
    if n >= 10 {
      DecimalRoundTrip(n / 10);
      var d := NatToDecimal(n / 10) + [('0' as int + n % 10) as char];
      assert d[..|d| - 1] == NatToDecimal(n / 10);
    }
  }

  /** `String(n)` for an integer. */
  function IntToDecimal(n: int): (r: string)
    ensures r != []
  {
    if n < 0 then "-" + NatToDecimal(-n) else NatToDecimal(n)
  }

  /** `String(v)`, which is also `v.toString()` for every value but `undefined` and `null`. */
  function ToJsString(v: Value): string {
    match v
    case Undefined => "undefined"
    case Null => "null"
    case Bool(b) => if b then "true" else "false"
    case Num(n) => IntToDecimal(n)
    case NaN => "NaN"
    case Str(s) => s
    case Composite(t) => t
  }

  /** `Number(s)` for a string, on decimal integer syntax: blank text is 0, an optionally
      signed run of digits is its value, everything else is NaN. */
  function StringToNumber(s: string): (r: Value)
    ensures r.Num? || r.NaN?
    ensures AllDigits(s) && s != [] ==> r == Num(DecimalValue(s))
  {
    DigitsUntrimmed(s);
    var t := Trim(s);
    if t == [] then Num(0)
    else if AllDigits(t) then Num(DecimalValue(t))
    else if |t| > 1 && t[0] == '-' && AllDigits(t[1..]) then Num(-(DecimalValue(t[1..]) as int))
    else if |t| > 1 && t[0] == '+' && AllDigits(t[1..]) then Num(DecimalValue(t[1..]))
    else NaN
  }

  /** Digits are not white space, so trimming leaves a run of them alone. */
  lemma DigitsUntrimmed(s: string)
    ensures AllDigits(s) ==> Trim(s) == s
  {
    if AllDigits(s) && s != [] {
      assert IsDigit(s[0]) && IsDigit(s[|s| - 1]);
      TrimUnchanged(s);
    }
  }

  /** `Number(v)`. */
  function ToNumber(v: Value): (r: Value)
    ensures r.Num? || r.NaN?
  {
    match v
    case Undefined => NaN
    case Null => Num(0)
    case Bool(b) => Num(if b then 1 else 0)
    case Num(n) => Num(n)
    case NaN => NaN
    case Str(s) => StringToNumber(s)
    case Composite(t) => StringToNumber(t)
  }

  /** `String` keeps a string as it is, writes a number that `Number` reads back, and gives
      the empty text only for the empty string or an object whose text is empty. */
  lemma ToJsStringFacts(v: Value)
    ensures v.Str? ==> ToJsString(v) == v.s
    ensures v.Num? ==> ToNumber(Str(ToJsString(v))) == v
    ensures ToJsString(v) == [] ==> v == Str([]) || v == Composite([])
  {
    if v.Num? {
      NumberOfStringRoundTrip(v.n);
    }
  }

  /** `Number` gives back the integer that `String` wrote. */
  lemma NumberOfStringRoundTrip(n: int)
    ensures ToNumber(Str(ToJsString(Num(n)))) == Num(n)
  {
    if n >= 0 {
      DecimalRoundTrip(n);
    } else {
      NegativeRoundTrip(n);
    }
  }

  lemma NegativeRoundTrip(n: int)
    requires n < 0
    ensures StringToNumber("-" + NatToDecimal(-n)) == Num(n)
  {
    var d := NatToDecimal(-n);
    DecimalRoundTrip(-n);
    var s := "-" + d;
    assert s[1..] == d;
    assert IsDigit(d[|d| - 1]);
    TrimUnchanged(s);
    assert !IsDigit(s[0]);
  }
}
