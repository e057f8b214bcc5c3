/** The JavaScript value domain shared by the form codec and the column utilities:
    JSON-like values, JavaScript truthiness, and canonical decimal array indices. */
module JsValues {

  datatype Option<+T> = None | Some(value: T)

  datatype Result<+T, +E> = Ok(value: T) | Err(error: E)

  /** A JavaScript value. `Arr` holds `Option`s so that the holes left by a sparse
      write such as `arr[5] = x` on a shorter array can be represented; `Fun` is a
      function, known only by an opaque handle. Numbers are integers here. */
  datatype JsVal =
    | Str(s: string)
    | Num(n: int)
    | Bool(b: bool)
    | Null
    | Undef
    | Obj(fields: map<string, JsVal>)
    | Arr(elems: seq<Option<JsVal>>)
    | Fun(handle: nat)

  /** JavaScript truthiness: '', 0, false, null and undefined are the falsy values. */
  predicate Truthy(v: JsVal) {
    match v
    case Str(s) => s != ""
    case Num(n) => n != 0
    case Bool(b) => b
    case Null => false
    case Undef => false
    case Obj(_) => true
    case Arr(_) => true
    case Fun(_) => true
  }

  /** `o[k]` on a record: a missing own property reads as undefined. */
  function Get(m: map<string, JsVal>, k: string): JsVal {
    if k in m then m[k] else Undef
  }

  /** `typeof v === 'object'` (null included, arrays included). */
  predicate IsTypeofObject(v: JsVal) {
    v.Obj? || v.Arr? || v.Null?
  }

  predicate IsDigit(c: char) {
    '0' <= c <= '9'
  }

  predicate AllDigits(s: string) {
    forall i :: 0 <= i < |s| ==> IsDigit(s[i])
  }

  /** A path segment that `Number()` turns into an array index: a canonical decimal
      numeral (digits only, no leading zero unless the numeral is "0"). */
  predicate IsNumericSeg(s: string) {
    |s| > 0 && AllDigits(s) && (s[0] == '0' ==> |s| == 1)
  }

  /** The value of a decimal digit (0 for any other character). */
  function DigitValue(c: char): nat {
    if IsDigit(c) then (c as int - '0' as int) as nat else 0
  }

  function DigitChar(d: nat): (c: char)
    requires d < 10
    ensures IsDigit(c) && DigitValue(c) == d
  {
    ('0' as int + d) as char
  }

  /** `Number(s)` for a string of digits; it is only ever applied to numeric segments. */
  function DecimalValue(s: string): nat
    decreases |s|
  {
    if |s| == 0 then 0
    else DecimalValue(s[..|s| - 1]) * 10 + DigitValue(s[|s| - 1])
  }

  /** `String(n)`: the decimal numeral of a natural number. It is a numeric segment
      and `Number` reads it back as `n`. */
  function NatToString(n: nat): (r: string)
    ensures IsNumericSeg(r) && DecimalValue(r) == n
    ensures n > 0 ==> r[0] != '0'
    decreases n
  {
    if n < 10 then [DigitChar(n)]
    else
      var p := NatToString(n / 10);
      var r := p + [DigitChar(n % 10)];
      assert r[..|r| - 1] == p;
      r
  }

  /** The other round trip: a numeric segment is the numeral of its own value. */
  lemma {:induction false} NumericSegRoundTrip(s: string)
    requires IsNumericSeg(s)
    ensures NatToString(DecimalValue(s)) == s
    decreases |s|
  {
    if |s| == 1 {
      assert DecimalValue(s) == DigitValue(s[0]) by {
        assert s[..0] == [];
      }
    } else {
      var p := s[..|s| - 1];
      assert IsNumericSeg(p);
      NumericSegRoundTrip(p);
      var v := DecimalValue(p);
      assert v > 0;
      var d := DigitValue(s[|s| - 1]);
      assert DecimalValue(s) == v * 10 + d;
      assert (v * 10 + d) / 10 == v && (v * 10 + d) % 10 == d;
      assert DigitChar(d) == s[|s| - 1];
      assert s == p + [s[|s| - 1]];
    }
  }

  /** Distinct numeric segments denote distinct indices. */
  lemma NumericSegInjective(a: string, b: string)
    requires IsNumericSeg(a) && IsNumericSeg(b)
    requires DecimalValue(a) == DecimalValue(b)
    ensures a == b
  {
    NumericSegRoundTrip(a);
    NumericSegRoundTrip(b);
  }

  /** The index named by a numeric segment is `i` exactly when the segment is `String(i)`. */
  lemma NumeralOfIndex(k: string, i: nat)
    requires IsNumericSeg(k)
    ensures NatToString(i) == k <==> DecimalValue(k) == i
  {
    NumericSegRoundTrip(k);
  }
}
