/** The few Python objects a field's `choices` can hold, and what `str()` makes of them. */
module PyObjects {

  datatype PyObj =
    | StrObj(s: string)
    | IntObj(i: int)
    | BoolObj(b: bool)
      /** A `list` or a `tuple`; `text` is what `str()` gives for it. */
    | ListOrTuple(items: seq<PyObj>, text: string)
      /** Any other object (`None`, a lazy translation string, ...); `text` is what `str()` gives for it. */
    | OtherObj(text: string)

  /** The decimal digit character of `d`. */
  function DigitChar(d: nat): (c: char)
    requires d < 10
    ensures '0' <= c <= '9' && c as int - '0' as int == d
  {
    ('0' as int + d) as char
  }

  /** The decimal digits of `n`, most significant first. */
  function Digits(n: nat): (ds: string)
    ensures |ds| >= 1
    ensures forall i :: 0 <= i < |ds| ==> '0' <= ds[i] <= '9'
    decreases n
  {
    if n < 10 then [DigitChar(n)] else Digits(n / 10) + [DigitChar(n % 10)]
  }

  /** The number a string of decimal digits denotes, read most significant first. */
  function NumVal(ds: string): nat
    requires forall i :: 0 <= i < |ds| ==> '0' <= ds[i] <= '9'
    decreases |ds|
  {
    if ds == [] then 0 else 10 * NumVal(ds[..|ds| - 1]) + (ds[|ds| - 1] as int - '0' as int)
  }

  /** A decimal numeral as `str()` writes one: at least one digit, and no leading
      zero unless the numeral is `0` itself. */
  predicate IsNumeral(ds: string)
  {
    && |ds| >= 1
    && (forall i :: 0 <= i < |ds| ==> '0' <= ds[i] <= '9')
    && (|ds| > 1 ==> ds[0] != '0')
  }

  /** `str()` of a non-negative integer is its decimal numeral: the digits read back
      give the number, and only `0` itself starts with the digit `0`. */
  lemma {:induction false} DigitsValue(n: nat)
    ensures NumVal(Digits(n)) == n
    ensures Digits(n)[0] == '0' ==> n == 0
    decreases n
  {
    if n >= 10 {
      DigitsValue(n / 10);
      assert Digits(n)[..|Digits(n)| - 1] == Digits(n / 10);
      assert Digits(n)[0] == Digits(n / 10)[0];
    }
  }

  /** Python's `str(o)`. */
  function StrOf(o: PyObj): (r: string)
    ensures o.StrObj? ==> r == o.s
    ensures o.IntObj? && o.i >= 0 ==> IsNumeral(r) && NumVal(r) == o.i
    ensures o.IntObj? && o.i < 0 ==> |r| >= 2 && r[0] == '-' && IsNumeral(r[1..]) && NumVal(r[1..]) == -o.i
  {
    match o
    case StrObj(s) => s
    case IntObj(i) =>
      DigitsValue(if i < 0 then -i else i);
      if i < 0 then "-" + Digits(-i) else Digits(i)
    case BoolObj(b) => if b then "True" else "False"
    case ListOrTuple(_, text) => text
    case OtherObj(text) => text
  }
}
