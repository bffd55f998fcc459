/** Text that crosses the console: ASCII bytes and decimal numerals. */
module Text {
  import opened Bytes

  /** The line feed character, as a byte. */
  const NEWLINE: byte := 10

  datatype Option<T> = None | Some(value: T)

  predicate IsAscii(s: string)
  {
    forall i :: 0 <= i < |s| ==> s[i] as int < 128
  }

  /** The bytes of an ASCII string, one per character. */
  function Ascii(s: string): (r: seq<byte>)
    requires IsAscii(s)
    ensures |r| == |s| && forall i :: 0 <= i < |s| ==> r[i] as int == s[i] as int
  {
    seq(|s|, i requires 0 <= i < |s| && IsAscii(s) => s[i] as int as byte)
  }

  /** The characters of a byte string read as Latin-1; the inverse of Ascii. */
  function Chars(bs: seq<byte>): (s: string)
    ensures |s| == |bs| && forall i :: 0 <= i < |bs| ==> s[i] as int == bs[i] as int
  {
    seq(|bs|, i requires 0 <= i < |bs| => bs[i] as int as char)
  }

  lemma CharsOfAscii(s: string)
    requires IsAscii(s)
    ensures Chars(Ascii(s)) == s
  {
    var t := Chars(Ascii(s));
    assert |t| == |s|;
    assert forall i :: 0 <= i < |s| ==> t[i] == s[i];
  }

  predicate IsDigit(c: char)
  {
    '0' <= c <= '9'
  }

  predicate AllDigits(s: string)
  {
    forall i :: 0 <= i < |s| ==> IsDigit(s[i])
  }

  function DigitChar(d: nat): (c: char)
    requires d < 10
    ensures IsDigit(c) && c as int - '0' as int == d
  {
    ('0' as int + d) as char
  }

  /** The decimal digits of n, most significant first, without leading zeros. */
  function Digits(n: nat): (s: string)
    ensures |s| > 0 && AllDigits(s)
    ensures |s| > 1 ==> s[0] != '0'
  {
    if n < 10 then [DigitChar(n)] else Digits(n / 10) + [DigitChar(n % 10)]
  }

  /** The decimal numeral of an integer: what JavaScript's Number and BigInt
      toString and C++'s `ostream << int` print ("-" before a negative value). */
  function Decimal(v: int): (s: string)
    ensures |s| > 0 && IsAscii(s) && ',' !in s
    ensures s[0] == '-' <==> v < 0
  {
    if v < 0 then "-" + Digits(-v) else Digits(v)
  }

  /** The value of a non-empty string of decimal digits. */
  function DigitsValue(s: string): nat
    requires |s| > 0 && AllDigits(s)
  {
    var last := s[|s| - 1] as int - '0' as int;
    if |s| == 1 then last else 10 * DigitsValue(s[..|s| - 1]) + last
  }

  /** Reads a decimal numeral back; None for anything that is not one. */
  function ParseDecimal(s: string): Option<int>
  {
    if |s| > 1 && s[0] == '-' && AllDigits(s[1..]) then Some(-(DigitsValue(s[1..]) as int))
    else if |s| > 0 && AllDigits(s) then Some(DigitsValue(s))
    else None
  }

  lemma {:induction false} DigitsValueOfDigits(n: nat)
    ensures DigitsValue(Digits(n)) == n
  {
    if n >= 10 {
      var s := Digits(n);
      assert s[..|s| - 1] == Digits(n / 10);
      DigitsValueOfDigits(n / 10);
    }
  }

  /** Every printed integer reads back as itself. */
  lemma DecimalRoundTrip(v: int)
    ensures ParseDecimal(Decimal(v)) == Some(v)
  {
    if v < 0 {
      assert Decimal(v)[1..] == Digits(-v);
      DigitsValueOfDigits(-v);
    } else {
      DigitsValueOfDigits(v);
    }
  }

  /** Distinct integers print differently. */
  lemma DecimalInjective(a: int, b: int)
    requires Decimal(a) == Decimal(b)
    ensures a == b
  {
    DecimalRoundTrip(a);
    DecimalRoundTrip(b);
  }

  /** The elements of a list printed in decimal and joined by commas, as
      JavaScript's Array toString prints a list of numbers. */
  function DecimalList(vs: seq<int>): (s: string)
    ensures IsAscii(s)
    ensures s == [] <==> vs == []
  {
    if vs == [] then ""
    else if |vs| == 1 then Decimal(vs[0])
    else DecimalList(vs[..|vs| - 1]) + "," + Decimal(vs[|vs| - 1])
  }

  /** The position of the last comma among the first n characters of s. */
  function LastCommaBefore(s: string, n: nat): (r: Option<nat>)
    requires n <= |s|
    ensures r.Some? ==> r.value < n && s[r.value] == ',' && forall j :: r.value < j < n ==> s[j] != ','
    ensures r.None? <==> forall j :: 0 <= j < n ==> s[j] != ','
  {
    if n == 0 then None
    else if s[n - 1] == ',' then Some(n - 1)
    else LastCommaBefore(s, n - 1)
  }

  /** The position of the last comma in s, if there is one. */
  function LastComma(s: string): (r: Option<nat>)
    ensures r.Some? ==> r.value < |s| && s[r.value] == ',' && ',' !in s[r.value + 1..]
    ensures r.None? <==> ',' !in s
  {
    LastCommaBefore(s, |s|)
  }

  /** Reads a comma-joined list of numerals back, split at its commas; the
      empty text is the empty list. */
  function ParseDecimalList(s: string): Option<seq<int>>
    decreases |s|
  {
    if s == [] then Some([])
    else
      match LastComma(s)
      case None =>
        (match ParseDecimal(s)
         case Some(v) => Some([v])
         case None => None)
      case Some(i) =>
        match (ParseDecimalList(s[..i]), ParseDecimal(s[i + 1..]))
        case (Some(front), Some(v)) => if front == [] then None else Some(front + [v])
        case _ => None
  }

  /** A comma with no comma after it is the last comma. */
  lemma LastCommaAt(s: string, i: nat)
    requires i < |s| && s[i] == ','
    requires forall j :: i < j < |s| ==> s[j] != ','
    ensures LastComma(s) == Some(i)
  {
  }

  /** The last comma of a join is the one before a comma-free tail. */
  lemma LastCommaOfJoin(p: string, d: string)
    requires ',' !in d
    ensures LastComma(p + "," + d) == Some(|p|)
  {
    var s := p + "," + d;
    assert s[|p|] == ',';
    assert s[|p| + 1..] == d;
    forall j | |p| < j < |s|
      ensures s[j] != ','
    {
      assert s[j] == d[j - |p| - 1];
    }
    LastCommaAt(s, |p|);
  }

  /** A list parses one element at a time, from the last comma. */
  lemma ParseJoin(p: string, d: string, front: seq<int>, v: int)
    requires ',' !in d && ParseDecimalList(p) == Some(front) && front != []
    requires ParseDecimal(d) == Some(v)
    ensures ParseDecimalList(p + "," + d) == Some(front + [v])
  {
    var s := p + "," + d;
    LastCommaOfJoin(p, d);
    assert s[..|p|] == p && s[|p| + 1..] == d;
  }

  /** A single numeral parses as a one-element list. */
  lemma ParseSingle(v: int)
    ensures ParseDecimalList(Decimal(v)) == Some([v])
  {
    var s := Decimal(v);
    DecimalRoundTrip(v);
  }

  /** Every printed list reads back as itself. */
  lemma {:induction false} DecimalListRoundTrip(vs: seq<int>)
    ensures ParseDecimalList(DecimalList(vs)) == Some(vs)
  {
    if |vs| == 1 {
      assert DecimalList(vs) == Decimal(vs[0]) && [vs[0]] == vs;
      ParseSingle(vs[0]);
    } else if |vs| > 1 {
      var front, last := vs[..|vs| - 1], vs[|vs| - 1];
      assert front + [last] == vs;
      assert DecimalList(vs) == DecimalList(front) + "," + Decimal(last);
      DecimalListRoundTrip(front);
      DecimalRoundTrip(last);
      ParseJoin(DecimalList(front), Decimal(last), front, last);
    }
  }

  /** Distinct lists print differently. */
  lemma DecimalListInjective(a: seq<int>, b: seq<int>)
    requires DecimalList(a) == DecimalList(b)
    ensures a == b
  {
    DecimalListRoundTrip(a);
    DecimalListRoundTrip(b);
  }
}
