/** The period codec: a contiguous range of class periods (start, end) is
    shown on the wire as the list of its periods as decimal strings, and read
    back by parsing only the first and the last element. */
module PeriodCodec {
  import opened Common

  predicate IsDigit(c: char) {
    '0' <= c <= '9'
  }

  function DigitChar(d: nat): char
    requires d < 10
  {
    ('0' as int + d) as char
  }

  function DigitValue(c: char): nat
    requires IsDigit(c)
  {
    c as int - '0' as int
  }

  predicate AllDigits(s: string) {
    forall i :: 0 <= i < |s| ==> IsDigit(s[i])
  }

  /** Decimal rendering of a natural number, without leading zeros. */
  function NatToString(n: nat): (s: string)
    ensures |s| > 0 && AllDigits(s)
    ensures n >= 10 ==> s[0] != '0'
    decreases n
  {
    if n < 10 then [DigitChar(n)] else NatToString(n / 10) + [DigitChar(n % 10)]
  }

  /** `Number.prototype.toString()` on an integer. */
  function IntToString(i: int): string {
    if i < 0 then "-" + NatToString(-i) else NatToString(i)
  }

  /** The value of a string of decimal digits, most significant first. */
  function DigitsValue(s: string): nat
    requires AllDigits(s)
  {
    if s == [] then 0 else DigitsValue(s[..|s| - 1]) * 10 + DigitValue(s[|s| - 1])
  }

  /** Length of the longest run of digits at the start of `s`. */
  function LeadingDigits(s: string): (n: nat)
    ensures n <= |s| && AllDigits(s[..n])
    ensures n < |s| ==> !IsDigit(s[n])
  {
    if s == [] || !IsDigit(s[0]) then 0
    else
      var k := LeadingDigits(s[1..]);
      assert s[..k + 1] == [s[0]] + s[1..][..k];
      k + 1
  }

  /** `parseInt(s)` on a string: an optional sign, then the leading run of
      digits; anything after that run is ignored. `None` is `NaN`: no digit
      follows the sign. */
  function ParseInt(s: string): (r: Option<int>)
    ensures r.Some? <==> LeadingDigits(s[SignLength(s)..]) > 0
  {
    var body := s[SignLength(s)..];
    var n := LeadingDigits(body);
    if n == 0 then None
    else
      var v: int := DigitsValue(body[..n]);
      Some(if |s| > 0 && s[0] == '-' then -v else v)
  }

  function SignLength(s: string): nat {
    if |s| > 0 && (s[0] == '-' || s[0] == '+') then 1 else 0
  }

  /** `parseInt(undefined)` is `NaN`: an absent string parses to `None`. */
  function ParseOptional(s: Option<string>): Option<int> {
    if s.Some? then ParseInt(s.value) else None
  }

  /** The period list for the range [s, e]: one decimal string per period,
      ascending; empty when s > e. */
  function Expand(s: int, e: int): seq<string>
    decreases e - s
  {
    if s > e then [] else [IntToString(s)] + Expand(s + 1, e)
  }

  /** The ingestion side: start is the first element parsed, end the last
      element parsed; the elements in between are never read. An empty list
      gives `NaN` for both. */
  function Collapse(periods: seq<string>): (Option<int>, Option<int>) {
    if |periods| == 0 then (None, None)
    else (ParseInt(periods[0]), ParseInt(periods[|periods| - 1]))
  }

  /** The expanded list has one element per period of the range, the k-th
      being the decimal string of s + k. */
  lemma {:induction false} ExpandAt(s: int, e: int)
    ensures |Expand(s, e)| == if s <= e then e - s + 1 else 0
    ensures forall k :: 0 <= k < |Expand(s, e)| ==> Expand(s, e)[k] == IntToString(s + k)
    decreases e - s
  {
    if s <= e {
      ExpandAt(s + 1, e);
      forall k | 0 <= k < |Expand(s, e)|
        ensures Expand(s, e)[k] == IntToString(s + k)
      {
        if k > 0 {
          assert Expand(s, e)[k] == Expand(s + 1, e)[k - 1];
        }
      }
    }
  }

  /** `generatePeriodArray`: counts from start to end, pushing each period's
      decimal string. */
  method GeneratePeriodArray(startPeriod: int, endPeriod: int) returns (periods: seq<string>)
    ensures periods == Expand(startPeriod, endPeriod)
  {
    periods := [];
    var i := startPeriod;
    while i <= endPeriod
      invariant startPeriod <= endPeriod + 1 ==> startPeriod <= i <= endPeriod + 1
      invariant startPeriod > endPeriod ==> i == startPeriod
      invariant |periods| == i - startPeriod
      invariant forall k :: 0 <= k < |periods| ==> periods[k] == IntToString(startPeriod + k)
      decreases endPeriod - i
    {
      periods := periods + [IntToString(i)];
      i := i + 1;
    }
    ExpandAt(startPeriod, endPeriod);
  }

  lemma {:induction false} DigitsValueOfNatToString(n: nat)
    ensures DigitsValue(NatToString(n)) == n
    decreases n
  {
    if n >= 10 {
      DigitsValueOfNatToString(n / 10);
      var s := NatToString(n);
      assert s[..|s| - 1] == NatToString(n / 10);
    }
  }

  lemma {:induction false} LeadingDigitsOfDigits(s: string)
    requires AllDigits(s)
    ensures LeadingDigits(s) == |s|
  {
    if s != [] {
      LeadingDigitsOfDigits(s[1..]);
    }
  }

  /** Parsing the decimal rendering of any integer gives the integer back. */
  lemma ParseIntToString(i: int)
    ensures ParseInt(IntToString(i)) == Some(i)
  {
    var n: nat := if i < 0 then -i else i;
    var digits := NatToString(n);
    DigitsValueOfNatToString(n);
    LeadingDigitsOfDigits(digits);
    var s := IntToString(i);
    if i < 0 {
      assert s[SignLength(s)..] == digits;
    } else {
      assert s[SignLength(s)..] == digits;
    }
    assert digits[..|digits|] == digits;
  }

  /** The round trip between the read side and the write side: collapsing an
      expanded range gives the range back. */
  lemma CollapseExpand(s: int, e: int)
    requires s <= e
    ensures Collapse(Expand(s, e)) == (Some(s), Some(e))
  {
    ExpandAt(s, e);
    var p := Expand(s, e);
    assert p[0] == IntToString(s);
    assert p[|p| - 1] == IntToString(s + (e - s));
    ParseIntToString(s);
    ParseIntToString(e);
  }

  /** Collapsing reads only the two ends: any list with the same first and
      last element collapses to the same range, contiguous or not. */
  lemma CollapseReadsEnds(p: seq<string>, q: seq<string>)
    requires |p| > 0 && |q| > 0
    requires p[0] == q[0] && p[|p| - 1] == q[|q| - 1]
    ensures Collapse(p) == Collapse(q)
  {
  }
}
