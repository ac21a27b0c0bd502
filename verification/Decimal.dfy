/** The integer printer of the log: digits by truncating division, then an in-place reversal. */
module Decimal {

  const INT64_MIN: int := -0x8000_0000_0000_0000
  const UINT64_END: int := 0x1_0000_0000_0000_0000

  /** The values of every signed and unsigned integer type up to 64 bits. */
  predicate IsMachineInt(v: int) {
    INT64_MIN <= v < UINT64_END
  }

  // ---- division as C does it: the quotient is truncated towards zero ----

  function TruncDiv(a: int, b: int): int
    requires b > 0
  {
    if a >= 0 then a / b else -((-a) / b)
  }

  function TruncMod(a: int, b: int): int
    requires b > 0
  {
    a - TruncDiv(a, b) * b
  }

  const DIGITS := "9876543210123456789"
  const ZERO := 9

  // ---- what the printer should write ----

  function Abs(v: int): nat {
    if v < 0 then -v else v
  }

  function DigitChar(d: nat): char
    requires d < 10
  {
    '0' + d as char
  }

  function NatText(n: nat): string {
    if n < 10 then [DigitChar(n)] else NatText(n / 10) + [DigitChar(n % 10)]
  }

  function Text(v: int): string {
    (if v < 0 then "-" else "") + NatText(Abs(v))
  }

  // ---- reading it back ----

  predicate IsDigit(c: char) {
    '0' <= c <= '9'
  }

  predicate AllDigits(s: string) {
    forall i :: 0 <= i < |s| ==> IsDigit(s[i])
  }

  function ReadNat(s: string): nat
    requires AllDigits(s)
  {
    if s == [] then 0 else 10 * ReadNat(s[..|s| - 1]) + (s[|s| - 1] as int - '0' as int)
  }

  lemma {:induction false} NatTextReadsBack(n: nat)
    ensures AllDigits(NatText(n))
    ensures ReadNat(NatText(n)) == n
    decreases n
  {
    if n >= 10 {
      NatTextReadsBack(n / 10);
      assert NatText(n)[..|NatText(n)| - 1] == NatText(n / 10);
    } else {
      assert NatText(n)[..0] == [];
    }
  }

  lemma {:induction false} NoLeadingZero(n: nat)
    ensures NatText(n) != [] && (NatText(n)[0] == '0' ==> n == 0)
    decreases n
  {
    if n >= 10 { NoLeadingZero(n / 10); }
  }

  /** The text reads back to the value, has no superfluous zero, and its sign is a leading minus. */
  lemma TextReadsBack(v: int)
    ensures var digits := if v < 0 then Text(v)[1..] else Text(v);
      && (v < 0 ==> Text(v)[0] == '-')
      && digits != [] && AllDigits(digits) && (digits[0] == '0' ==> v == 0)
      && ReadNat(digits) == if v < 0 then -v else v
  {
    NatTextReadsBack(Abs(v));
    NoLeadingZero(Abs(v));
    assert (if v < 0 then Text(v)[1..] else Text(v)) == NatText(Abs(v));
  }

  function Pow10(k: nat): nat {
    if k == 0 then 1 else 10 * Pow10(k - 1)
  }

  lemma {:induction false} NatTextLength(n: nat, k: nat)
    requires k > 0
    ensures |NatText(n)| <= k <==> n < Pow10(k)
    decreases k
  {
    if n >= 10 {
      if k > 1 {
        NatTextLength(n / 10, k - 1);
      } else {
        NoLeadingZero(n / 10);
        assert Pow10(1) == 10;
      }
    } else {
      PowPositive(k - 1);
    }
  }

  lemma {:induction false} PowPositive(k: nat)
    ensures Pow10(k) >= 1
  {
    if k > 0 { PowPositive(k - 1); }
  }

  /** Every machine integer fits in 20 characters, so with its terminator in 21. */
  lemma TextFits(v: int)
    requires IsMachineInt(v)
    ensures |Text(v)| <= 20
  {
    NatTextLength(Abs(v), 19);
    NatTextLength(Abs(v), 20);
    Powers();
  }

  lemma Powers()
    ensures Pow10(19) == 10_000_000_000_000_000_000 && Pow10(20) == 100_000_000_000_000_000_000
  {
    assert Pow10(4) == 10_000;
    assert Pow10(8) == 100_000_000;
    assert Pow10(12) == 1_000_000_000_000;
    assert Pow10(16) == 10_000_000_000_000_000;
  }

  // ---- the printer ----

  function Rev(s: string): string {
    if s == [] then [] else Rev(s[1..]) + [s[0]]
  }

  lemma {:induction false} RevAt(s: string, k: nat)
    requires k < |s|
    ensures |Rev(s)| == |s| && Rev(s)[k] == s[|s| - 1 - k]
  {
    if |s| > 1 { RevAt(s[1..], if k < |s| - 1 then k else 0); }
  }

  lemma {:induction false} RevSnoc(s: string, c: char)
    ensures Rev(s + [c]) == [c] + Rev(s)
  {
    if s == [] {
      assert (s + [c])[1..] == [];
    } else {
      RevSnoc(s[1..], c);
      assert (s + [c])[1..] == s[1..] + [c];
    }
  }

  /** Least significant digit first. */
  function Backwards(n: nat): string {
    if n < 10 then [DigitChar(n)] else [DigitChar(n % 10)] + Backwards(n / 10)
  }

  lemma {:induction false} BackwardsReversed(n: nat)
    ensures Rev(Backwards(n)) == NatText(n)
    decreases n
  {
    if n >= 10 {
      BackwardsReversed(n / 10);
      assert Backwards(n)[1..] == Backwards(n / 10);
    } else {
      assert Backwards(n)[1..] == [];
    }
  }

  /** Taking a digit off a value of either sign takes it off its absolute value. */
  lemma DigitStep(i: int)
    ensures -9 <= TruncMod(i, 10) <= 9
    ensures DIGITS[ZERO + TruncMod(i, 10)] == DigitChar(Abs(i) % 10)
    ensures Abs(TruncDiv(i, 10)) == Abs(i) / 10
    ensures TruncDiv(i, 10) == 0 <==> Abs(i) < 10
  {
  }

  lemma RevIs(was: string, now: string)
    requires |now| == |was| && forall k :: 0 <= k < |was| ==> now[k] == was[|was| - 1 - k]
    ensures now == Rev(was)
  {
    if was != [] { RevAt(was, 0); }
    forall k | 0 <= k < |was| ensures |Rev(was)| == |was| && now[k] == Rev(was)[k] {
      RevAt(was, k);
    }
  }

  /** std::reverse on buf[lo..hi]. */
  method Reverse(buf: array<char>, lo: nat, hi: nat)
    requires lo <= hi <= buf.Length
    modifies buf
    ensures forall j :: lo <= j < hi ==> buf[j] == old(buf[..])[lo + hi - 1 - j]
    ensures forall j :: 0 <= j < lo || hi <= j < buf.Length ==> buf[j] == old(buf[..])[j]
  {
    ghost var was := buf[..];
    var a, b := lo, hi;
    while a + 1 < b
      invariant lo <= a <= b <= hi && a - lo == hi - b
      invariant forall j :: 0 <= j < buf.Length ==>
        buf[j] == was[if lo <= j < a || b <= j < hi then lo + hi - 1 - j else j]
    {
      buf[a], buf[b - 1] := buf[b - 1], buf[a];
      a, b := a + 1, b - 1;
    }
  }

  /** The digit loop: writes the digits of the value backwards and returns where it stopped. */
  method WriteDigits(buf: array<char>, start: nat, value: int) returns (p: nat)
    requires start + |NatText(Abs(value))| <= buf.Length
    modifies buf
    ensures p == start + |NatText(Abs(value))|
    ensures buf[..p] == old(buf[..start]) + Backwards(Abs(value))
    ensures forall j :: p <= j < buf.Length ==> buf[j] == old(buf[j])
  {
    BackwardsLength(Abs(value));
    ghost var goal := buf[..start] + Backwards(Abs(value));
    var i := value;
    p := start;
    var again := true;
    while again
      invariant start <= p <= |goal| <= buf.Length
      invariant buf[..p] + (if again then Backwards(Abs(i)) else []) == goal
      invariant forall j :: p <= j < buf.Length ==> buf[j] == old(buf[j])
      decreases again, Abs(i)
    {
      DigitStep(i);
      BackwardsStep(buf[..p], Abs(i), goal);
      var lsd := TruncMod(i, 10);
      i := TruncDiv(i, 10);
      buf[p] := DIGITS[ZERO + lsd];
      assert buf[..p + 1] == buf[..p] + [DIGITS[ZERO + lsd]];
      p := p + 1;
      again := i != 0;
    }
  }

  lemma BackwardsStep(before: string, n: nat, goal: string)
    requires before + Backwards(n) == goal
    ensures |before| < |goal|
    ensures before + [DigitChar(n % 10)] + (if n < 10 then [] else Backwards(n / 10)) == goal
  {
  }

  lemma {:induction false} BackwardsLength(n: nat)
    ensures |Backwards(n)| == |NatText(n)|
    decreases n
  {
    if n >= 10 { BackwardsLength(n / 10); }
  }

  /** What the digit loop and the sign leave: the text backwards. */
  function Mirrored(v: int): string {
    Backwards(Abs(v)) + if v < 0 then "-" else ""
  }

  lemma MirroredReversed(v: int)
    ensures Rev(Mirrored(v)) == Text(v) && |Mirrored(v)| == |Text(v)|
  {
    BackwardsReversed(Abs(v));
    BackwardsLength(Abs(v));
    if v < 0 {
      RevSnoc(Backwards(Abs(v)), '-');
    } else {
      assert Mirrored(v) == Backwards(Abs(v)) && Text(v) == NatText(Abs(v));
    }
  }

  method WriteMirrored(buf: array<char>, start: nat, value: int) returns (p: nat)
    requires start + |Text(value)| < buf.Length
    modifies buf
    ensures p == start + |Text(value)| && buf[..p] == old(buf[..start]) + Mirrored(value) && buf[p] == '\0'
    ensures forall j :: p < j < buf.Length ==> buf[j] == old(buf[j])
  {
    p := WriteDigits(buf, start, value);
    if value < 0 {
      buf[p] := '-';
      assert buf[..p + 1] == buf[..p] + ['-'];
      p := p + 1;
    }
    buf[p] := '\0';
    MirroredReversed(value);
  }

  lemma ReversedTail(before: string, now: string, start: nat, p: nat, head: string, body: string)
    requires start <= p <= |before| == |now| && |head| == start && before[..p] == head + body
    requires forall j :: 0 <= j < start ==> now[j] == before[j]
    requires forall j :: start <= j < p ==> now[j] == before[start + p - 1 - j]
    ensures now[..p] == head + Rev(body)
  {
    forall i | 0 <= i < p ensures before[i] == (head + body)[i] {
      assert before[i] == before[..p][i];
    }
    RevIs(body, now[start..p]);
    assert now[..p] == now[..start] + now[start..p];
    assert now[..start] == head;
  }

  /** Prints any value, the most negative one included, at buf[start..] with a terminator. */
  method Convert(buf: array<char>, start: nat, value: int) returns (len: nat)
    requires start + |Text(value)| < buf.Length
    modifies buf
    ensures len == |Text(value)| && buf[..start + len] == old(buf[..start]) + Text(value) && buf[start + len] == '\0'
    ensures forall j :: start + len < j < buf.Length ==> buf[j] == old(buf[j])
  {
    var p := WriteMirrored(buf, start, value);
    MirroredReversed(value);
    ghost var before := buf[..];
    Reverse(buf, start, p);
    len := p - start;
    ReversedTail(before, buf[..], start, p, old(buf[..start]), Mirrored(value));
  }
}
