/** The little text handling that trigger keys need: decimal numerals, prefixes, and
    cutting a text at the first occurrence of a separator. */
module Text {

  // ---------------------------------------------------------------- numerals

  function Digit(d: nat): char
    requires d < 10
  {
    '0' + d as char
  }

  function Decimal(n: nat): (text: string)
    ensures |text| > 0 && forall i | 0 <= i < |text| :: '0' <= text[i] <= '9'
  {
    if n < 10 then [Digit(n)] else Decimal(n / 10) + [Digit(n % 10)]
  }

  function IntText(n: int): string {
    if n < 0 then ['-'] + Decimal(-n) else Decimal(n)
  }

  function ValueOf(text: string): nat
    requires forall i | 0 <= i < |text| :: '0' <= text[i] <= '9'
  {
    if text == [] then 0 else 10 * ValueOf(text[..|text| - 1]) + (text[|text| - 1] - '0') as nat
  }

  /** A numeral is read back as its number, and has no zero in front. */
  lemma {:induction false} DecimalReadsBack(n: nat)
    ensures ValueOf(Decimal(n)) == n && (n > 0 ==> Decimal(n)[0] != '0')
  {
    var text := Decimal(n);
    if n >= 10 {
      DecimalReadsBack(n / 10);
      assert text[..|text| - 1] == Decimal(n / 10) && text[|text| - 1] == Digit(n % 10);
      assert text[0] == Decimal(n / 10)[0];
    } else {
      assert text[..0] == [];
    }
  }

  lemma {:induction false} DecimalInjective(m: nat, n: nat)
    requires Decimal(m) == Decimal(n)
    ensures m == n
    decreases m
  {
    var s, t := Decimal(m), Decimal(n);
    assert s[|s| - 1] == Digit(m % 10) && t[|t| - 1] == Digit(n % 10);
    if m >= 10 && n >= 10 {
      assert s[..|s| - 1] == Decimal(m / 10) && t[..|t| - 1] == Decimal(n / 10);
      DecimalInjective(m / 10, n / 10);
    }
  }

  lemma IntTextInjective(m: int, n: int)
    requires IntText(m) == IntText(n)
    ensures m == n
  {
    assert IntText(m)[0] == IntText(n)[0];
    if m < 0 && n < 0 {
      assert Decimal(-m) == IntText(m)[1..] && Decimal(-n) == IntText(n)[1..];
      DecimalInjective(-m, -n);
    } else if m >= 0 && n >= 0 {
      DecimalInjective(m, n);
    }
  }

  predicate HashFree(s: string) {
    forall i | 0 <= i < |s| :: s[i] != '#'
  }

  lemma IntTextHashFree(n: int)
    ensures HashFree(IntText(n))
  {
  }

  lemma HashAt(a: string, x: string, k: nat)
    requires HashFree(x) && |a| <= k <= |a| + |x|
    ensures (a + ['#'] + x)[k] == '#' <==> k == |a|
  {
  }

  /** A text cut at its last hash. */
  lemma LastHashCut(a: string, x: string, b: string, y: string)
    requires HashFree(x) && HashFree(y) && a + ['#'] + x == b + ['#'] + y
    ensures a == b && x == y
  {
    var s := a + ['#'] + x;
    assert |s| == |a| + 1 + |x| == |b| + 1 + |y|;
    if |a| <= |b| {
      HashAt(a, x, |b|);
      HashAt(b, y, |b|);
    } else {
      HashAt(a, x, |a|);
      HashAt(b, y, |a|);
    }
    assert a == s[..|a|] && b == s[..|b|] && x == s[|a| + 1..] && y == s[|b| + 1..];
  }

  // ---------------------------------------------------------------- cutting

  predicate OccursAt(s: string, sep: string, i: nat) {
    i + |sep| <= |s| && s[i..i + |sep|] == sep
  }

  /** The part of `s` before the first `sep`, or all of `s` when there is none. */
  function Before(s: string, sep: string): string {
    BeforeFrom(s, sep, 0)
  }

  function BeforeFrom(s: string, sep: string, i: nat): string
    requires i <= |s|
    decreases |s| - i
  {
    if i == |s| then s
    else if OccursAt(s, sep, i) then s[..i]
    else BeforeFrom(s, sep, i + 1)
  }

  lemma {:induction false} BeforeIsFirst(s: string, sep: string, i: nat, at: nat)
    requires i <= at <= |s| && |sep| > 0
    requires forall j: nat | i <= j < at :: !OccursAt(s, sep, j)
    requires at == |s| || OccursAt(s, sep, at)
    ensures BeforeFrom(s, sep, i) == s[..at]
    decreases at - i
  {
    if i == |s| {
      assert s == s[..at];
    } else if i < at {
      BeforeIsFirst(s, sep, i + 1, at);
    }
  }

  lemma OccurrenceAt(s: string, sep: string, i: nat, k: nat)
    requires k < |sep|
    ensures OccursAt(s, sep, i) ==> i + k < |s| && s[i + k] == sep[k]
  {
    if OccursAt(s, sep, i) { assert s[i..i + |sep|][k] == sep[k]; }
  }

  predicate StartsWith(s: string, prefix: string) {
    |prefix| <= |s| && s[..|prefix|] == prefix
  }

  lemma StartsAlike(s: string, prefix: string)
    requires |s| > 0 && |prefix| > 0
    ensures StartsWith(s, prefix) ==> s[0] == prefix[0]
  {
    if StartsWith(s, prefix) { assert s[..|prefix|][0] == s[0]; }
  }

  // ---------------------------------------------------------------- retry marks

  function RetryMark(): string { "|retry:" }

  predicate BarFree(s: string) {
    forall i | 0 <= i < |s| :: s[i] != '|'
  }

  /** Every bar is followed by something other than the `r` of a retry mark. */
  predicate Markless(s: string) {
    forall i | 0 <= i < |s| && s[i] == '|' :: i + 1 < |s| && s[i + 1] != 'r'
  }

  lemma MarklessBefore(base: string)
    requires Markless(base)
    ensures Before(base, RetryMark()) == base
  {
    forall j: nat | j < |base| ensures !OccursAt(base, RetryMark(), j) {
      OccurrenceAt(base, RetryMark(), j, 0);
      OccurrenceAt(base, RetryMark(), j, 1);
    }
    BeforeIsFirst(base, RetryMark(), 0, |base|);
    assert base[..|base|] == base;
  }

  lemma MarkedBefore(base: string, tail: string)
    requires Markless(base)
    ensures Before(base + RetryMark() + tail, RetryMark()) == base
    ensures !Markless(base + RetryMark() + tail)
  {
    var s, mark := base + RetryMark() + tail, RetryMark();
    forall j: nat | j < |base| ensures !OccursAt(s, mark, j) {
      OccurrenceAt(s, mark, j, 0);
      OccurrenceAt(s, mark, j, 1);
      assert s[j] == base[j] && (j + 1 < |base| ==> s[j + 1] == base[j + 1]);
    }
    assert s[|base|..|base| + |mark|] == mark;
    BeforeIsFirst(s, mark, 0, |base|);
    assert s[..|base|] == base;
    assert s[|base|] == mark[0] == '|' && s[|base| + 1] == mark[1] == 'r';
  }

  /** A marked text determines its base and its number. */
  lemma MarkedInjective(base: string, n: nat, base': string, n': nat)
    requires Markless(base) && Markless(base')
    requires base + RetryMark() + Decimal(n) == base' + RetryMark() + Decimal(n')
    ensures base == base' && n == n'
  {
    MarkedBefore(base, Decimal(n));
    MarkedBefore(base', Decimal(n'));
    var s := base + RetryMark() + Decimal(n);
    assert s[|base| + |RetryMark()|..] == Decimal(n);
    assert s[|base'| + |RetryMark()|..] == Decimal(n');
    DecimalInjective(n, n');
  }

  lemma BarBefore(head: string, tail: string)
    requires BarFree(head)
    ensures Before(head + ['|'] + tail, ['|']) == head
    ensures Before(head, ['|']) == head
  {
    var s := head + ['|'] + tail;
    forall j: nat | j < |head| ensures !OccursAt(s, ['|'], j) && !OccursAt(head, ['|'], j) {
      assert s[j] == head[j];
      OccurrenceAt(s, ['|'], j, 0);
      OccurrenceAt(head, ['|'], j, 0);
    }
    assert s[|head|..|head| + 1] == ['|'];
    BeforeIsFirst(s, ['|'], 0, |head|);
    BeforeIsFirst(head, ['|'], 0, |head|);
    assert s[..|head|] == head && head[..|head|] == head;
  }
}
