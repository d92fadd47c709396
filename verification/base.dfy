/** Shared vocabulary: optional values, timestamps, store-generated ids and the
    string predicates (prefix, substring, decimal numerals) the identity engine uses. */
module Base {

  /** A value that may be absent: JavaScript's `null` / `undefined`. */
  datatype Option<+T> = None | Some(value: T) {
    /** `x ?? d` */
    function GetOr(default: T): T {
      match this
      case Some(v) => v
      case None => default
    }
  }

  /** Milliseconds since the epoch, as `Date.now()` returns them. */
  type Time = int

  const MsPerMinute: int := 60 * 1000
  const MsPerHour: int := 60 * MsPerMinute

  /** A JavaScript string that is "truthy": present and not empty. */
  predicate Truthy(s: Option<string>) {
    s.Some? && s.value != ""
  }

  /** `s.startsWith(p)` */
  predicate StartsWith(s: string, p: string) {
    |p| <= |s| && s[..|p|] == p
  }

  /** `needle` occurs in `hay` starting at offset `k`. */
  predicate OccursAt(hay: string, needle: string, k: int) {
    0 <= k <= |hay| - |needle| && hay[k..k + |needle|] == needle
  }

  /** `hay.includes(needle)`: `needle` occurs at some offset of `hay`. */
  predicate Contains(hay: string, needle: string) {
    exists k :: 0 <= k <= |hay| && OccursAt(hay, needle, k)
  }

  /** A string always contains its own suffix (witness: the suffix's offset). */
  lemma ContainsSuffix(p: string, s: string)
    ensures Contains(p + s, s)
  {
    var hay := p + s;
    assert hay[|p|..|p| + |s|] == s;
    assert 0 <= |p| <= |hay| && OccursAt(hay, s, |p|);
  }

  /** Containment is transitive: whatever contains `mid` contains every part of `mid`. */
  lemma ContainsTransitive(hay: string, mid: string, needle: string)
    requires Contains(hay, mid) && Contains(mid, needle)
    ensures Contains(hay, needle)
  {
    var k :| 0 <= k <= |hay| && OccursAt(hay, mid, k);
    var j :| 0 <= j <= |mid| && OccursAt(mid, needle, j);
    assert hay[k..k + |mid|] == mid;
    forall i | 0 <= i < |needle|
      ensures hay[k + j + i] == needle[i]
    {
      assert hay[k + j + i] == hay[k..k + |mid|][j + i];
      assert mid[j..j + |needle|][i] == needle[i];
    }
    assert hay[k + j..k + j + |needle|] == needle;
    assert OccursAt(hay, needle, k + j);
  }

  /** A fresh id for a table whose rows carry `ids`: larger than every id in use,
      so a row created with it never collides with an existing one. */
  function NextId(ids: seq<nat>): (r: nat)
    ensures forall i :: 0 <= i < |ids| ==> ids[i] < r
    ensures |ids| == 0 ==> r == 0
    ensures |ids| > 0 ==> exists i :: 0 <= i < |ids| && r == ids[i] + 1
  {
    if |ids| == 0 then 0
    else
      var rest := NextId(ids[1..]);
      if ids[0] + 1 >= rest then ids[0] + 1 else rest
  }

  /** The index of the first element satisfying `p`: a `findFirst` or `findUnique`
      on a table whose rows are in creation order. */
  function FirstWhere<T>(s: seq<T>, p: T -> bool): (r: Option<nat>)
    ensures r.Some? ==> r.value < |s| && p(s[r.value]) && forall j :: 0 <= j < r.value ==> !p(s[j])
    ensures r.None? ==> forall j :: 0 <= j < |s| ==> !p(s[j])
    decreases |s|
  {
    if |s| == 0 then None
    else if p(s[0]) then Some(0)
    else match FirstWhere(s[1..], p)
      case None => None
      case Some(k) => Some(k + 1)
  }

  /** Two tables whose rows match position by position give the same answer. */
  lemma {:induction false} FirstWhereAgrees<T, U>(a: seq<T>, p: T -> bool, b: seq<U>, q: U -> bool)
    requires |a| == |b| && forall j :: 0 <= j < |a| ==> p(a[j]) == q(b[j])
    ensures FirstWhere(a, p) == FirstWhere(b, q)
    decreases |a|
  {
    if |a| > 0 && !p(a[0]) {
      FirstWhereAgrees(a[1..], p, b[1..], q);
    }
  }

  /** One column of a table, row by row. */
  function Column<T>(s: seq<T>, f: T -> nat): (c: seq<nat>)
    ensures |c| == |s| && forall i :: 0 <= i < |s| ==> c[i] == f(s[i])
  {
    seq(|s|, i requires 0 <= i < |s| => f(s[i]))
  }

  /** The rows of `s` satisfying `p`, in their original order (a `deleteMany`
      seen from the rows it keeps). */
  function Keep<T>(s: seq<T>, p: T -> bool): (r: seq<T>)
    ensures |r| <= |s|
    ensures forall x :: x in r ==> x in s && p(x)
    ensures forall i :: 0 <= i < |s| && p(s[i]) ==> s[i] in r
    decreases |s|
  {
    if |s| == 0 then []
    else if p(s[0]) then [s[0]] + Keep(s[1..], p)
    else Keep(s[1..], p)
  }

  /** Splitting by a predicate and its negation loses no row. */
  lemma {:induction false} KeepSplits<T>(s: seq<T>, p: T -> bool, q: T -> bool)
    requires forall x :: q(x) == !p(x)
    ensures |Keep(s, p)| + |Keep(s, q)| == |s|
    decreases |s|
  {
    if |s| > 0 {
      KeepSplits(s[1..], p, q);
    }
  }

  // ---------------------------------------------------------------------------
  // Decimal numerals, as `Number.prototype.toString()` prints a natural number.

  predicate IsDigit(c: char) {
    '0' <= c <= '9'
  }

  predicate AllDigits(s: string) {
    forall i :: 0 <= i < |s| ==> IsDigit(s[i])
  }

  function DigitChar(d: nat): (c: char)
    requires d < 10
    ensures IsDigit(c) && c as int - '0' as int == d
  {
    ('0' as int + d) as char
  }

  function DigitValue(c: char): (d: nat)
    requires IsDigit(c)
    ensures d < 10 && DigitChar(d) == c
  {
    (c as int - '0' as int) as nat
  }

  /** The decimal numeral of `n` with no leading zero. */
  function Decimal(n: nat): (s: string)
    ensures |s| >= 1 && AllDigits(s)
    ensures |s| > 1 ==> s[0] != '0'
    decreases n
  {
    if n < 10 then [DigitChar(n)] else Decimal(n / 10) + [DigitChar(n % 10)]
  }

  /** The value a numeral denotes (the inverse of `Decimal`). */
  function DecimalValue(s: string): nat
    requires AllDigits(s)
    decreases |s|
  {
    if |s| == 0 then 0 else DecimalValue(s[..|s| - 1]) * 10 + DigitValue(s[|s| - 1])
  }

  lemma {:induction false} DecimalRoundTrip(n: nat)
    ensures DecimalValue(Decimal(n)) == n
    decreases n
  {
    if n >= 10 {
      DecimalRoundTrip(n / 10);
      var s := Decimal(n);
      assert s[..|s| - 1] == Decimal(n / 10);
      assert DigitValue(s[|s| - 1]) == n % 10;
    }
  }

  function Pow10(k: nat): (r: nat)
    ensures r >= 1
  {
    if k == 0 then 1 else 10 * Pow10(k - 1)
  }

  /** Six-digit numbers are those in [10^5, 10^6). */
  lemma SixDigitRange()
    ensures Pow10(5) == 100000 && Pow10(6) == 1000000
  {
    assert Pow10(1) == 10;
    assert Pow10(2) == 100;
    assert Pow10(3) == 1000;
    assert Pow10(4) == 10000;
  }

  /** A number in [10^(k-1), 10^k) has exactly k decimal digits. */
  lemma {:induction false} DecimalLength(n: nat, k: nat)
    requires k >= 1 && Pow10(k - 1) <= n < Pow10(k)
    ensures |Decimal(n)| == k
    decreases k
  {
    if k > 1 {
      assert n >= 10 by { assert Pow10(k - 1) == 10 * Pow10(k - 2); }
      DecimalLength(n / 10, k - 1);
    } else {
      assert n < 10;
    }
  }
}
