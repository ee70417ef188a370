/**
 * The parts of Rust's standard library the slot codec leans on, on bytes:
 * `str::find`, `str::rsplitn(2, _)`, decimal formatting of an unsigned integer
 * (`format!("{}")`) and `str::parse` for an unsigned integer type.
 */
module Text {
  import opened Wrappers
  import opened Primitives

  const Underscore: byte := 95
  const Plus: byte := 43
  const Zero: byte := 48

  predicate IsDigit(b: byte) {
    Zero <= b <= Zero + 9
  }

  predicate AllDigits(s: Bytes) {
    forall i | 0 <= i < |s| :: IsDigit(s[i])
  }

  // ---------------------------------------------------------------- find

  /** `pat` occurs in `s` starting at byte offset `i`. */
  predicate OccursAt(s: Bytes, pat: Bytes, i: nat) {
    i + |pat| <= |s| && s[i..i + |pat|] == pat
  }

  predicate Contains(s: Bytes, pat: Bytes) {
    exists i: nat | i <= |s| :: OccursAt(s, pat, i)
  }

  /** The first occurrence of `pat` in `s` at or after `from`. */
  function FindFrom(s: Bytes, pat: Bytes, from: nat): (r: Option<nat>)
    decreases |s| - from
    ensures r.Some? ==> from <= r.value && OccursAt(s, pat, r.value)
    ensures forall j: nat | from <= j && (r.None? || j < r.value) :: !OccursAt(s, pat, j)
  {
    if |s| < from + |pat| then None
    else if s[from..from + |pat|] == pat then Some(from)
    else FindFrom(s, pat, from + 1)
  }

  /** `s.find(pat)`: the byte offset of the first occurrence of `pat`, if any. */
  function Find(s: Bytes, pat: Bytes): (r: Option<nat>)
    ensures r.Some? ==> OccursAt(s, pat, r.value)
    ensures r.Some? ==> forall j: nat | j < r.value :: !OccursAt(s, pat, j)
    ensures r.None? <==> !Contains(s, pat)
  {
    FindFrom(s, pat, 0)
  }

  /** An occurrence with nothing before it is what `Find` returns. */
  lemma FindFirst(s: Bytes, pat: Bytes, k: nat)
    requires OccursAt(s, pat, k)
    requires forall j: nat | j < k :: !OccursAt(s, pat, j)
    ensures Find(s, pat) == Some(k)
  {
    assert Contains(s, pat);
  }

  /** Cutting a sequence at two offsets and gluing the pieces back gives it back. */
  lemma SplitAround(s: Bytes, pos: nat, n: nat)
    requires pos + n <= |s|
    ensures s == s[..pos] + s[pos..pos + n] + s[pos + n..]
  {
  }

  // ---------------------------------------------------------- rsplitn(2)

  /** The offset of the last `b` in `s`, if any. */
  function LastIndexOf(s: Bytes, b: byte): (r: Option<nat>)
    ensures r.Some? ==> r.value < |s| && s[r.value] == b
    ensures r.Some? ==> forall j | r.value < j < |s| :: s[j] != b
    ensures r.None? ==> forall j | 0 <= j < |s| :: s[j] != b
  {
    if |s| == 0 then None
    else if s[|s| - 1] == b then Some(|s| - 1)
    else LastIndexOf(s[..|s| - 1], b)
  }

  /**
   * The items `s.rsplitn(2, sep)` yields, in order: the part after the last
   * `sep` (the whole of `s` when there is none), then the part before it.
   */
  function RSplitOnce(s: Bytes, sep: byte): (parts: seq<Bytes>)
    ensures 1 <= |parts| <= 2
    ensures |parts| == 1 <==> sep !in s
    ensures |parts| == 1 ==> parts[0] == s
    ensures |parts| == 2 ==> s == parts[1] + [sep] + parts[0] && sep !in parts[0]
  {
    match LastIndexOf(s, sep)
    case None => [s]
    case Some(k) =>
      assert s == s[..k] + [sep] + s[k + 1..];
      [s[k + 1..], s[..k]]
  }

  // ---------------------------------------------------- decimal formatting

  /** `format!("{}", n)`: the canonical decimal digits of `n`. */
  function Decimal(n: nat): (r: Bytes)
    ensures 1 <= |r| && AllDigits(r)
    ensures r[0] == Zero ==> n == 0
    ensures IsCanonicalDecimal(r)
  {
    if n < 10 then [Zero + n as byte] else Decimal(n / 10) + [Zero + (n % 10) as byte]
  }

  function Pow10(k: nat): nat {
    if k == 0 then 1 else 10 * Pow10(k - 1)
  }

  /** A number below 10^k has at most k digits (and every number has one). */
  lemma {:induction false} DecimalLengthAtMost(n: nat, k: nat)
    requires 1 <= k && n < Pow10(k)
    ensures |Decimal(n)| <= k
  {
    if n >= 10 {
      assert n / 10 < Pow10(k - 1);
      DecimalLengthAtMost(n / 10, k - 1);
    }
  }

  /** A number at least 10^(k-1) has at least k digits. */
  lemma {:induction false} DecimalLengthAtLeast(n: nat, k: nat)
    requires 1 <= k && Pow10(k - 1) <= n
    ensures k <= |Decimal(n)|
  {
    if k > 1 {
      DecimalLengthAtLeast(n / 10, k - 1);
    }
  }

  // ------------------------------------------------------ unsigned parsing

  /** The value of a run of decimal digits, most significant first. */
  function DigitsValue(d: Bytes): nat
    requires AllDigits(d)
  {
    if |d| == 0 then 0 else DigitsValue(d[..|d| - 1]) * 10 + (d[|d| - 1] - Zero) as nat
  }

  /**
   * `s.parse::<T>()` for an unsigned integer type `T` whose values are below
   * `bound`: one optional leading '+', then one or more ASCII digits (leading
   * zeros allowed), and the value must fit in `T`.
   */
  function ParseUnsigned(s: Bytes, bound: nat): (r: Option<nat>)
    ensures r.Some? ==> r.value < bound
    ensures r.Some? ==> |s| >= 1 && forall i | 0 < i < |s| :: IsDigit(s[i])
    ensures r.Some? ==> IsDigit(s[0]) || (s[0] == Plus && |s| >= 2)
  {
    if |s| == 0 || s == [Plus] then None
    else
      var digits := if s[0] == Plus then s[1..] else s;
      if AllDigits(digits) && DigitsValue(digits) < bound then Some(DigitsValue(digits)) else None
  }

  /**
   * `parse` accepts every run of digits, with or without one leading '+', and
   * reads its value; it refuses the run exactly when that value does not fit.
   */
  lemma ParseNumeral(d: Bytes, bound: nat)
    requires AllDigits(d) && 1 <= |d|
    ensures DigitsValue(d) < bound ==>
      ParseUnsigned(d, bound) == Some(DigitsValue(d)) && ParseUnsigned([Plus] + d, bound) == Some(DigitsValue(d))
    ensures DigitsValue(d) >= bound ==> ParseUnsigned(d, bound).None? && ParseUnsigned([Plus] + d, bound).None?
  {
    assert ([Plus] + d)[1..] == d;
    assert d[0] != Plus;
  }

  /** Reading back the digits `Decimal` writes gives the number. */
  lemma {:induction false} DigitsValueOfDecimal(n: nat)
    ensures DigitsValue(Decimal(n)) == n
  {
    if n >= 10 {
      var d := Decimal(n);
      assert d[..|d| - 1] == Decimal(n / 10);
      DigitsValueOfDecimal(n / 10);
    }
  }

  /** Parsing a formatted number gives it back, for every value the type holds. */
  lemma ParseDecimal(n: nat, bound: nat)
    requires n < bound
    ensures ParseUnsigned(Decimal(n), bound) == Some(n)
  {
    DigitsValueOfDecimal(n);
  }

  /** Canonical numerals: digits only, and no leading zero unless the numeral is "0". */
  predicate IsCanonicalDecimal(d: Bytes) {
    1 <= |d| && AllDigits(d) && (d[0] == Zero ==> |d| == 1)
  }

  /** Formatting the value of a canonical numeral gives the numeral back. */
  lemma {:induction false} DecimalOfDigitsValue(d: Bytes)
    requires IsCanonicalDecimal(d)
    ensures Decimal(DigitsValue(d)) == d
  {
    if |d| > 1 {
      var init := d[..|d| - 1];
      assert IsCanonicalDecimal(init);
      DecimalOfDigitsValue(init);
      LeadingDigitPositive(init);
    }
  }

  /** Parsing a canonical numeral and formatting the value gives the numeral back. */
  lemma ParseCanonicalDecimal(d: Bytes, bound: nat)
    requires IsCanonicalDecimal(d) && ParseUnsigned(d, bound).Some?
    ensures Decimal(ParseUnsigned(d, bound).value) == d
  {
    DecimalOfDigitsValue(d);
  }

  /** Digits that start with a non-zero digit are worth at least one. */
  lemma {:induction false} LeadingDigitPositive(d: Bytes)
    requires AllDigits(d) && 1 <= |d| && d[0] != Zero
    ensures DigitsValue(d) >= 1
  {
    if |d| > 1 {
      LeadingDigitPositive(d[..|d| - 1]);
    }
  }
}
