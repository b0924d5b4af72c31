/** The record identifier `ID` of yammy_core/src/lib.rs and the total order
    that `#[derive(PartialOrd, Ord)]` gives it: variants compare by declaration
    order (every String before every Integer), then by payload. */
module Ids {

  /** Rust's `u64`. */
  newtype u64 = x: int | 0 <= x < 0x1_0000_0000_0000_0000

  datatype ID = String(s: string) | Integer(n: u64)

  /** Rust's `std::cmp::Ordering`. */
  datatype Ordering = Less | Equal | Greater

  function Flip(o: Ordering): Ordering {
    match o
    case Less => Greater
    case Equal => Equal
    case Greater => Less
  }

  /** `Ord` for `String`: lexicographic on the characters. The byte-wise UTF-8
      comparison the source uses orders strings the same way as a comparison
      of their code points. */
  function CompareStrings(a: string, b: string): Ordering
    decreases |a|
  {
    if a == [] then (if b == [] then Equal else Less)
    else if b == [] then Greater
    else if a[0] < b[0] then Less
    else if b[0] < a[0] then Greater
    else CompareStrings(a[1..], b[1..])
  }

  function CompareU64(m: u64, n: u64): Ordering {
    if m < n then Less else if n < m then Greater else Equal
  }

  /** The derived `Ord::cmp` on `ID`: variants in declaration order, then
      the payload's own order. It answers Equal exactly for equal ids. */
  function Compare(a: ID, b: ID): (r: Ordering)
    ensures r == Equal <==> a == b
    ensures a.String? != b.String? ==> (r == Less <==> a.String?)
  {
    match (a, b)
    case (String(x), String(y)) => CompareStringsEqual(x, y); CompareStrings(x, y)
    case (String(_), Integer(_)) => Less
    case (Integer(_), String(_)) => Greater
    case (Integer(m), Integer(n)) => CompareU64(m, n)
  }

  /** The derived `<=` on `ID`. */
  predicate Le(a: ID, b: ID)
    ensures Le(a, b) <==> a == b || Compare(a, b) == Less
  {
    Compare(a, b) != Greater
  }

  // ---- the string order ----

  lemma {:induction false} CompareStringsEqual(a: string, b: string)
    ensures CompareStrings(a, b) == Equal <==> a == b
    decreases |a|
  {
    if a != [] && b != [] && a[0] == b[0] {
      CompareStringsEqual(a[1..], b[1..]);
      assert a == [a[0]] + a[1..] && b == [b[0]] + b[1..];
    }
  }

  lemma {:induction false} CompareStringsFlip(a: string, b: string)
    ensures CompareStrings(b, a) == Flip(CompareStrings(a, b))
    decreases |a|
  {
    if a != [] && b != [] && a[0] == b[0] {
      CompareStringsFlip(a[1..], b[1..]);
    }
  }

  lemma {:induction false} CompareStringsTransitive(a: string, b: string, c: string)
    requires CompareStrings(a, b) == Less && CompareStrings(b, c) == Less
    ensures CompareStrings(a, c) == Less
    decreases |a|
  {
    if a != [] && b != [] && c != [] && a[0] == b[0] && b[0] == c[0] {
      CompareStringsTransitive(a[1..], b[1..], c[1..]);
    }
  }

  /** Strings are ordered lexicographically: a proper prefix comes first... */
  lemma {:induction false} ProperPrefixSortsFirst(a: string, b: string)
    requires |a| < |b| && a == b[..|a|]
    ensures CompareStrings(a, b) == Less
    decreases |a|
  {
    if a != [] {
      assert a[0] == b[0];
      ProperPrefixSortsFirst(a[1..], b[1..]);
    }
  }

  /** ...and otherwise the first differing character decides. */
  lemma {:induction false} FirstDifferenceDecides(a: string, b: string, k: nat)
    requires k < |a| && k < |b| && a[..k] == b[..k] && a[k] < b[k]
    ensures CompareStrings(a, b) == Less
    decreases k
  {
    if k > 0 {
      assert a[0] == a[..k][0] == b[..k][0] == b[0];
      assert a[1..][..k - 1] == a[..k][1..] == b[..k][1..] == b[1..][..k - 1];
      FirstDifferenceDecides(a[1..], b[1..], k - 1);
    }
  }

  // ---- the order on ID ----

  lemma CompareFlip(a: ID, b: ID)
    ensures Compare(b, a) == Flip(Compare(a, b))
  {
    if a.String? && b.String? {
      CompareStringsFlip(a.s, b.s);
    }
  }

  lemma CompareTransitive(a: ID, b: ID, c: ID)
    requires Compare(a, b) == Less && Compare(b, c) == Less
    ensures Compare(a, c) == Less
  {
    if a.String? && b.String? && c.String? {
      CompareStringsTransitive(a.s, b.s, c.s);
    }
  }

  /** Every String id sorts before every Integer id. */
  lemma StringsBeforeIntegers(a: ID, b: ID)
    requires a.String? && b.Integer?
    ensures Compare(a, b) == Less && Le(a, b) && !Le(b, a)
  {
  }

  /** Within a variant, ids order by their payload. */
  lemma WithinVariant(a: ID, b: ID)
    ensures a.Integer? && b.Integer? ==> (Compare(a, b) == Less <==> a.n < b.n)
    ensures a.String? && b.String? ==> Compare(a, b) == CompareStrings(a.s, b.s)
  {
  }

  /** `<=` on ID is a total order: reflexive, antisymmetric, transitive and
      total, which is what lets ids be stored in an ordered set. */
  lemma LeIsTotalOrder(a: ID, b: ID, c: ID)
    ensures Le(a, a)
    ensures Le(a, b) && Le(b, a) ==> a == b
    ensures Le(a, b) && Le(b, c) ==> Le(a, c)
    ensures Le(a, b) || Le(b, a)
  {
    CompareFlip(a, b);
    if Compare(a, b) == Less && Compare(b, c) == Less {
      CompareTransitive(a, b, c);
    }
  }
}
