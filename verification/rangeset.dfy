/** The discontinuous range of codepoints that set expansion works with,
    specified abstractly as a finite `set<int>`: its `length` is the
    cardinality and `index(k)` is the k-th smallest member. */
module RangeSet {

  /** The inclusive interval [lo, hi]; empty when lo > hi. */
  function Span(lo: int, hi: int): (r: set<int>)
    ensures forall c :: c in r <==> lo <= c <= hi
    decreases hi - lo
  {
    if lo > hi then {} else {lo} + Span(lo + 1, hi)
  }

  /** `m` is the smallest member of `s`. */
  predicate IsMin(s: set<int>, m: int) {
    m in s && forall x :: x in s ==> m <= x
  }

  lemma Pick(s: set<int>) returns (y: int)
    requires s != {}
    ensures y in s
  {
    if forall x :: x !in s {
      assert false;
    }
    y :| y in s;
  }

  lemma MinExists(s: set<int>)
    requires s != {}
    ensures exists m :: IsMin(s, m)
    decreases |s|
  {
    var y := Pick(s);
    if s != {y} {
      var rest := s - {y};
      MinExists(rest);
      var m :| IsMin(rest, m);
      var least := if y < m then y else m;
      forall x | x in s
        ensures least <= x
      {
        if x != y {
          assert x in rest;
        }
      }
      assert IsMin(s, least);
    } else {
      assert IsMin(s, y);
    }
  }

  /** The smallest member of a non-empty set. */
  function Min(s: set<int>): (m: int)
    requires s != {}
    ensures IsMin(s, m)
  {
    MinExists(s);
    var m :| IsMin(s, m);
    m
  }

  /** The members of `s` strictly below `x`. */
  function Below(s: set<int>, x: int): set<int>
  {
    set y | y in s && y < x
  }

  /** `index(k)`: the k-th smallest member of `s`, counting from 0. The
      result is a member, and exactly `k` members lie below it. */
  function Index(s: set<int>, k: nat): (r: int)
    requires k < |s|
    ensures r in s
    ensures |Below(s, r)| == k
    decreases k
  {
    var m := Min(s);
    if k == 0 then
      assert Below(s, m) == {};
      m
    else
      var r := Index(s - {m}, k - 1);
      assert Below(s, r) == Below(s - {m}, r) + {m};
      r
  }

  lemma {:induction false} SubsetCard(a: set<int>, b: set<int>)
    requires a <= b
    ensures |a| <= |b|
    decreases |a|
  {
    if a != {} {
      var e := Pick(a);
      SubsetCard(a - {e}, b - {e});
    }
  }

  /** A set has fewer members than a superset with a member it lacks. */
  lemma SmallerSubset(a: set<int>, b: set<int>, e: int)
    requires a <= b && e in b && e !in a
    ensures |a| < |b|
  {
    SubsetCard(a, b - {e});
  }

  /** `index` is onto: a member whose rank is `k` is what `index(k)` returns. */
  lemma IndexOfRank(s: set<int>, x: int)
    requires x in s
    ensures |Below(s, x)| < |s|
    ensures Index(s, |Below(s, x)|) == x
  {
    SmallerSubset(Below(s, x), s, x);
    var y := Index(s, |Below(s, x)|);
    if y < x {
      SmallerSubset(Below(s, y), Below(s, x), y);
    } else if x < y {
      SmallerSubset(Below(s, x), Below(s, y), x);
    }
  }
}
