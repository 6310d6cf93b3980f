/** The two <algorithm> comparisons the free operators of the vector are built on, as functions on
    the live element sequences, with an independent definition of lexicographic order and the
    order laws the derived operators rely on. */
module Lexicographic {

  /** std::equal(first1, last1, first2, last2) on random-access ranges: ranges of different
      lengths are unequal; otherwise the elements are compared pairwise from the front. */
  function RangeEqual(a: seq<int>, b: seq<int>): (r: bool)
    ensures r ==> |a| == |b|
    ensures a == b ==> r
    decreases |a|
  {
    if |a| != |b| then false
    else if a == [] then true
    else a[0] == b[0] && RangeEqual(a[1..], b[1..])
  }

  /** std::lexicographical_compare: walk both ranges together; the first pair that differs
      decides; if one range runs out first, the shorter one is less. */
  function LexicographicalCompare(a: seq<int>, b: seq<int>): (r: bool)
    ensures r ==> b != []
    ensures a == [] ==> (r <==> b != [])
    decreases |a|
  {
    if a == [] || b == [] then a == [] && b != []
    else if a[0] < b[0] then true
    else if b[0] < a[0] then false
    else LexicographicalCompare(a[1..], b[1..])
  }

  /** a and b agree on their first k elements, and at k either a has ended while b goes on,
      or both go on and a's element is the smaller. */
  ghost predicate DivergesAt(a: seq<int>, b: seq<int>, k: nat) {
    && k <= |a| && k <= |b|
    && a[..k] == b[..k]
    && ((k == |a| && k < |b|) || (k < |a| && k < |b| && a[k] < b[k]))
  }

  /** Lexicographic order, defined by where the two sequences first part. */
  ghost predicate Precedes(a: seq<int>, b: seq<int>) {
    exists k: nat :: DivergesAt(a, b, k)
  }

  lemma {:induction false} RangeEqualIsEquality(a: seq<int>, b: seq<int>)
    ensures RangeEqual(a, b) <==> a == b
    decreases |a|
  {
    if |a| == |b| && a != [] {
      RangeEqualIsEquality(a[1..], b[1..]);
      assert a == [a[0]] + a[1..] && b == [b[0]] + b[1..];
    }
  }

  /** Once the heads agree, parting at k + 1 is parting of the tails at k. */
  lemma DivergesAtTails(a: seq<int>, b: seq<int>, k: nat)
    requires a != [] && b != [] && a[0] == b[0]
    ensures DivergesAt(a, b, k + 1) <==> DivergesAt(a[1..], b[1..], k)
  {
    if k + 1 <= |a| && k + 1 <= |b| {
      assert a[..k + 1] == [a[0]] + a[1..][..k];
      assert b[..k + 1] == [b[0]] + b[1..][..k];
    }
  }

  lemma {:induction false} LexicographicalCompareMeaning(a: seq<int>, b: seq<int>)
    ensures LexicographicalCompare(a, b) <==> Precedes(a, b)
    decreases |a|
  {
    if a == [] || b == [] {
      if a == [] && b != [] {
        assert DivergesAt(a, b, 0);
      }
    } else if a[0] < b[0] {
      assert DivergesAt(a, b, 0);
    } else if a[0] == b[0] {
      LexicographicalCompareMeaning(a[1..], b[1..]);
      if Precedes(a, b) {
        var k: nat :| DivergesAt(a, b, k);
        assert k != 0;
        DivergesAtTails(a, b, k - 1);
      }
      if Precedes(a[1..], b[1..]) {
        var k: nat :| DivergesAt(a[1..], b[1..], k);
        DivergesAtTails(a, b, k);
      }
    }
  }

  /** `<` is irreflexive. */
  lemma {:induction false} LexicographicalCompareIrreflexive(a: seq<int>)
    ensures !LexicographicalCompare(a, a)
    decreases |a|
  {
    if a != [] {
      LexicographicalCompareIrreflexive(a[1..]);
    }
  }

  /** `<` is asymmetric: never both a < b and b < a. */
  lemma {:induction false} LexicographicalCompareAsymmetric(a: seq<int>, b: seq<int>)
    ensures LexicographicalCompare(a, b) ==> !LexicographicalCompare(b, a)
    decreases |a|
  {
    if a != [] && b != [] && a[0] == b[0] {
      LexicographicalCompareAsymmetric(a[1..], b[1..]);
    }
  }

  /** `<` is transitive. */
  lemma {:induction false} LexicographicalCompareTransitive(a: seq<int>, b: seq<int>, c: seq<int>)
    requires LexicographicalCompare(a, b) && LexicographicalCompare(b, c)
    ensures LexicographicalCompare(a, c)
    decreases |a|
  {
    if a != [] && a[0] == b[0] && b[0] == c[0] {
      LexicographicalCompareTransitive(a[1..], b[1..], c[1..]);
    }
  }

  /** `<` is total: of two different sequences one is less than the other. */
  lemma {:induction false} LexicographicalCompareTrichotomous(a: seq<int>, b: seq<int>)
    ensures LexicographicalCompare(a, b) || a == b || LexicographicalCompare(b, a)
    decreases |a|
  {
    if a != [] && b != [] && a[0] == b[0] {
      LexicographicalCompareTrichotomous(a[1..], b[1..]);
      assert a == [a[0]] + a[1..] && b == [b[0]] + b[1..];
    }
  }
}
