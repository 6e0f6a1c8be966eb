/** Shared vocabulary: optional values, refusals, and the strict-majority arithmetic every quorum uses. */
module Basics {

  datatype Option<+T> = None | Some(value: T)

  /** What becomes of one durable write: it happens, is lost, happens unreported, or leaves a damaged file. */
  datatype Fate = Done | Lost | Unreported | Garbled(content: nat)

  /** The fate of the `i`-th write to come; writes past the end of the list are done. */
  function FateAt(fates: seq<Fate>, i: nat): Fate {
    if i < |fates| then fates[i] else Done
  }

  function Drop(fates: seq<Fate>, n: nat): seq<Fate> {
    if n <= |fates| then fates[n..] else []
  }

  /** The next `n` writes are all done. */
  predicate Clean(fates: seq<Fate>, n: nat) {
    forall i :: 0 <= i < n && i < |fates| ==> fates[i] == Done
  }

  lemma DropSome(fates: seq<Fate>, a: nat, b: nat)
    ensures Drop(Drop(fates, a), b) == Drop(fates, a + b)
    ensures FateAt(Drop(fates, a), b) == FateAt(fates, a + b)
    ensures Clean(fates, a + b) <==> Clean(fates, a) && Clean(Drop(fates, a), b)
    ensures Drop(fates, 0) == fates
  {
  }

  /** One more write of a clean stretch. */
  lemma CleanNext(fates: seq<Fate>, k: nat, n: nat)
    requires k < n
    ensures Clean(fates, k + 1) <==> Clean(fates, k) && FateAt(Drop(fates, k), 0) == Done
    ensures Clean(fates, n) ==> Clean(fates, k + 1)
    ensures Drop(Drop(fates, k), 1) == Drop(fates, k + 1) && Drop(fates, 0) == fates && Clean(fates, 0)
  {
  }

  /** `roster_count / 2 + 1`: the number of distinct roster devices that must approve. */
  function Required(rosterCount: nat): nat {
    rosterCount / 2 + 1
  }

  lemma SubsetCardinality<T>(a: set<T>, b: set<T>)
    requires a <= b
    ensures |a| <= |b|
  {
    if a != {} {
      var x :| x in a;
      SubsetCardinality(a - {x}, b - {x});
    }
  }

  /** Two strict majorities of one roster share a device. */
  lemma MajoritiesMeet<T>(roster: set<T>, first: set<T>, second: set<T>) returns (common: T)
    requires first <= roster && second <= roster
    requires |first| >= Required(|roster|) && |second| >= Required(|roster|)
    ensures common in first && common in second
  {
    if first * second == {} {
      assert |first + second| == |first| + |second|;
      SubsetCardinality(first + second, roster);
    }
    common :| common in first * second;
  }

  /** They share one outside any set too small to hold all they must share. */
  lemma MajoritiesMeetOutside<T>(roster: set<T>, first: set<T>, second: set<T>, excluded: set<T>) returns (common: T)
    requires first <= roster && second <= roster
    requires |first| >= Required(|roster|) && |second| >= Required(|roster|)
    requires |excluded| + |roster| < 2 * Required(|roster|)
    ensures common in first && common in second && common !in excluded
  {
    SubsetCardinality(first + second, roster);
    assert |first + second| + |first * second| == |first| + |second|;
    if first * second <= excluded {
      SubsetCardinality(first * second, excluded);
    }
    common :| common in first * second && common !in excluded;
  }

  /** A subset as large as its superset is the whole of it. */
  lemma SameSizeSubset<T>(a: set<T>, b: set<T>)
    requires a <= b && |a| == |b|
    ensures a == b
  {
    forall x | x in b
      ensures x in a
    {
      if x !in a {
        SubsetCardinality(a, b - {x});
      }
    }
  }

  function Elements<T>(s: seq<T>): set<T> {
    set x | x in s
  }

  predicate Distinct<T(==)>(s: seq<T>) {
    forall i, j :: 0 <= i < j < |s| ==> s[i] != s[j]
  }

  lemma NextElement<T>(s: seq<T>, i: nat)
    requires i < |s|
    ensures Elements(s[..i + 1]) == Elements(s[..i]) + {s[i]}
    ensures s[i] in Elements(s[..i]) ==> !Distinct(s)
  {
    assert s[..i + 1] == s[..i] + [s[i]];
    if s[i] in Elements(s[..i]) {
      var k :| 0 <= k < i && s[k] == s[i];
    }
  }

  /** A sequence has at most as many distinct elements as places, and exactly as many when none repeats. */
  lemma {:induction false} DistinctByCount<T>(s: seq<T>)
    ensures |Elements(s)| <= |s|
    ensures |Elements(s)| == |s| <==> Distinct(s)
  {
    if s != [] {
      var last := |s| - 1;
      DistinctByCount(s[..last]);
      NextElement(s, last);
      assert s[..last + 1] == s;
    }
  }

  ghost predicate SortedBy<T(!new)>(key: T -> nat, s: seq<T>) {
    forall i, j :: 0 <= i < j < |s| ==> key(s[i]) < key(s[j])
  }

  /** Strictly sorted sequences with the same elements are the same sequence. */
  lemma {:induction false} SortedSequencesEqual<T(!new)>(key: T -> nat, a: seq<T>, b: seq<T>)
    requires SortedBy(key, a) && SortedBy(key, b)
    requires forall x :: x in a <==> x in b
    ensures a == b
  {
    assert a == [] || a[0] in a;
    assert b == [] || b[0] in b;
    if a != [] && b != [] {
      assert a[0] == b[0];
      forall x
        ensures x in a[1..] <==> x in b[1..]
      {
        if x in a[1..] {
          assert x in b && x != b[0];
        }
        if x in b[1..] {
          assert x in a && x != a[0];
        }
      }
      SortedSequencesEqual(key, a[1..], b[1..]);
    }
  }
}
