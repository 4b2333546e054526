/** Naming a new revision (`desktop/src/org.rs`). */
module Revisions {
  import opened Collections
  import opened Numerals

  function Label(day: string, n: nat): string {
    day + "." + Decimal(n)
  }

  lemma LabelsDiffer(day: string, m: nat, n: nat)
    requires Label(day, m) == Label(day, n)
    ensures m == n
  {
    var prefix := day + ".";
    assert Decimal(m) == Label(day, m)[|prefix|..];
    assert Decimal(n) == Label(day, n)[|prefix|..];
    DecimalReadsBack(m);
    DecimalReadsBack(n);
  }

  /** The first `n` labels of the day. */
  function Labels(day: string, n: nat): (labels: set<string>)
    ensures |labels| == n
    ensures forall l :: l in labels <==> exists k: nat :: 1 <= k <= n && l == Label(day, k)
  {
    if n == 0 then {}
    else
      var before := Labels(day, n - 1);
      assert Label(day, n) !in before by {
        if Label(day, n) in before {
          var k: nat :| 1 <= k <= n - 1 && Label(day, n) == Label(day, k);
          LabelsDiffer(day, n, k);
        }
      }
      before + {Label(day, n)}
  }

  lemma {:induction false} SetOfSeq(revisions: seq<string>)
    ensures |set r | r in revisions| <= |revisions|
  {
    if revisions != [] {
      var init := revisions[..|revisions| - 1];
      SetOfSeq(init);
      assert (set r | r in revisions) == (set r | r in init) + {revisions[|revisions| - 1]};
    }
  }

  /** Pigeonhole: as many used labels as there are candidates already passed. */
  lemma PassedCandidates(day: string, revisions: seq<string>, n: nat)
    requires forall k: nat :: 1 <= k <= n ==> Label(day, k) in revisions
    ensures n <= |revisions|
  {
    var used := set r | r in revisions;
    SetOfSeq(revisions);
    SmallerSubset(Labels(day, n), used);
  }

  /** Every candidate before `n` is used. */
  predicate AllUsedBefore(day: string, revisions: seq<string>, n: nat) {
    forall k: nat :: 1 <= k < n ==> Label(day, k) in revisions
  }

  /** The search from candidate `n` on. */
  function Search(day: string, revisions: seq<string>, n: nat): (found: nat)
    requires n >= 1 && AllUsedBefore(day, revisions, n)
    ensures n <= found <= |revisions| + 1
    ensures Label(day, found) !in revisions && AllUsedBefore(day, revisions, found)
    decreases |revisions| + 1 - n
  {
    PassedCandidates(day, revisions, n - 1);
    if Label(day, n) in revisions then
      PassedCandidates(day, revisions, n);
      Search(day, revisions, n + 1)
    else n
  }

  predicate IsLeastUnused(day: string, revisions: seq<string>, n: nat) {
    n >= 1 && Label(day, n) !in revisions && AllUsedBefore(day, revisions, n)
  }

  /** `next_revision` for a day: its least unused label, found among the first
      (number of generations + 1) candidates. */
  function NextRevision(revisions: seq<string>, day: string): (revision: string)
    ensures exists n: nat :: n <= |revisions| + 1 && IsLeastUnused(day, revisions, n) && revision == Label(day, n)
  {
    var n := Search(day, revisions, 1);
    assert IsLeastUnused(day, revisions, n);
    Label(day, n)
  }

  /** The day's first labels. */
  lemma FirstRevisions(day: string)
    ensures NextRevision([], day) == day + ".1" && NextRevision([day + ".1"], day) == day + ".2"
  {
    assert Decimal(1) == "1" && Decimal(2) == "2";
    assert Label(day, 1) == day + ".1" && Label(day, 2) == day + ".2";
    var one := [day + ".1"];
    LabelAt(day, [], 1);
    assert Label(day, 1) in one;
    assert Label(day, 2) !in one by {
      assert one == [Label(day, 1)];
      if Label(day, 2) == Label(day, 1) {
        LabelsDiffer(day, 1, 2);
      }
    }
    LabelAt(day, one, 2);
  }

  /** Only one label is the least unused. */
  lemma LabelAt(day: string, revisions: seq<string>, n: nat)
    requires IsLeastUnused(day, revisions, n)
    ensures NextRevision(revisions, day) == Label(day, n)
  {
    var m: nat :| IsLeastUnused(day, revisions, m) && NextRevision(revisions, day) == Label(day, m);
    assert IsLeastUnused(day, revisions, m);
    assert AllUsedBefore(day, revisions, m);
    assert AllUsedBefore(day, revisions, n);
    assert m < n ==> Label(day, m) in revisions;
    assert n < m ==> Label(day, n) in revisions;
  }
}
