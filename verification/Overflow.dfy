/**
 The limit of compaction: the compact info records the distance between head and tail, but only
 distances up to `V + M` are read back. Each compaction of a page without any wasted word makes the
 distance one word longer, so that many of them in a row go beyond. Exactly the formats whose capacity
 is more than the words of `M + 1` pages are concerned.
 */
module Overflow {
  import opened Wrappers
  import opened Words
  import opened Format
  import opened Entries
  import opened Flash
  import opened Log
  import opened States
  import opened Appending
  import opened Contents
  import opened Stages
  import opened Compaction
  import opened Migration
  import opened Phases
  import opened Capacity

  /** No word is wasted before the head of a page of the window. */
  ghost predicate FullPages(f: Format, v: View, j: nat)
    requires f.Supported()
  {
    && j < |v.marks|
    && forall i: nat :: i <= j ==> HeadAt(v, 0) + UsedBefore(f, v, i) == HeadAt(v, i)
  }

  /** Compacting a page without wasted words makes the distance between head and tail one word longer. */
  lemma FullNext(f: Format, v: View, j: nat)
    requires Formed(f, v) && Complete(f, v) && Roomy(f, v) && FullPages(f, v, j) && j > 0
    ensures Formed(f, Next(f, v)) && Complete(f, Next(f, v)) && Roomy(f, Next(f, v)) && FullPages(f, Next(f, v), j - 1)
    ensures Next(f, v).tail - HeadAt(Next(f, v), 0) == v.tail - HeadAt(v, 0) + 1
    ensures Next(f, v).first == v.first + 1
  {
    hide KindOf, Contiguous, MarksOk, Parses, Start, Used, EraseWord, Copies, Compacted, Next, HeadAt, UsedBefore,
         Format.Q, Dropped;
    var x, y := Compacted(f, v), Next(f, v);
    CompactedFormed(f, v);
    NextFormed(f, v);
    NextKeeps(f, v);
    CompactedUsed(f, v);
    CopiesSum(f, v);
    DroppedPos(f, v);
    MarksCount(f, v);
    KeptUsed(f, v, 0);
    forall i: nat | i <= j - 1 ensures HeadAt(y, 0) + UsedBefore(f, y, i) == HeadAt(y, i) {
      KeptUsed(f, v, i);
      NextUsedBefore(f, v, i);
    }
    KeptUsed(f, v, j - 1);
    NextMarks(f, v, j - 1);
  }

  lemma NextMarks(f: Format, v: View, j: nat)
    requires f.Supported() && j < |Compacted(f, v).marks|
    ensures j < |Next(f, v).marks| && Next(f, v).marks == Compacted(f, v).marks
  {
    hide EraseWord, Compacted, Dropped;
  }

  lemma NextFormed(f: Format, v: View)
    requires Formed(f, v) && Complete(f, v) && Roomy(f, v)
    ensures Formed(f, Next(f, v)) && Complete(f, Next(f, v)) && Roomy(f, Next(f, v))
  {
    hide KindOf, Contiguous, MarksOk, Parses, EraseWord, Compacted, Roomy;
    var x := Compacted(f, v);
    CompactedFormed(f, v);
    CompactedRoomy(f, v);
    NextIs(f, v);
    PaddedKind(f, EraseWord(f, v));
    assert FirstCleared([EraseWord(f, v)], 0) == [ClearBit(EraseWord(f, v), 0)];
    var ws: seq<Word> := [ClearBit(EraseWord(f, v), 0)];
    SetItemFormed(f, x, |x.log| - 1, ws);
    SetItemWeaker(f, x, |x.log| - 1, ws);
    WeakerRoomy(f, x, Next(f, v));
    forall k: nat | k < |x.log| ensures !Kinds(f, Next(f, v), k).TornUser? && !Kinds(f, Next(f, v), k).TornEntry? {
      if k < |x.log| - 1 { assert Next(f, v).log[k] == x.log[k] && Kinds(f, Next(f, v), k) == Kinds(f, x, k); }
    }
  }

  lemma NextUsedBefore(f: Format, v: View, i: nat)
    requires Formed(f, v) && Complete(f, v) && i < |Dropped(f, v).marks|
    ensures UsedBefore(f, Next(f, v), i) == UsedBefore(f, Compacted(f, v), i)
  {
    hide KindOf, Contiguous, MarksOk, Parses, EraseWord, Compacted, Used, Copies, Dropped;
    var x := Compacted(f, v);
    KeptUsed(f, v, i);
    EraseAt(f, v);
    EraseKind(f, v);
    PaddedKind(f, EraseWord(f, v));
    var k := |x.log| - 1;
    var it := Item(x.log[k].pos, [ClearBit(EraseWord(f, v), 0)]);
    UsedUpdate(f, x.log, k, it);
    var n := x.marks[i];
    if n <= k {
      assert x.log[k := it][..n] == x.log[..n];
    } else if n == k + 1 {
      assert x.log[k := it][..n] == x.log[k := it] && x.log[..n] == x.log;
    }
  }

  /** Once a log is as long as can be recorded, compacting one more page is refused. */
  lemma LongDistance(f: Format, v: View)
    requires Formed(f, v) && |v.marks| > 1 && v.tail == HeadAt(v, 0) + f.V() + f.M() + 1
    ensures Distance(f, v) > f.V() + f.M()
  {
    hide KindOf, Contiguous, MarksOk, Parses, Start, HeadAt, Format.V, Format.M, Dropped;
    DroppedPos(f, v);
  }

  lemma ShortDistance(f: Format, v: View)
    requires Formed(f, v) && |v.marks| > 1 && v.tail <= HeadAt(v, 0) + f.V() + f.M()
    ensures Distance(f, v) <= f.V() + f.M()
  {
    hide KindOf, Contiguous, MarksOk, Parses, Start, HeadAt, Format.V, Format.M, Dropped;
    DroppedPos(f, v);
  }

  /** Compacting pages without wasted words in a row ends in a distance that is refused. */
  lemma {:induction false} FullVerdict(f: Format, v: View, j: nat, length: nat)
    requires Formed(f, v) && Complete(f, v) && Roomy(f, v) && FullPages(f, v, j) && length > 0
    requires |v.marks| > j + 1 && j <= f.M() + 1 && v.tail == HeadAt(v, 0) + f.V() + f.M() + 1 - j
    requires forall p: nat :: p <= v.first + j ==> CycleIndex(f, p) < f.maxPageErases
    ensures Verdict(f, v, length) == Err(InvalidStorage)
    decreases j
  {
    hide KindOf, Contiguous, MarksOk, Parses, Start, Roomy, Next, HeadAt, UsedBefore, Format.Q, Format.V, Format.M,
         FullPages, CycleIndex, Distance;
    if j == 0 {
      LongDistance(f, v);
    } else {
      ShortDistance(f, v);
      FullNext(f, v, j);
      MoreMarks(f, v);
      FullVerdict(f, Next(f, v), j - 1, length);
    }
  }

  lemma MoreMarks(f: Format, v: View)
    requires Formed(f, v) && Complete(f, v)
    ensures |Next(f, v).marks| >= |v.marks| - 1
  {
    hide KindOf, Contiguous, MarksOk, Parses, Start, Next, Compacted, Dropped, HeadAt;
    MarksCount(f, v);
    var n := |v.marks| - 2;
    if n >= 0 {
      KeptUsed(f, v, n);
      NextMarks(f, v, n);
    }
  }

  /** A format of small capacity is not concerned, whatever the log, as long as it was within the capacity. */
  lemma {:induction false} VerdictFits(f: Format, v: View, length: nat)
    requires Formed(f, v) && Complete(f, v) && Roomy(f, v) && v.lean && !f.Overflows()
    ensures Verdict(f, v, length) != Err(InvalidStorage)
    decreases CyclesLeft(f, v)
  {
    hide KindOf, Contiguous, MarksOk, Parses, Roomy, Next, HeadAt, Format.Q, Format.V, Format.M, Distance, Crowded,
         CyclesLeft;
    FreedStep(f, v, length);
    if Compactable(f, v) {
      DistanceNear(f, v);
      NextFormed(f, v);
      NextLean(f, v);
      NextFirst(f, v);
      VerdictFits(f, Next(f, v), length);
    }
  }

  lemma OnceFits(f: Format, v: View, length: nat)
    requires Formed(f, v) && Complete(f, v) && Roomy(f, v) && v.lean && !f.Overflows()
    ensures FreedOnce(f, v, length).1 != Err(InvalidStorage)
  {
    hide KindOf, Contiguous, MarksOk, Parses, Roomy, Next, HeadAt, Format.Q, Format.V, Format.M, Distance, Crowded;
    if Compactable(f, v) { DistanceNear(f, v); }
  }
}
