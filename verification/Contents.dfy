/** The map that a log stands for, and the words it uses. */
module Contents {
  import opened Arithmetic
  import opened Wrappers
  import opened Words
  import opened Format
  import opened Bytes
  import opened Entries
  import opened Log

  /** Whether an entry updates a key: a user entry for it, or its removal. */
  predicate Updates(f: Format, it: Item, key: nat)
    requires f.Supported()
  {
    KindOf(f, it.ws) == User(key) || KindOf(f, it.ws) == Internal(Remove(key))
  }

  /** The index of the last entry that updates a key, or -1. */
  function LastFor(f: Format, log: seq<Item>, key: nat): (k: int)
    requires f.Supported()
    ensures -1 <= k < |log|
    ensures k >= 0 ==> Updates(f, log[k], key)
    ensures forall j: nat :: k < j < |log| ==> !Updates(f, log[j], key)
  {
    hide Updates;
    if log == [] then -1
    else if Updates(f, log[|log| - 1], key) then |log| - 1
    else LastFor(f, log[..|log| - 1], key)
  }

  /** The user entry that a log holds for a key. */
  function Lookup(f: Format, log: seq<Item>, key: nat): (r: Option<seq<Word>>)
    requires f.Supported()
    ensures r.Some? ==> KindOf(f, r.value) == User(key)
  {
    var k := LastFor(f, log, key);
    if k >= 0 && KindOf(f, log[k].ws).User? then Some(log[k].ws) else None
  }

  /** The map from keys to values that a log stands for: its updates applied in order. */
  function Content(f: Format, log: seq<Item>): map<nat, seq<byte>>
    requires f.Supported()
  {
    map key: nat | key <= MAX_KEY && Lookup(f, log, key).Some? :: ValueOf(f, Lookup(f, log, key).value)
  }

  lemma SameContent(f: Format, log: seq<Item>, log': seq<Item>)
    requires f.Supported()
    requires forall key: nat :: key <= MAX_KEY ==> Lookup(f, log', key) == Lookup(f, log, key)
    ensures Content(f, log') == Content(f, log)
  {
    hide KindOf, ValueOf, Lookup;
  }

  /** The last entry for a key decides what is looked up. */
  lemma LookupAt(f: Format, log: seq<Item>, key: nat, k: nat)
    requires f.Supported() && k < |log| && Updates(f, log[k], key)
    requires forall j: nat :: k < j < |log| ==> !Updates(f, log[j], key)
    ensures Lookup(f, log, key) == if KindOf(f, log[k].ws).User? then Some(log[k].ws) else None
  {
    hide KindOf, Updates;
    var i := LastFor(f, log, key);
    assert i >= k;
  }

  lemma LookupNone(f: Format, log: seq<Item>, key: nat)
    requires f.Supported()
    requires forall j: nat :: j < |log| ==> !Updates(f, log[j], key)
    ensures Lookup(f, log, key) == None
  {
    hide KindOf, Updates;
  }

  /** Appending an entry only changes what is looked up for the key it updates. */
  lemma LookupAppend(f: Format, log: seq<Item>, it: Item, key: nat)
    requires f.Supported()
    ensures Lookup(f, log + [it], key) ==
            if KindOf(f, it.ws) == User(key) then Some(it.ws)
            else if KindOf(f, it.ws) == Internal(Remove(key)) then None
            else Lookup(f, log, key)
  {
    hide KindOf;
    assert (log + [it])[..|log|] == log;
  }

  // ---------------------------------------------------------------------------------------------
  // Used words

  function UsedBy(f: Format, it: Item): nat
    requires f.Supported()
  {
    if KindOf(f, it.ws).User? then |it.ws| else 0
  }

  /** The number of words of the user entries of a log. */
  function Used(f: Format, log: seq<Item>): nat
    requires f.Supported()
  {
    if log == [] then 0 else Used(f, log[..|log| - 1]) + UsedBy(f, log[|log| - 1])
  }

  lemma {:induction false} UsedConcat(f: Format, a: seq<Item>, b: seq<Item>)
    requires f.Supported()
    ensures Used(f, a + b) == Used(f, a) + Used(f, b)
  {
    hide KindOf, UsedBy;
    if b == [] {
      assert a + b == a;
    } else {
      UsedConcat(f, a, b[..|b| - 1]);
      assert (a + b)[..|a + b| - 1] == a + b[..|b| - 1];
    }
  }

  lemma {:induction false} UsedUpdate(f: Format, log: seq<Item>, k: nat, it: Item)
    requires f.Supported() && k < |log|
    ensures Used(f, log[k := it]) == Used(f, log) - UsedBy(f, log[k]) + UsedBy(f, it)
    decreases |log|
  {
    hide KindOf, UsedBy;
    var n := |log| - 1;
    if k < n {
      UsedUpdate(f, log[..n], k, it);
      assert log[k := it][..n] == log[..n][k := it];
    } else {
      assert log[k := it][..n] == log[..n];
    }
  }

  /** The used words of some first entries fit between the head and the position after them. */
  lemma {:induction false} UsedFits(f: Format, v: View, n: nat)
    requires Formed(f, v) && n <= |v.log|
    ensures PosAt(v, 0) + Used(f, v.log[..n]) <= PosAt(v, n)
  {
    hide KindOf, MarksOk, Parses;
    if n > 0 {
      UsedFits(f, v, n - 1);
      assert v.log[..n][..n - 1] == v.log[..n - 1];
      PosBefore(v, n - 1, n);
    }
  }

  lemma UsedPrefix(f: Format, log: seq<Item>, n: nat)
    requires f.Supported() && n <= |log|
    ensures Used(f, log[..n]) <= Used(f, log)
    ensures Used(f, log) == Used(f, log[..n]) + Used(f, log[n..])
  {
    hide Used;
    assert log == log[..n] + log[n..];
    UsedConcat(f, log[..n], log[n..]);
  }

  // ---------------------------------------------------------------------------------------------
  // Room for compaction

  /** The log does not extend past the virtual capacity. */
  predicate Tight(f: Format, v: View)
    requires f.Supported()
  {
    v.tail <= HeadAt(v, 0) + f.V()
  }

  /** The words used before a page of the window. */
  function UsedBefore(f: Format, v: View, i: nat): nat
    requires f.Supported()
  {
    if i < |v.marks| && v.marks[i] <= |v.log| then Used(f, v.log[..v.marks[i]]) else Used(f, v.log)
  }

  /** Compacting the next `i` pages would not move the tail past the last page of its window. */
  ghost predicate FitsAfter(f: Format, v: View, i: nat)
    requires f.Supported()
  {
    v.tail + UsedBefore(f, v, i) + i <= Start(f, v, i + f.numPages - 1)
  }

  /** Compacting the next `i` pages would leave a log that is only so much longer than the virtual capacity. */
  ghost predicate NearAfter(f: Format, v: View, i: nat)
    requires f.Supported()
  {
    v.tail + UsedBefore(f, v, i) + i <= HeadAt(v, i) + f.V() + if v.lean then f.Drift() else f.numPages - 1
  }

  /**
   The store can always be compacted: so many pages can be compacted in a row that the log is within the
   virtual capacity afterwards. A lean log is within the capacity.
   */
  ghost predicate Roomy(f: Format, v: View)
    requires f.Supported()
  {
    && Used(f, v.log) <= (if v.lean then f.C() else f.V())
    && v.tail <= Start(f, v, f.numPages - 1)
    && (forall i: nat :: 1 <= i < f.numPages ==> FitsAfter(f, v, i))
    && (forall i: nat :: i < f.numPages - 1 ==> NearAfter(f, v, i))
  }

  lemma VirtSizes(f: Format)
    requires f.Supported()
    ensures f.V() + f.M() == (f.numPages - 1) * f.Q() - (f.numPages - 1)
    ensures f.C() + f.numPages == f.V()
  {
    f.VirtSizeLowerBound();
    MulSum(f.Q(), 1, f.numPages - 1);
    MulSum(f.numPages - 1, 0, f.Q());
  }

  lemma StartSum(f: Format, v: View, i: nat, n: nat)
    requires f.Supported()
    ensures Start(f, v, i + n) == Start(f, v, i) + n * f.Q()
  {
    MulSum(v.first + i, n, f.Q());
  }

  /** Compaction fits from every state whose log is within the virtual capacity. */
  lemma TightIsRoomy(f: Format, v: View)
    requires Formed(f, v) && Tight(f, v) && (v.lean ==> Used(f, v.log) <= f.C())
    ensures Roomy(f, v)
  {
    hide KindOf, Used, Contiguous, Parses, Start, Format.Q, Format.M, Format.V, Format.C, HeadAt, PosAt;
    VirtSizes(f);
    assert MarkOk(f, v, 0);
    StartSum(f, v, 0, f.numPages - 1);
    assert HeadAt(v, 0) == PosAt(v, 0) by { HeadIsFirst(f, v); }
    UsedFits(f, v, |v.log|);
    assert v.log[..|v.log|] == v.log && PosAt(v, |v.log|) == v.tail by { TailIsLast(v); }
    forall i: nat | 1 <= i < f.numPages ensures FitsAfter(f, v, i) {
      StartSum(f, v, i, f.numPages - 1);
      UsedBeforeFits(f, v, i);
    }
    forall i: nat | i < f.numPages - 1 ensures NearAfter(f, v, i) {
      TightNear(f, v, i);
    }
  }

  lemma TailIsLast(v: View)
    ensures PosAt(v, |v.log|) == v.tail
  {
  }

  /** Used words that are few enough are recovered by compacting `M + 1` pages. */
  lemma TightNear(f: Format, v: View, i: nat)
    requires Formed(f, v) && Tight(f, v) && (v.lean ==> Used(f, v.log) <= f.C()) && i < f.numPages - 1
    ensures NearAfter(f, v, i)
  {
    hide KindOf, Used, Contiguous, Parses, Start, Format.Q, Format.M, Format.V, Format.C, HeadAt, PosAt;
    VirtSizes(f);
    HeadIsFirst(f, v);
    UsedBeforeFits(f, v, i);
    if v.lean && i > f.M() {
      assert MarkOk(f, v, 0);
      StartSum(f, v, 0, i);
      MulMonotone(f.Q() - 1, f.M() + 1, i);
      MulSum(i, f.Q(), 1);
      MulSum(f.Q(), 1, i);
      UsedBeforeBound(f, v, i);
    }
  }

  lemma UsedBeforeBound(f: Format, v: View, i: nat)
    requires Formed(f, v)
    ensures UsedBefore(f, v, i) <= Used(f, v.log)
    ensures i < |v.marks| ==> Start(f, v, i) <= HeadAt(v, i)
    ensures i >= |v.marks| ==> HeadAt(v, i) == v.tail
  {
    hide KindOf, Used, Contiguous, Parses, Start, Format.Q, Format.M;
    if i < |v.marks| {
      assert MarkOk(f, v, i);
      UsedPrefix(f, v.log, v.marks[i]);
    }
  }

  lemma HeadIsFirst(f: Format, v: View)
    requires Formed(f, v)
    ensures HeadAt(v, 0) == PosAt(v, 0)
  {
  }

  lemma UsedBeforeFits(f: Format, v: View, i: nat)
    requires Formed(f, v)
    ensures PosAt(v, 0) + UsedBefore(f, v, i) <= Start(f, v, i) + f.M()
    ensures PosAt(v, 0) + UsedBefore(f, v, i) <= HeadAt(v, i)
  {
    hide KindOf, Used, Contiguous, Parses, Start, Format.Q, Format.M;
    if i < |v.marks| {
      assert MarkOk(f, v, i);
      UsedFits(f, v, v.marks[i]);
    } else {
      StartOrder(f, v, |v.marks|, i);
      UsedFits(f, v, |v.log|);
      assert v.log[..|v.log|] == v.log;
    }
  }
}
