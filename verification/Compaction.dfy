/**
 Compaction in terms of views: the entries of the first page that are still needed are appended to
 the log, followed by an entry that records that the page is to be erased.
 */
module Compaction {
  import opened Wrappers
  import opened Words
  import opened Format
  import opened Entries
  import opened Flash
  import opened Log
  import opened States
  import opened Appending
  import opened Contents
  import opened Stages
  import opened Recovering

  /** The number of entries that are in the first page, before the first entry of the next one. */
  function Gone(v: View): nat {
    if |v.marks| > 1 then v.marks[1] else |v.log|
  }

  /** The view from the second page on. */
  function Dropped(f: Format, v: View): View
    requires f.Supported()
  {
    var n := Gone(v);
    if |v.marks| > 1 then
      View(v.first + 1, if n <= |v.log| then v.log[n..] else [], v.tail,
           seq<nat>(|v.marks| - 1,
                    i requires 0 <= i < |v.marks| - 1 => if v.marks[i + 1] >= n then v.marks[i + 1] - n else 0), v.lean)
    else View(v.first + 1, [], Start(f, v, 1), [], v.lean)
  }

  lemma GoneBound(f: Format, v: View)
    requires Formed(f, v)
    ensures Gone(v) <= |v.log|
    ensures |v.marks| > 1 ==> Start(f, v, 1) < v.tail && forall i: nat :: 1 <= i < |v.marks| ==>
              Gone(v) <= v.marks[i] <= |v.log|
  {
    hide Parses, Start, KindOf, HeadAt;
    if |v.marks| > 1 {
      StartOrder(f, v, 1, |v.marks| - 1);
      forall i: nat | 1 <= i < |v.marks| ensures Gone(v) <= v.marks[i] <= |v.log| {
        assert MarkOk(f, v, 1) && MarkOk(f, v, i);
        if i > 1 {
          MarkOrder(f, v, 1, i);
          HeadIs(v, 1);
          HeadIs(v, i);
          PosBefore(v, v.marks[1], v.marks[i]);
        }
      }
    }
  }

  lemma HeadIs(v: View, i: nat)
    requires i < |v.marks|
    ensures HeadAt(v, i) == PosAt(v, v.marks[i])
  {
  }

  lemma DroppedPos(f: Format, v: View)
    requires Formed(f, v)
    ensures var d := Dropped(f, v);
            && d.first == v.first + 1 && v.tail <= d.tail && Start(f, v, 1) <= d.tail
            && (forall i: nat :: Start(f, d, i) == Start(f, v, i + 1))
            && (|v.marks| > 1 ==>
                  && d.tail == v.tail && |d.log| == |v.log| - Gone(v) && |d.marks| == |v.marks| - 1
                  && (forall k: nat :: k < |d.log| ==> d.log[k] == v.log[k + Gone(v)])
                  && (forall k: nat :: k <= |d.log| ==> PosAt(d, k) == PosAt(v, k + Gone(v)))
                  && (forall i: nat :: i < |d.marks| ==> d.marks[i] == v.marks[i + 1] - Gone(v))
                  && (forall i: nat :: i < |d.marks| ==> HeadAt(d, i) == HeadAt(v, i + 1)))
  {
    hide Contiguous, Parses, Start, KindOf;
    GoneBound(f, v);
    var d := Dropped(f, v);
    forall i: nat ensures Start(f, d, i) == Start(f, v, i + 1) {
      StartShift(f, v, d, i);
    }
  }

  lemma StartShift(f: Format, v: View, d: View, i: nat)
    requires f.Supported() && d.first == v.first + 1
    ensures Start(f, d, i) == Start(f, v, i + 1)
  {
  }

  lemma DroppedFramed(f: Format, v: View)
    requires Formed(f, v)
    ensures Framed(f, Dropped(f, v))
    ensures Complete(f, v) ==> Complete(f, Dropped(f, v))
  {
    hide Start, KindOf, Format.M, Format.Q, Parses, MarkOk, NoUserBeforeMark, Complete;
    GoneBound(f, v);
    DroppedPos(f, v);
    if |v.marks| > 1 {
      DroppedContiguous(f, v);
      DroppedMarks(f, v);
      DroppedParses(f, v);
    } else {
      NothingDropped(f, v);
    }
  }

  lemma NothingDropped(f: Format, v: View)
    requires f.Supported() && |v.marks| <= 1
    ensures Parses(f, Dropped(f, v)) && Complete(f, Dropped(f, v))
  {
    hide Start, KindOf;
  }

  lemma DroppedMarks(f: Format, v: View)
    requires Formed(f, v) && |v.marks| > 1
    ensures forall i: nat :: i < |Dropped(f, v).marks| ==>
              MarkOk(f, Dropped(f, v), i) && NoUserBeforeMark(f, Dropped(f, v), i)
  {
    hide Start, KindOf, Format.M, Format.Q, Contiguous, Parses;
    var d, n := Dropped(f, v), Gone(v);
    GoneBound(f, v);
    DroppedPos(f, v);
    assert forall k: nat :: k < |d.log| ==> Kinds(f, d, k) == Kinds(f, v, k + n);
    forall i: nat | i < |d.marks| ensures MarkOk(f, d, i) && NoUserBeforeMark(f, d, i) {
      assert MarkOk(f, v, i + 1) && NoUserBeforeMark(f, v, i + 1);
    }
  }

  lemma DroppedParses(f: Format, v: View)
    requires Formed(f, v) && |v.marks| > 1
    ensures Parses(f, Dropped(f, v)) && (Complete(f, v) ==> Complete(f, Dropped(f, v)))
  {
    hide Start, KindOf, Format.M, Format.Q, Contiguous, MarksOk;
    var d, n := Dropped(f, v), Gone(v);
    GoneBound(f, v);
    DroppedPos(f, v);
    forall k: nat | k < |d.log|
      ensures !Kinds(f, d, k).Bad? && |d.log[k].ws| <= f.M() + 1
      ensures Kinds(f, d, k).TornUser? || Kinds(f, d, k).TornEntry? ==> k == |d.log| - 1
      ensures Complete(f, v) ==> !Kinds(f, d, k).TornUser? && !Kinds(f, d, k).TornEntry?
    {
      assert d.log[k] == v.log[k + n] && Kinds(f, v, k + n) == Kinds(f, d, k);
    }
  }

  lemma DroppedContiguous(f: Format, v: View)
    requires Formed(f, v) && |v.marks| > 1
    ensures Contiguous(Dropped(f, v))
  {
    hide Start, KindOf, MarksOk, Parses;
    GoneBound(f, v);
    DroppedPos(f, v);
    var d, n := Dropped(f, v), Gone(v);
    forall j: nat, k: nat | j < k < |d.log|
      ensures End(d.log[j]) <= d.log[k].pos && (k == j + 1 ==> End(d.log[j]) == d.log[k].pos)
    {
      assert d.log[j] == v.log[j + n] && d.log[k] == v.log[k + n];
    }
    forall k: nat | k < |d.log| ensures d.log[k].ws != [] && End(d.log[k]) <= d.tail {
      assert d.log[k] == v.log[k + n];
    }
  }

  // ---------------------------------------------------------------------------------------------
  // The entries appended by a compaction

  /** The words of the user entries of a log. */
  function Moved(f: Format, log: seq<Item>): seq<seq<Word>>
    requires f.Supported()
  {
    if log == [] then []
    else
      var it := log[|log| - 1];
      Moved(f, log[..|log| - 1]) + if KindOf(f, it.ws).User? then [it.ws] else []
  }

  function EraseWord(f: Format, v: View): (w: Word)
    requires f.Supported()
  {
    var e := BuildInternal(Erase(PageIndex(f, v.first)));
    if e.Ok? then e.value else ZERO_WORD
  }

  lemma EraseKind(f: Format, v: View)
    requires f.Supported()
    ensures BuildInternal(Erase(PageIndex(f, v.first))) == Ok(EraseWord(f, v))
    ensures KindOf(f, [EraseWord(f, v)]) == Internal(Erase(PageIndex(f, v.first)))
  {
    hide KindOf, BuildInternal;
    InternalKind(f, Erase(PageIndex(f, v.first)));
  }

  /** What a compaction of the first page appends. */
  function Copies(f: Format, v: View): (es: seq<seq<Word>>)
    requires f.Supported()
    ensures es != []
  {
    Moved(f, if Gone(v) <= |v.log| then v.log[..Gone(v)] else []) + [[EraseWord(f, v)]]
  }

  /** A view once some entries have been appended. */
  function Tower(f: Format, d: View, es: seq<seq<Word>>, c: nat): View
    requires f.Supported() && c <= |es|
  {
    if c == 0 then d else Append(f, Tower(f, d, es, c - 1), es[c - 1])
  }

  /** The log that a compaction leads to, before the erasure of the page is recorded as done. */
  function Compacted(f: Format, v: View): View
    requires f.Supported()
  {
    Tower(f, Dropped(f, v), Copies(f, v), |Copies(f, v)|)
  }

  ghost predicate AllAppendable(f: Format, es: seq<seq<Word>>)
    requires f.Supported()
  {
    forall c: nat :: c < |es| ==> Appendable(f, es[c]) && !IsTorn(KindOf(f, es[c]))
  }

  lemma {:induction false} MovedAppendable(f: Format, v: View, n: nat)
    requires Formed(f, v) && n <= |v.log|
    ensures AllAppendable(f, Moved(f, v.log[..n]))
    ensures forall c: nat :: c < |Moved(f, v.log[..n])| ==> KindOf(f, Moved(f, v.log[..n])[c]).User?
  {
    hide KindOf, MarksOk, Contiguous, Format.M;
    if n > 0 {
      MovedAppendable(f, v, n - 1);
      assert v.log[..n][..n - 1] == v.log[..n - 1];
      EntrySize(f, v, n - 1);
    }
  }

  lemma CopiesAppendable(f: Format, v: View)
    requires Formed(f, v)
    ensures AllAppendable(f, Copies(f, v))
    ensures forall c: nat :: c < |Copies(f, v)| - 1 ==> KindOf(f, Copies(f, v)[c]).User?
    ensures Copies(f, v)[|Copies(f, v)| - 1] == [EraseWord(f, v)]
  {
    hide KindOf, MarksOk, Contiguous, Parses, Moved, EraseWord;
    GoneBound(f, v);
    MovedAppendable(f, v, Gone(v));
    EraseKind(f, v);
    f.SizeBounds();
  }

  lemma {:induction false} TowerFramed(f: Format, d: View, es: seq<seq<Word>>, c: nat)
    requires Framed(f, d) && Complete(f, d) && c <= |es| && AllAppendable(f, es)
    ensures Framed(f, Tower(f, d, es, c)) && Complete(f, Tower(f, d, es, c))
    ensures c > 0 ==> Formed(f, Tower(f, d, es, c))
    ensures Tower(f, d, es, c).first == d.first && |Tower(f, d, es, c).log| == |d.log| + c
  {
    hide KindOf, MarksOk, Contiguous, Parses, Start, Format.M;
    if c > 0 {
      TowerFramed(f, d, es, c - 1);
      AppendFormed(f, Tower(f, d, es, c - 1), es[c - 1]);
      AppendComplete(f, Tower(f, d, es, c - 1), es[c - 1]);
    }
  }

  lemma AppendComplete(f: Format, v: View, ws: seq<Word>)
    requires f.Supported() && Complete(f, v) && !IsTorn(KindOf(f, ws))
    ensures Complete(f, Append(f, v, ws))
  {
    hide KindOf, Start;
    AppendKinds(f, v, ws);
  }

  function Sum(es: seq<seq<Word>>): nat {
    if es == [] then 0 else Sum(es[..|es| - 1]) + |es[|es| - 1]|
  }

  lemma {:induction false} TowerTail(f: Format, d: View, es: seq<seq<Word>>, c: nat)
    requires f.Supported() && c <= |es|
    ensures Tower(f, d, es, c).tail == d.tail + Sum(es[..c])
  {
    hide KindOf, Start;
    if c > 0 {
      TowerTail(f, d, es, c - 1);
      assert es[..c][..c - 1] == es[..c - 1];
    }
  }

  /** The entries of a tower stay where they are while it grows. */
  lemma {:induction false} TowerGrows(f: Format, d: View, es: seq<seq<Word>>, c: nat, c': nat)
    requires f.Supported() && c <= c' <= |es|
    ensures |Tower(f, d, es, c).log| == |d.log| + c
    ensures |Tower(f, d, es, c').log| == |d.log| + c'
    ensures Tower(f, d, es, c').log[..|d.log| + c] == Tower(f, d, es, c).log
    ensures c < c' ==> Tower(f, d, es, c').log[|d.log| + c] == Item(Tower(f, d, es, c).tail, es[c])
    decreases c'
  {
    hide KindOf, Start;
    if c == c' {
      if c > 0 { TowerGrows(f, d, es, c - 1, c - 1); }
      assert Tower(f, d, es, c).log[..|d.log| + c] == Tower(f, d, es, c).log;
    } else {
      TowerGrows(f, d, es, c, c' - 1);
      var t := Tower(f, d, es, c' - 1);
      assert Tower(f, d, es, c').log == t.log + [Item(t.tail, es[c' - 1])];
      assert (t.log + [Item(t.tail, es[c' - 1])])[..|d.log| + c] == t.log[..|d.log| + c];
    }
  }

  lemma {:induction false} MovedSum(f: Format, log: seq<Item>)
    requires f.Supported()
    ensures Sum(Moved(f, log)) == Used(f, log)
  {
    hide KindOf;
    if log != [] {
      var n := |log| - 1;
      MovedSum(f, log[..n]);
      var es := Moved(f, log[..n]);
      if KindOf(f, log[n].ws).User? {
        assert (es + [log[n].ws])[..|es|] == es;
      } else {
        assert es + [] == es;
      }
    }
  }

  lemma {:induction false} SumPrefix(es: seq<seq<Word>>, c: nat)
    requires c <= |es|
    ensures Sum(es[..c]) <= Sum(es)
    ensures c < |es| ==> Sum(es[..c]) + |es[c]| <= Sum(es)
    decreases |es|
  {
    if c == |es| {
      assert es[..c] == es;
    } else {
      var n := |es| - 1;
      if c < n {
        SumPrefix(es[..n], c);
        assert es[..n][..c] == es[..c];
      }
    }
  }

  lemma CopiesSum(f: Format, v: View)
    requires Formed(f, v)
    ensures Sum(Copies(f, v)) == UsedBefore(f, v, 1) + 1
  {
    hide KindOf, MarksOk, Contiguous, Parses, Moved, EraseWord, Used;
    GoneBound(f, v);
    var es := Copies(f, v);
    MovedSum(f, v.log[..Gone(v)]);
    assert es[..|es| - 1] == Moved(f, v.log[..Gone(v)]);
    assert v.log[..|v.log|] == v.log;
  }

  /** The log that a compaction leads to stays clear of the page being compacted. */
  lemma CompactionFits(f: Format, v: View, c: nat)
    requires Formed(f, v) && Roomy(f, v) && c <= |Copies(f, v)|
    ensures Dropped(f, v).tail + Sum(Copies(f, v)) <= Start(f, v, f.numPages)
    ensures Tower(f, Dropped(f, v), Copies(f, v), c).tail <= Dropped(f, v).tail + Sum(Copies(f, v))
    ensures c < |Copies(f, v)| ==>
              Tower(f, Dropped(f, v), Copies(f, v), c).tail + |Copies(f, v)[c]|
              <= Dropped(f, v).tail + Sum(Copies(f, v))
  {
    hide KindOf, MarksOk, Contiguous, Parses, Used, UsedBefore, Copies, Start, Tower, Format.C, Format.V, Format.Q;
    var d, es := Dropped(f, v), Copies(f, v);
    CopiesSum(f, v);
    TowerTail(f, d, es, c);
    SumPrefix(es, c);
    assert FitsAfter(f, v, 1);
    if |v.marks| <= 1 {
      UsedBelow(f, v, 1);
      VirtSizes(f);
      StartSum(f, v, 1, f.numPages - 1);
    }
  }

  lemma UsedBelow(f: Format, v: View, i: nat)
    requires f.Supported()
    ensures UsedBefore(f, v, i) <= Used(f, v.log)
  {
    hide KindOf, Used;
    if i < |v.marks| && v.marks[i] <= |v.log| { UsedPrefix(f, v.log, v.marks[i]); }
  }

  // ---------------------------------------------------------------------------------------------
  // The log that a compaction leads to has the same content and room for more compactions

  lemma {:induction false} MovedPrefix(f: Format, log: seq<Item>, k: nat)
    requires f.Supported() && k <= |log|
    ensures |Moved(f, log[..k])| <= |Moved(f, log)|
    ensures Moved(f, log)[..|Moved(f, log[..k])|] == Moved(f, log[..k])
    decreases |log|
  {
    hide KindOf;
    if k == |log| {
      assert log[..k] == log;
    } else {
      var n := |log| - 1;
      MovedPrefix(f, log[..n], k);
      assert log[..n][..k] == log[..k];
    }
  }

  /** The number of entries appended once the first `k` entries have been considered. */
  function Count(f: Format, v: View, k: nat): nat
    requires f.Supported()
  {
    if k <= |v.log| then |Moved(f, v.log[..k])| else 0
  }

  /** Considering one more entry appends it if it is a user entry. */
  lemma CountStep(f: Format, v: View, k: nat)
    requires Formed(f, v) && k < Gone(v)
    ensures k < |v.log| && Count(f, v, k + 1) == Count(f, v, k) + (if Kinds(f, v, k).User? then 1 else 0)
    ensures Count(f, v, k + 1) < |Copies(f, v)|
    ensures Kinds(f, v, k).User? ==> Copies(f, v)[Count(f, v, k)] == v.log[k].ws
  {
    hide KindOf, MarksOk, Contiguous, Parses, EraseWord;
    GoneBound(f, v);
    var p := v.log[..Gone(v)];
    MovedPrefix(f, p, k + 1);
    MovedPrefix(f, p, k);
    assert p[..k] == v.log[..k] && p[..k + 1] == v.log[..k + 1];
    assert v.log[..k + 1][..k] == v.log[..k];
    assert v.log[..k + 1][k] == v.log[k];
    var m := Moved(f, v.log[..k + 1]);
    assert Moved(f, p)[..|m|] == m;
    if Kinds(f, v, k).User? {
      assert m[|m| - 1] == v.log[k].ws;
      assert Copies(f, v)[|m| - 1] == Moved(f, p)[|m| - 1] == m[|m| - 1];
    }
  }

  lemma CountEnds(f: Format, v: View)
    requires Formed(f, v)
    ensures Count(f, v, 0) == 0 && Count(f, v, Gone(v)) == |Copies(f, v)| - 1
  {
    hide KindOf, MarksOk, Contiguous, Parses, EraseWord;
    GoneBound(f, v);
  }

  /** The view once the first `k` entries have been considered. */
  function Considered(f: Format, v: View, k: nat): View
    requires f.Supported()
  {
    if Count(f, v, k) <= |Copies(f, v)| then Tower(f, Dropped(f, v), Copies(f, v), Count(f, v, k)) else v
  }

  lemma ConsideredStep(f: Format, v: View, k: nat)
    requires Formed(f, v) && k < Gone(v)
    ensures k < |v.log| && Count(f, v, k) < |Copies(f, v)|
    ensures Considered(f, v, k + 1) ==
            if Kinds(f, v, k).User? then Append(f, Considered(f, v, k), v.log[k].ws) else Considered(f, v, k)
    ensures Considered(f, v, 0) == Dropped(f, v)
  {
    hide KindOf, Formed, Append, Copies, Count, Dropped;
    CountStep(f, v, k);
    CountEnds(f, v);
  }

  /** What is looked up once some entries have been considered. */
  lemma {:induction false} ConsideredLookup(f: Format, v: View, k: nat, key: nat)
    requires Formed(f, v) && Idle(f, v) && k <= Gone(v) <= |v.log|
    ensures Lookup(f, Considered(f, v, k).log, key) ==
            if Lookup(f, v.log[..k], key).Some? then Lookup(f, v.log[..k], key) else Lookup(f, Dropped(f, v).log, key)
  {
    hide KindOf, MarksOk, Contiguous, Parses, Considered, Copies, Lookup, Dropped, Start;
    if k == 0 {
      CountEnds(f, v);
      LookupNone(f, v.log[..0], key);
      assert Considered(f, v, 0) == Dropped(f, v) by { ConsideredStart(f, v); }
    } else {
      ConsideredLookup(f, v, k - 1, key);
      ConsideredStep(f, v, k - 1);
      assert v.log[..k] == v.log[..k - 1] + [v.log[k - 1]];
      assert IsCalm(Kinds(f, v, k - 1));
      LookupAppend(f, v.log[..k - 1], v.log[k - 1], key);
      var t := Considered(f, v, k - 1);
      LookupAppend(f, t.log, Item(t.tail, v.log[k - 1].ws), key);
    }
  }

  lemma ConsideredStart(f: Format, v: View)
    requires Formed(f, v)
    ensures Considered(f, v, 0) == Dropped(f, v)
  {
    hide KindOf, Formed, Copies, Dropped;
    CountEnds(f, v);
  }

  /** In a log at rest, an entry is looked up in either half. */
  lemma LookupHalves(f: Format, v: View, n: nat, key: nat)
    requires f.Supported() && Idle(f, v) && n <= |v.log|
    ensures Lookup(f, v.log, key) ==
            if Lookup(f, v.log[..n], key).Some? then Lookup(f, v.log[..n], key) else Lookup(f, v.log[n..], key)
  {
    hide KindOf, LastFor;
    var k := LastFor(f, v.log, key);
    var a, b := v.log[..n], v.log[n..];
    assert forall j: nat :: j < n ==> a[j] == v.log[j];
    assert forall j: nat :: j < |b| ==> b[j] == v.log[j + n];
    if k < 0 {
      LookupNone(f, a, key);
      LookupNone(f, b, key);
    } else {
      forall j: nat | j < |v.log| && j != k ensures !Updates(f, v.log[j], key) {
        OnlyOne(f, v, key, k, j);
      }
      assert IsCalm(Kinds(f, v, k));
      if k < n {
        LookupAt(f, a, key, k);
      } else {
        LookupNone(f, a, key);
        LookupAt(f, b, key, k - n);
      }
    }
  }

  lemma CompactedIs(f: Format, v: View)
    requires Formed(f, v)
    ensures Compacted(f, v) == Append(f, Considered(f, v, Gone(v)), [EraseWord(f, v)])
  {
    hide KindOf, MarksOk, Contiguous, Parses, Append, EraseWord, Moved, Dropped;
    CountEnds(f, v);
    GoneBound(f, v);
  }

  /** Compaction does not change the map. */
  lemma CompactedContent(f: Format, v: View)
    requires Formed(f, v) && Idle(f, v)
    ensures Content(f, Compacted(f, v).log) == Content(f, v.log)
    ensures Content(f, Considered(f, v, Gone(v)).log) == Content(f, v.log)
  {
    hide KindOf, MarksOk, Contiguous, Parses, Considered, Compacted, Lookup, Content, Start, EraseWord;
    GoneBound(f, v);
    DroppedPos(f, v);
    var n := Gone(v);
    var t := Considered(f, v, n);
    assert v.log[n..] == Dropped(f, v).log;
    forall key: nat | key <= MAX_KEY ensures Lookup(f, t.log, key) == Lookup(f, v.log, key) {
      ConsideredLookup(f, v, n, key);
      LookupHalves(f, v, n, key);
    }
    SameContent(f, v.log, t.log);
    CompactedIs(f, v);
    EraseKind(f, v);
    ContentIgnore(f, t.log, Item(t.tail, [EraseWord(f, v)]));
  }

  /** The user entries of a view come from those of another from which some have been considered. */
  ghost predicate Comes(f: Format, v: View, t: View, k: nat)
    requires f.Supported()
  {
    forall i: nat :: i < |t.log| ==>
      IsCalm(Kinds(f, t, i))
      && (Kinds(f, t, i).User? ==>
            exists j: nat :: j < |v.log| && (j < k || j >= Gone(v)) && Kinds(f, v, j) == Kinds(f, t, i))
  }

  lemma {:induction false} ConsideredApart(f: Format, v: View, k: nat)
    requires Formed(f, v) && Idle(f, v) && k <= Gone(v) <= |v.log|
    ensures Comes(f, v, Considered(f, v, k), k) && Apart(f, Considered(f, v, k), |Considered(f, v, k).log|)
  {
    hide KindOf, MarksOk, Contiguous, Parses, Considered, Start, Append;
    if k == 0 {
      ConsideredStart(f, v);
      DroppedApart(f, v);
    } else {
      ConsideredApart(f, v, k - 1);
      ConsideredStep(f, v, k - 1);
      var t := Considered(f, v, k - 1);
      if Kinds(f, v, k - 1).User? {
        var key := Kinds(f, v, k - 1).key;
        forall i: nat | i < |t.log| && Kinds(f, t, i).User? ensures Kinds(f, t, i).key != key {
          var j: nat :| j < |v.log| && (j < k - 1 || j >= Gone(v)) && Kinds(f, v, j) == Kinds(f, t, i);
          OnlyOne(f, v, key, k - 1, j);
        }
        AppendApartMore(f, t, v.log[k - 1].ws);
        ComesAppend(f, v, t, k - 1);
      } else {
        ComesSkip(f, v, t, k - 1);
      }
    }
  }

  lemma DroppedApart(f: Format, v: View)
    requires Formed(f, v) && Idle(f, v)
    ensures Comes(f, v, Dropped(f, v), 0) && Apart(f, Dropped(f, v), |Dropped(f, v).log|)
  {
    hide KindOf, MarksOk, Contiguous, Parses, Start;
    GoneBound(f, v);
    DroppedPos(f, v);
    var d, n := Dropped(f, v), Gone(v);
    forall i: nat | i < |d.log| ensures d.log[i] == v.log[i + n] && Kinds(f, d, i) == Kinds(f, v, i + n)
      && IsCalm(Kinds(f, d, i)) {
      assert IsCalm(Kinds(f, v, i + n));
    }
    forall i: nat, j: nat | i < j < |d.log| && Kinds(f, d, i).User? ensures !Updates(f, d.log[j], Kinds(f, d, i).key) {
      assert !Updates(f, v.log[j + n], Kinds(f, v, i + n).key);
    }
  }

  lemma ComesAppend(f: Format, v: View, t: View, k: nat)
    requires f.Supported() && Comes(f, v, t, k) && k < |v.log| && IsCalm(Kinds(f, v, k))
    ensures Comes(f, v, Append(f, t, v.log[k].ws), k + 1)
  {
    hide KindOf, Start;
    var t' := Append(f, t, v.log[k].ws);
    AppendKinds(f, t, v.log[k].ws);
    forall i: nat | i < |t'.log|
      ensures IsCalm(Kinds(f, t', i))
      ensures Kinds(f, t', i).User? ==>
                exists j: nat :: j < |v.log| && (j < k + 1 || j >= Gone(v)) && Kinds(f, v, j) == Kinds(f, t', i)
    {
      if i < |t.log| {
        assert Kinds(f, t', i) == Kinds(f, t, i);
      } else {
        assert Kinds(f, t', i) == Kinds(f, v, k);
      }
    }
  }

  lemma ComesSkip(f: Format, v: View, t: View, k: nat)
    requires f.Supported() && Comes(f, v, t, k)
    ensures Comes(f, v, t, k + 1)
  {
    hide KindOf;
  }

  /** The compacted log is at rest once the erasure of the page is recorded as done. */
  lemma CompactedIdle(f: Format, v: View, v': View)
    requires Formed(f, v) && Idle(f, v)
    requires |Compacted(f, v).log| == |v'.log| > 0
    requires forall k: nat :: k < |v'.log| - 1 ==> v'.log[k] == Compacted(f, v).log[k]
    requires Kinds(f, v', |v'.log| - 1).Padding?
    ensures Idle(f, v') && Content(f, v'.log) == Content(f, v.log)
  {
    hide KindOf, MarksOk, Contiguous, Parses, Considered, Start, Compacted, EraseWord, Content;
    GoneBound(f, v);
    CompactedIs(f, v);
    var t := Considered(f, v, Gone(v));
    var n := |t.log|;
    ConsideredApart(f, v, Gone(v));
    CompactedContent(f, v);
    assert forall k: nat :: k < n ==> v'.log[k] == t.log[k] && Kinds(f, v', k) == Kinds(f, t, k);
    forall k: nat | k < n ensures IsCalm(Kinds(f, v', k)) { assert IsCalm(Kinds(f, t, k)); }
    forall i: nat, j: nat | i < j < n && Kinds(f, v', i).User? ensures !Updates(f, v'.log[j], Kinds(f, v', i).key) {
      assert Kinds(f, t, i).User?;
    }
    PaddedIdle(f, v', n);
    ContentPrefix(f, v'.log, n);
    assert v'.log[..n] == t.log;
  }

  // ---------------------------------------------------------------------------------------------
  // Room for the compactions to come

  /** The marks of the pages in use before a tower stay, and those that it opens point into it. */
  lemma {:induction false} TowerMarks(f: Format, d: View, es: seq<seq<Word>>, c: nat)
    requires Framed(f, d) && Complete(f, d) && AllAppendable(f, es) && c <= |es|
    ensures var t := Tower(f, d, es, c);
            && |d.marks| <= |t.marks| && |t.log| == |d.log| + c
            && (forall i: nat :: i < |d.marks| ==> t.marks[i] == d.marks[i] && HeadAt(t, i) == HeadAt(d, i))
            && (forall i: nat :: |d.marks| <= i < |t.marks| ==> |d.log| <= t.marks[i] <= |t.log|)
  {
    hide KindOf, MarksOk, Contiguous, Parses, Start, HeadAt, Format.M;
    if c > 0 {
      TowerMarks(f, d, es, c - 1);
      TowerFramed(f, d, es, c - 1);
      assert Appendable(f, es[c - 1]);
      AppendHeads(f, Tower(f, d, es, c - 1), es[c - 1]);
    }
  }

  /** The used words of a tower of user entries. */
  lemma {:induction false} TowerUsed(f: Format, d: View, es: seq<seq<Word>>, c: nat)
    requires f.Supported() && c <= |es|
    requires forall i: nat :: i < c ==> KindOf(f, es[i]).User?
    ensures Used(f, Tower(f, d, es, c).log) == Used(f, d.log) + Sum(es[..c])
  {
    hide KindOf, Start;
    if c > 0 {
      TowerUsed(f, d, es, c - 1);
      assert es[..c][..c - 1] == es[..c - 1];
      var t := Tower(f, d, es, c - 1);
      UsedAppend(f, t.log, Item(t.tail, es[c - 1]));
    }
  }

  lemma CompactedUsed(f: Format, v: View)
    requires Formed(f, v)
    ensures Used(f, Compacted(f, v).log) == Used(f, v.log)
    ensures Used(f, Dropped(f, v).log) + Sum(Copies(f, v)) == Used(f, v.log) + 1
    ensures Compacted(f, v).tail == Dropped(f, v).tail + Sum(Copies(f, v))
  {
    hide KindOf, MarksOk, Contiguous, Parses, Start, Used, Tower, EraseWord, Moved, Dropped, Append;
    GoneBound(f, v);
    DroppedPos(f, v);
    var d, es, n := Dropped(f, v), Copies(f, v), |Copies(f, v)| - 1;
    CopiesAppendable(f, v);
    TowerUsed(f, d, es, n);
    TowerTail(f, d, es, |es|);
    TowerTail(f, d, es, n);
    assert es[..|es|] == es;
    CopiesSum(f, v);
    CompactedUsedLast(f, v);
    UsedPrefix(f, v.log, Gone(v));
    DroppedLog(f, v);
    assert v.log[..|v.log|] == v.log;
  }

  lemma DroppedLog(f: Format, v: View)
    requires Formed(f, v)
    ensures Gone(v) <= |v.log| && Dropped(f, v).log == v.log[Gone(v)..]
  {
    hide KindOf, MarksOk, Contiguous, Parses, Start;
    GoneBound(f, v);
  }

  lemma CompactedUsedLast(f: Format, v: View)
    requires Formed(f, v)
    ensures Used(f, Compacted(f, v).log) == Used(f, Tower(f, Dropped(f, v), Copies(f, v), |Copies(f, v)| - 1).log)
    ensures Sum(Copies(f, v)) == Sum(Copies(f, v)[..|Copies(f, v)| - 1]) + 1
  {
    hide KindOf, MarksOk, Contiguous, Parses, Start, Used, EraseWord, Moved, Dropped;
    var es, n := Copies(f, v), |Copies(f, v)| - 1;
    var t := Tower(f, Dropped(f, v), es, n);
    EraseKind(f, v);
    assert es[n] == [EraseWord(f, v)];
    UsedAppend(f, t.log, Item(t.tail, es[n]));
  }

  /** The words from the head of a page opened by a compaction are all used but one. */
  lemma OpenedUsed(f: Format, v: View, i: nat)
    requires Formed(f, v) && Complete(f, v)
    requires |Dropped(f, v).marks| <= i < |Compacted(f, v).marks|
    ensures Compacted(f, v).tail + UsedBefore(f, Compacted(f, v), i) <= HeadAt(Compacted(f, v), i) + Used(f, v.log) + 1
  {
    hide KindOf, MarksOk, Contiguous, Parses, Start, Used, EraseWord, Moved, Dropped, Copies, Append;
    var d, es, x := Dropped(f, v), Copies(f, v), Compacted(f, v);
    DroppedFramed(f, v);
    CopiesAppendable(f, v);
    TowerMarks(f, d, es, |es|);
    CompactedUsed(f, v);
    var j := x.marks[i];
    var c := j - |d.log|;
    if c < |es| {
      TowerGrows(f, d, es, c, |es|);
      TowerTail(f, d, es, c);
      TowerUsed(f, d, es, c);
    } else {
      assert x.log[..j] == x.log;
    }
  }

  /** What is used before a page of the second page on, leaving out what the first page used. */
  lemma KeptUsed(f: Format, v: View, i: nat)
    requires Formed(f, v) && Complete(f, v) && i < |Dropped(f, v).marks|
    ensures i + 1 < |v.marks|
    ensures i < |Compacted(f, v).marks| && HeadAt(Compacted(f, v), i) == HeadAt(v, i + 1)
    ensures UsedBefore(f, Compacted(f, v), i) + UsedBefore(f, v, 1) == UsedBefore(f, v, i + 1)
  {
    hide KindOf, MarksOk, Contiguous, Parses, Start, Used, EraseWord, Moved, Copies, Append;
    var d, es, x, n := Dropped(f, v), Copies(f, v), Compacted(f, v), Gone(v);
    GoneBound(f, v);
    DroppedPos(f, v);
    DroppedFramed(f, v);
    CopiesAppendable(f, v);
    TowerMarks(f, d, es, |es|);
    TowerGrows(f, d, es, 0, |es|);
    assert Tower(f, d, es, 0) == d;
    var j := v.marks[i + 1];
    assert x.log[..j - n] == d.log[..j - n] by { assert x.log[..|d.log|][..j - n] == x.log[..j - n]; }
    assert d.log[..j - n] == v.log[n..j];
    assert v.log[..j] == v.log[..n] + v.log[n..j];
    UsedConcat(f, v.log[..n], v.log[n..j]);
  }

  /** A compaction leaves room for the ones to come. */
  lemma CompactedRoomy(f: Format, v: View)
    requires Formed(f, v) && Complete(f, v) && Roomy(f, v)
    ensures Formed(f, Compacted(f, v)) && Roomy(f, Compacted(f, v))
  {
    hide KindOf, MarksOk, Contiguous, Parses, Start, Used, Compacted, Dropped, UsedBefore, HeadAt, Copies, Format.Q,
         Format.V, Format.C, Format.M;
    var x := Compacted(f, v);
    CompactedFormed(f, v);
    CompactedUsed(f, v);
    CompactionFits(f, v, |Copies(f, v)|);
    StartsShift(f, v, x);
    forall i: nat | 1 <= i < f.numPages ensures FitsAfter(f, x, i) {
      CompactedFits(f, v, i);
    }
    forall i: nat | i < f.numPages - 1 ensures NearAfter(f, x, i) {
      CompactedFits(f, v, i);
    }
  }

  lemma CompactedFormed(f: Format, v: View)
    requires Formed(f, v) && Complete(f, v)
    ensures Formed(f, Compacted(f, v)) && Complete(f, Compacted(f, v)) && Compacted(f, v).first == v.first + 1
    ensures Compacted(f, v).lean == v.lean
    ensures |Compacted(f, v).log| == |Dropped(f, v).log| + |Copies(f, v)|
  {
    hide KindOf, MarksOk, Contiguous, Parses, Start, Dropped, Copies, Tower;
    DroppedFramed(f, v);
    DroppedPos(f, v);
    CopiesAppendable(f, v);
    TowerFramed(f, Dropped(f, v), Copies(f, v), |Copies(f, v)|);
    TowerLean(f, Dropped(f, v), Copies(f, v), |Copies(f, v)|);
    DroppedLean(f, v);
  }

  lemma {:induction false} TowerLean(f: Format, d: View, es: seq<seq<Word>>, c: nat)
    requires f.Supported() && c <= |es|
    ensures Tower(f, d, es, c).lean == d.lean
  {
    hide Start;
    if c > 0 { TowerLean(f, d, es, c - 1); }
  }

  lemma DroppedLean(f: Format, v: View)
    requires f.Supported()
    ensures Dropped(f, v).lean == v.lean
  {
    hide Start;
  }

  lemma StartsShift(f: Format, v: View, x: View)
    requires f.Supported() && x.first == v.first + 1
    ensures forall i: nat :: Start(f, x, i) == Start(f, v, i + 1)
  {
    forall i: nat ensures Start(f, x, i) == Start(f, v, i + 1) {
      StartShift(f, v, x, i);
    }
  }

  lemma CompactedFits(f: Format, v: View, i: nat)
    requires Formed(f, v) && Complete(f, v) && Roomy(f, v) && i < f.numPages
    ensures 1 <= i ==> FitsAfter(f, Compacted(f, v), i)
    ensures i < f.numPages - 1 ==> NearAfter(f, Compacted(f, v), i)
  {
    hide KindOf, MarksOk, Contiguous, Parses, Start, Used, Compacted, Dropped, UsedBefore, HeadAt, Copies, Format.Q,
         Format.V, Format.C, Format.M;
    var x := Compacted(f, v);
    CompactedFormed(f, v);
    CompactedUsed(f, v);
    CopiesSum(f, v);
    DroppedPos(f, v);
    MarksBelow(f, v);
    StartsShift(f, v, x);
    VirtSizes(f);
    StartSum(f, x, i, f.numPages - 1);
    DroppedFramed(f, v);
    CopiesAppendable(f, v);
    MarksCount(f, v);
    if i < |Dropped(f, v).marks| {
      KeptUsed(f, v, i);
      assert FitsAfter(f, v, i + 1) && NearAfter(f, v, i + 1);
    } else if i < |x.marks| {
      OpenedUsed(f, v, i);
      MarkBound(f, x, i);
      CompactedMarks(f, v);
    } else {
      UsedBelow(f, x, i);
      NoHead(f, x, i);
    }
  }

  lemma CompactedMarks(f: Format, v: View)
    requires Formed(f, v) && Complete(f, v) && Roomy(f, v)
    ensures |Compacted(f, v).marks| < f.numPages
  {
    hide KindOf, MarksOk, Contiguous, Parses, Start, Roomy, Copies, Compacted;
    CompactedFormed(f, v);
    CompactedUsed(f, v);
    CompactionFits(f, v, |Copies(f, v)|);
    StartsShift(f, v, Compacted(f, v));
    MarksBelow(f, Compacted(f, v));
  }

  lemma MarksCount(f: Format, v: View)
    requires f.Supported()
    ensures |v.marks| > 1 ==> |Dropped(f, v).marks| == |v.marks| - 1
    ensures |v.marks| <= 1 ==> |Dropped(f, v).marks| == 0
  {
  }

  lemma MarkBound(f: Format, v: View, i: nat)
    requires Formed(f, v) && i < |v.marks|
    ensures Start(f, v, i) <= HeadAt(v, i) <= Start(f, v, i) + f.M()
  {
    hide KindOf, Contiguous, Parses, Start, HeadAt, Format.M;
    assert MarkOk(f, v, i);
  }

  lemma NoHead(f: Format, v: View, i: nat)
    requires Formed(f, v) && i >= |v.marks|
    ensures v.tail <= Start(f, v, i) && HeadAt(v, i) == v.tail
  {
    hide KindOf, Contiguous, Parses, Start;
    StartOrder(f, v, |v.marks|, i);
  }
}
