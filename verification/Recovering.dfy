/** How the log changes while an interrupted operation is completed or rolled back. */
module Recovering {
  import opened Words
  import opened Format
  import opened Entries
  import opened Flash
  import opened Log
  import opened Parsing
  import opened States
  import opened Appending
  import opened Contents
  import opened Stages
  import opened Transactions
  import opened SortedKeys

  // ---------------------------------------------------------------------------------------------
  // Wiping a torn entry

  /** One entry for each word. */
  function Singles(pos: nat, ws: seq<Word>): (items: seq<Item>)
    ensures |items| == |ws|
    ensures forall i: nat :: i < |ws| ==> items[i] == Item(pos + i, [ws[i]])
  {
    seq<Item>(|ws|, i requires 0 <= i < |ws| => Item(pos + i, [ws[i]]))
  }

  /** The entries between head and tail changed, or were split, and nothing else did. */
  ghost predicate Kept(v: View, v': View) {
    v'.first == v.first && v'.lean == v.lean && v'.tail == v.tail && HeadAt(v', 0) == HeadAt(v, 0)
  }

  lemma SetItemKept(f: Format, v: View, k: nat, ws: seq<Word>)
    requires f.Supported() && k < |v.log|
    ensures Kept(v, SetItem(v, k, ws))
  {
    SetItemPos(f, v, k, ws);
  }

  lemma WeakerKept(f: Format, v: View, v': View)
    requires f.Supported() && Weaker(f, v, v')
    ensures Kept(v, v')
  {
    hide KindOf;
    WeakerPos(f, v, v');
  }

  lemma KeptLean(v: View, v': View)
    requires Kept(v, v')
    ensures v'.lean == v.lean
  {
    hide HeadAt;
  }

  lemma KeptTight(f: Format, v: View, v': View)
    requires f.Supported() && Kept(v, v')
    ensures Tight(f, v') == Tight(f, v)
  {
    hide Format.V, HeadAt;
  }

  /** The last entry of the log is split into words. */
  function Split(v: View, ws: seq<Word>): View
    requires v.log != []
  {
    var k := |v.log| - 1;
    var log := v.log[..k] + Singles(v.log[k].pos, ws);
    View(v.first, log, v.tail,
         seq<nat>(|v.marks|, i requires 0 <= i < |v.marks| => if v.marks[i] == |v.log| then |log| else v.marks[i]),
         v.lean)
  }

  predicate AllPadded(ws: seq<Word>) {
    forall i: nat :: i < |ws| ==> !ws[i][0]
  }

  lemma PaddedWord(f: Format, w: Word)
    requires f.Supported() && !w[0]
    ensures KindOf(f, [w]).Padding?
  {
    PaddingParses(f, w);
  }

  lemma SplitPos(f: Format, v: View, ws: seq<Word>)
    requires Formed(f, v) && v.log != [] && |ws| == |v.log[|v.log| - 1].ws|
    ensures var v' := Split(v, ws);
            && |v'.marks| == |v.marks|
            && (forall i: nat :: Start(f, v', i) == Start(f, v, i))
            && (forall i: nat :: HeadAt(v', i) == HeadAt(v, i))
            && (forall i: nat :: InitWord(f, v', i) == InitWord(f, v, i))
            && (forall k: nat :: k < |v.log| ==> PosAt(v', k) == PosAt(v, k))
  {
    hide KindOf, Parses, BuildInit, Start;
    var v' := Split(v, ws);
    StartSame(f, v, v');
    assert ws != [];
    forall i: nat ensures HeadAt(v', i) == HeadAt(v, i) {
      if i < |v.marks| { assert MarkOk(f, v, i); }
    }
  }

  lemma SplitFormed(f: Format, v: View, ws: seq<Word>)
    requires Formed(f, v) && v.log != [] && |ws| == |v.log[|v.log| - 1].ws| && AllPadded(ws)
    ensures Formed(f, Split(v, ws))
    ensures forall k: nat :: |v.log| - 1 <= k < |Split(v, ws).log| ==> Kinds(f, Split(v, ws), k).Padding?
    ensures forall k: nat :: k < |v.log| - 1 ==> Split(v, ws).log[k] == v.log[k]
  {
    hide KindOf, Start, Format.M, Format.Q, Contiguous, MarkOk, NoUserBeforeMark, Singles;
    var v', n := Split(v, ws), |v.log| - 1;
    SplitPos(f, v, ws);
    SplitContiguous(f, v, ws);
    forall k: nat | n <= k < |v'.log| ensures Kinds(f, v', k).Padding? && |v'.log[k].ws| == 1 {
      PaddedWord(f, ws[k - n]);
    }
    forall i: nat | i < |v'.marks| ensures MarkOk(f, v', i) && NoUserBeforeMark(f, v', i) {
      SplitMark(f, v, ws, i);
    }
    forall k: nat | k < n ensures v'.log[k] == v.log[k] && Kinds(f, v', k) == Kinds(f, v, k) {
    }
  }

  lemma SplitContiguous(f: Format, v: View, ws: seq<Word>)
    requires Formed(f, v) && v.log != [] && |ws| == |v.log[|v.log| - 1].ws|
    ensures Contiguous(Split(v, ws))
  {
    hide KindOf, MarksOk, Parses;
    assert ws != [];
  }

  lemma SplitMark(f: Format, v: View, ws: seq<Word>, i: nat)
    requires Formed(f, v) && v.log != [] && |ws| == |v.log[|v.log| - 1].ws| && AllPadded(ws) && i < |v.marks|
    ensures MarkOk(f, Split(v, ws), i) && NoUserBeforeMark(f, Split(v, ws), i)
  {
    hide KindOf, Start, Format.M, Format.Q, Contiguous, Parses;
    var v', n := Split(v, ws), |v.log| - 1;
    SplitPos(f, v, ws);
    SomeWords(f, v);
    assert MarkOk(f, v, i) && NoUserBeforeMark(f, v, i);
    forall k: nat | k < v'.marks[i] && k < |v'.log| && Kinds(f, v', k).User? ensures v'.log[k].pos < Start(f, v', i) {
      if k >= n { PaddedWord(f, ws[k - n]); }
      assert v'.log[k] == v.log[k] && Kinds(f, v, k).User?;
    }
  }

  lemma SomeWords(f: Format, v: View)
    requires Formed(f, v) && v.log != []
    ensures v.log[|v.log| - 1].ws != []
  {
  }

  /** Padding out a torn entry whose other words are wiped leaves one word of padding for each of its words. */
  lemma SteadySplit(f: Format, pages: Pages, pages': Pages, v: View, ws: seq<Word>)
    requires Steady(f, pages, v, true) && Shape(f, pages')
    requires v.log != [] && |ws| == |v.log[|v.log| - 1].ws| && AllPadded(ws)
    requires SameExcept(Snapshot(f, pages, v.first), Snapshot(f, pages', v.first), v.log[|v.log| - 1].pos, |ws|)
    requires Holds(Snapshot(f, pages', v.first), v.log[|v.log| - 1].pos, ws)
    ensures Steady(f, pages', Split(v, ws), true)
  {
    hide Snapshot, InitWord, Start, HeadAt, PosAt, KindOf, Contiguous, MarksOk, Parses, Alive, Singles;
    SplitFormed(f, v, ws);
    SplitPos(f, v, ws);
    var s, s', v' := Snapshot(f, pages, v.first), Snapshot(f, pages', v.first), Split(v, ws);
    SplitHolds(f, s, s', v, ws);
    EntrySize(f, v, |v.log| - 1);
    assert v'.log != [];
    Disjoint(f, v, |v.log| - 1, |v.log| - 1);
    AliveSame(f, v, v');
    assert forall i: nat :: PageInit(s', 0, i) == PageInit(s, 0, i);
  }

  lemma SplitHolds(f: Format, s: Window, s': Window, v: View, ws: seq<Word>)
    requires Formed(f, v) && v.log != [] && |ws| == |v.log[|v.log| - 1].ws| && HoldsLog(s, v)
    requires SameExcept(s, s', v.log[|v.log| - 1].pos, |ws|) && Holds(s', v.log[|v.log| - 1].pos, ws)
    ensures HoldsLog(s', Split(v, ws))
  {
    hide Formed;
    var v', n := Split(v, ws), |v.log| - 1;
    forall k: nat | k < |v'.log| ensures Holds(s', v'.log[k].pos, v'.log[k].ws) {
      if k < n {
        assert v'.log[k] == v.log[k];
        assert Holds(s, v.log[k].pos, v.log[k].ws);
        Disjoint(f, v, k, n);
      } else {
        assert v'.log[k] == Item(v.log[n].pos + (k - n), [ws[k - n]]);
        assert At(s', v'.log[k].pos) == ws[k - n];
      }
    }
  }

  lemma {:induction false} UsedNone(f: Format, log: seq<Item>)
    requires f.Supported() && forall k: nat :: k < |log| ==> !KindOf(f, log[k].ws).User?
    ensures Used(f, log) == 0
  {
    hide KindOf;
    if log != [] {
      UsedNone(f, log[..|log| - 1]);
    }
  }

  lemma SplitUsed(f: Format, v: View, ws: seq<Word>, n: nat)
    requires Formed(f, v) && v.log != [] && |ws| == |v.log[|v.log| - 1].ws| && AllPadded(ws)
    requires n <= |v.log| && !Kinds(f, v, |v.log| - 1).User?
    ensures var v' := Split(v, ws); Used(f, v'.log[..if n == |v.log| then |v'.log| else n]) == Used(f, v.log[..n])
  {
    hide KindOf, Used, Contiguous, MarksOk, Parses, Singles;
    var v', k := Split(v, ws), |v.log| - 1;
    if n < |v.log| {
      assert v'.log[..n] == v.log[..n];
    } else {
      assert v'.log[..|v'.log|] == v'.log == v.log[..k] + Singles(v.log[k].pos, ws);
      assert v.log[..n] == v.log[..k] + [v.log[k]];
      UsedConcat(f, v.log[..k], Singles(v.log[k].pos, ws));
      UsedConcat(f, v.log[..k], [v.log[k]]);
      SinglesUsed(f, v.log[k].pos, ws);
      UsedNone(f, [v.log[k]]);
    }
  }

  lemma SinglesUsed(f: Format, pos: nat, ws: seq<Word>)
    requires f.Supported() && AllPadded(ws)
    ensures Used(f, Singles(pos, ws)) == 0
  {
    hide KindOf, Used;
    forall i: nat | i < |ws| ensures KindOf(f, Singles(pos, ws)[i].ws).Padding? {
      PaddedWord(f, ws[i]);
    }
    UsedNone(f, Singles(pos, ws));
  }

  lemma SplitRoomy(f: Format, v: View, ws: seq<Word>)
    requires Formed(f, v) && v.log != [] && |ws| == |v.log[|v.log| - 1].ws| && AllPadded(ws)
    requires !Kinds(f, v, |v.log| - 1).User? && Roomy(f, v)
    ensures Roomy(f, Split(v, ws)) && Tight(f, Split(v, ws)) == Tight(f, v)
  {
    hide KindOf, Used, Contiguous, Parses, Start, Format.Q, Format.M, Format.V, Format.C, HeadAt;
    var v' := Split(v, ws);
    SplitPos(f, v, ws);
    SplitUsed(f, v, ws, |v.log|);
    assert v.log[..|v.log|] == v.log && v'.log[..|v'.log|] == v'.log;
    forall i: nat ensures UsedBefore(f, v', i) == UsedBefore(f, v, i) {
      if i < |v.marks| {
        assert MarkOk(f, v, i);
        SplitUsed(f, v, ws, v.marks[i]);
      }
    }
    forall i: nat | 1 <= i < f.numPages ensures FitsAfter(f, v', i) {
      assert FitsAfter(f, v, i);
    }
    forall i: nat | i < f.numPages - 1 ensures NearAfter(f, v', i) {
      assert NearAfter(f, v, i);
    }
  }

  /** What is left of a log once entries that update nothing are cut off. */
  lemma ContentPrefix(f: Format, log: seq<Item>, n: nat)
    requires f.Supported() && n <= |log|
    requires forall k: nat :: n <= k < |log| ==> !IsUpdate(KindOf(f, log[k].ws))
    ensures Content(f, log) == Content(f, log[..n])
  {
    hide KindOf, Lookup;
    forall key: nat | key <= MAX_KEY ensures Lookup(f, log, key) == Lookup(f, log[..n], key) {
      LookupPrefix(f, log, n, key);
    }
    SameContent(f, log, log[..n]);
  }

  lemma LookupPrefix(f: Format, log: seq<Item>, n: nat, key: nat)
    requires f.Supported() && n <= |log|
    requires forall k: nat :: n <= k < |log| ==> !IsUpdate(KindOf(f, log[k].ws))
    ensures Lookup(f, log, key) == Lookup(f, log[..n], key)
  {
    hide KindOf, LastFor;
    var k := LastFor(f, log[..n], key);
    if k < 0 {
      forall j: nat | j < |log| ensures !Updates(f, log[j], key) {
        if j < n { assert log[..n][j] == log[j]; }
      }
      LookupNone(f, log, key);
    } else {
      assert log[..n][k] == log[k];
      forall j: nat | k < j < |log| ensures !Updates(f, log[j], key) {
        if j < n { assert log[..n][j] == log[j]; }
      }
      LookupAt(f, log, key, k);
    }
  }

  /** The torn last entry has become padding. */
  ghost predicate Mended(f: Format, v: View, v': View)
    requires f.Supported()
  {
    && v.log != [] && IsTorn(Kinds(f, v, |v.log| - 1)) && |v.log| <= |v'.log|
    && (forall k: nat :: k < |v.log| - 1 ==> v'.log[k] == v.log[k])
    && (forall k: nat :: |v.log| - 1 <= k < |v'.log| ==> Kinds(f, v', k).Padding?)
    && Roomy(f, v') && Tight(f, v') == Tight(f, v) && HeadAt(v', 0) == HeadAt(v, 0)
  }

  lemma SplitMends(f: Format, v: View, ws: seq<Word>)
    requires Formed(f, v) && v.log != [] && |ws| == |v.log[|v.log| - 1].ws| && AllPadded(ws)
    requires IsTorn(Kinds(f, v, |v.log| - 1)) && Roomy(f, v)
    ensures Mended(f, v, Split(v, ws))
  {
    hide KindOf, MarksOk, Contiguous, Parses, Roomy, Tight;
    EntrySize(f, v, |v.log| - 1);
    SplitFormed(f, v, ws);
    SplitRoomy(f, v, ws);
    SplitPos(f, v, ws);
  }

  lemma DeleteMends(f: Format, v: View, ws: seq<Word>)
    requires Formed(f, v) && v.log != [] && |ws| == |v.log[|v.log| - 1].ws| && KindOf(f, ws).Padding?
    requires IsTorn(Kinds(f, v, |v.log| - 1)) && Roomy(f, v)
    ensures Mended(f, v, SetItem(v, |v.log| - 1, ws))
  {
    hide KindOf, MarksOk, Contiguous, Parses, Roomy, Tight;
    var v' := SetItem(v, |v.log| - 1, ws);
    SetItemWeaker(f, v, |v.log| - 1, ws);
    WeakerRoomy(f, v, v');
    WeakerPos(f, v, v');
  }

  /** Mending a torn entry, completely or not. */
  lemma MendedKept(f: Format, v: View, v1: View, v': View)
    requires Formed(f, v) && v.log != [] && |v.log[|v.log| - 1].ws| > 0
    requires v1 == SetItem(v, |v.log| - 1, Wiped(v.log[|v.log| - 1].ws))
    requires v' == v1 || v' == Split(v1, Wiped(FirstCleared(v.log[|v.log| - 1].ws, 0)))
    ensures Kept(v, v')
  {
    hide KindOf, Contiguous, Parses, Start;
    SetItemKept(f, v, |v.log| - 1, Wiped(v.log[|v.log| - 1].ws));
    if v' != v1 { SplitHead(v1, Wiped(FirstCleared(v.log[|v.log| - 1].ws, 0))); }
  }

  lemma SplitHead(v: View, ws: seq<Word>)
    requires v.log != [] && ws != [] && v.marks != [] && v.marks[0] == 0
    ensures Kept(v, Split(v, ws))
  {
  }

  lemma MendedShape(f: Format, v: View, v': View, n: nat)
    requires f.Supported() && Mended(f, v, v') && n < |v.log|
    ensures Calm(f, v, n) ==> Calm(f, v', n)
    ensures Apart(f, v, n) ==> Apart(f, v', n)
    ensures v'.log[..n] == v.log[..n]
  {
    hide KindOf, Roomy, Tight;
    assert forall k: nat :: k < n ==> v'.log[k] == v.log[k] && Kinds(f, v', k) == Kinds(f, v, k);
  }

  /** Mending a settled log whose other entries are complete puts it at rest. */
  lemma MendedSettled(f: Format, v: View, v': View)
    requires f.Supported() && Mended(f, v, v') && SettledOk(f, v) && Calm(f, v, |v.log| - 1)
    ensures Idle(f, v') && Content(f, v'.log) == Content(f, v.log)
  {
    hide KindOf, Roomy, Content, Tight;
    var n := |v.log| - 1;
    assert Apart(f, v, n) && !Calm(f, v, |v.log|);
    MendedShape(f, v, v', n);
    PaddedIdle(f, v', n);
    ContentPrefix(f, v'.log, n);
    ContentPrefix(f, v.log, n);
  }

  /** A log that is calm up to some padding at its end. */
  lemma PaddedIdle(f: Format, v: View, n: nat)
    requires f.Supported() && n <= |v.log| && Calm(f, v, n) && Apart(f, v, n)
    requires forall k: nat :: n <= k < |v.log| ==> Kinds(f, v, k).Padding?
    ensures Idle(f, v)
    ensures forall k: nat :: n <= k < |v.log| ==> !IsUpdate(KindOf(f, v.log[k].ws))
  {
    hide KindOf;
    forall k: nat | n <= k < |v.log| ensures !IsUpdate(KindOf(f, v.log[k].ws)) {
      assert Kinds(f, v, k).Padding?;
    }
    forall i: nat, j: nat | i < j < |v.log| && Kinds(f, v, i).User? ensures !Updates(f, v.log[j], Kinds(f, v, i).key) {
      if j >= n { assert Kinds(f, v, j).Padding?; } else { assert !Updates(f, v.log[j], Kinds(f, v, i).key); }
    }
  }

  /** Mending a transaction rolls its last entry back. */
  lemma MendedTransaction(f: Format, v: View, v': View, m: nat)
    requires f.Supported() && Mended(f, v, v') && TransactionOk(f, v, m) && m < |v.log| - 1
    ensures TransactionOk(f, v', m) && !Committed(f, v, m) && !Committed(f, v', m)
    ensures v'.log[..m] == v.log[..m]
  {
    hide KindOf, Roomy, Tight, Calm, Apart;
    var n := |v.log| - 1;
    MendedShape(f, v, v', m);
    assert !IsUpdate(Kinds(f, v, n)) && !IsUpdate(Kinds(f, v', n));
    assert v'.log[m] == v.log[m];
    assert forall k: nat :: k < n ==> Kinds(f, v', k) == Kinds(f, v, k);
    var count := Kinds(f, v, m).entry.count;
    if |v.log| <= m + 1 + count {
      assert m < n <= m + count && Kinds(f, v', n).Padding?;
    } else {
      var k: nat :| m < k <= m + count && k < |v.log| && Kinds(f, v, k).Padding?;
      assert k != n && Kinds(f, v', k).Padding?;
    }
  }

  /** Mending a store that stopped puts it at rest or leaves its transaction under way. */
  lemma MendedHalted(f: Format, pages: Pages, pages': Pages, v: View, v': View, st: Stage)
    requires Halted(f, pages, v, st) && Steady(f, pages', v', true) && Formed(f, v) && Mended(f, v, v')
    requires st == Settled ==> Calm(f, v, |v.log| - 1)
    requires st.InTransaction? ==> st.marker < |v.log| - 1
    ensures Halted(f, pages', v', st) && Outcome(f, v', st) == Outcome(f, v, st)
    ensures st == Settled ==> AtRest(f, pages', v')
    ensures st.InTransaction? ==> !Committed(f, v', st.marker) && v'.log[..st.marker] == v.log[..st.marker]
  {
    hide Steady, KindOf, Roomy, Tight, Calm, Apart, Content, SettledOk, TransactionOk, MayOpen, OpensPage;
    SteadyUntidy(f, pages', v');
    match st
    case Settled =>
      MendedSettled(f, v, v');
      IdleSettled(f, v');
    case Clearing(_) =>
      assert false;
    case InTransaction(m) =>
      MendedTransaction(f, v, v', m);
  }

  // ---------------------------------------------------------------------------------------------
  // Changes that keep the kinds of entries

  /** Each entry stays of its kind, and the user entries are the same. */
  ghost predicate Alike(f: Format, v: View, v': View)
    requires f.Supported()
  {
    && v' == v.(log := v'.log) && |v'.log| == |v.log|
    && forall k: nat :: k < |v.log| ==>
         && v'.log[k].pos == v.log[k].pos && |v'.log[k].ws| == |v.log[k].ws| && Kinds(f, v', k) == Kinds(f, v, k)
         && (Kinds(f, v, k).User? ==> v'.log[k] == v.log[k])
  }

  lemma SetItemAlike(f: Format, v: View, k: nat, ws: seq<Word>)
    requires f.Supported() && k < |v.log| && |ws| == |v.log[k].ws| && KindOf(f, ws) == Kinds(f, v, k)
             && !KindOf(f, ws).User?
    ensures Alike(f, v, SetItem(v, k, ws))
  {
    hide KindOf;
  }

  lemma AlikePos(f: Format, v: View, v': View)
    requires f.Supported() && Alike(f, v, v')
    ensures |v'.log| == |v.log| && v'.first == v.first && v'.tail == v.tail && v'.marks == v.marks
    ensures forall k: nat :: PosAt(v', k) == PosAt(v, k)
    ensures forall k: nat :: HeadAt(v', k) == HeadAt(v, k)
    ensures forall k: nat :: k < |v.log| ==> Kinds(f, v', k) == Kinds(f, v, k)
    ensures Tight(f, v') == Tight(f, v)
  {
    hide KindOf, Format.V;
    forall k: nat | k < |v.log| ensures Kinds(f, v', k) == Kinds(f, v, k) {
      assert v'.log[k].pos == v.log[k].pos;
    }
  }

  lemma AlikeUpdates(f: Format, v: View, v': View)
    requires f.Supported() && Alike(f, v, v')
    ensures forall k: nat, key: nat :: k < |v.log| ==> Updates(f, v'.log[k], key) == Updates(f, v.log[k], key)
  {
    hide KindOf;
    forall k: nat, key: nat | k < |v.log| ensures Updates(f, v'.log[k], key) == Updates(f, v.log[k], key) {
      assert Kinds(f, v', k) == Kinds(f, v, k);
    }
  }

  lemma AlikeShape(f: Format, v: View, v': View, n: nat)
    requires f.Supported() && Alike(f, v, v') && n <= |v.log|
    ensures Calm(f, v', n) == Calm(f, v, n) && Apart(f, v', n) == Apart(f, v, n)
  {
    hide KindOf, Updates;
    AlikePos(f, v, v');
    AlikeUpdates(f, v, v');
    AlikeApart(f, v, v', n);
    if Calm(f, v', n) {
      forall k: nat | k < n ensures IsCalm(Kinds(f, v, k)) { assert IsCalm(Kinds(f, v', k)); }
    }
    if Calm(f, v, n) {
      forall k: nat | k < n ensures IsCalm(Kinds(f, v', k)) { assert IsCalm(Kinds(f, v, k)); }
    }
  }

  lemma AlikeApart(f: Format, v: View, v': View, n: nat)
    requires f.Supported() && |v'.log| == |v.log| && n <= |v.log|
    requires forall k: nat :: k < |v.log| ==> Kinds(f, v', k) == Kinds(f, v, k)
    requires forall k: nat, key: nat :: k < |v.log| ==> Updates(f, v'.log[k], key) == Updates(f, v.log[k], key)
    ensures Apart(f, v', n) == Apart(f, v, n)
  {
    hide KindOf, Updates;
    if Apart(f, v, n) {
      forall i: nat, j: nat | i < j < n && Kinds(f, v', i).User? ensures !Updates(f, v'.log[j], Kinds(f, v', i).key) {
        assert Kinds(f, v, i).User? && !Updates(f, v.log[j], Kinds(f, v, i).key);
      }
    }
    if Apart(f, v', n) {
      forall i: nat, j: nat | i < j < n && Kinds(f, v, i).User? ensures !Updates(f, v.log[j], Kinds(f, v, i).key) {
        assert Kinds(f, v', i).User? && !Updates(f, v'.log[j], Kinds(f, v', i).key);
      }
    }
  }

  lemma AlikeContent(f: Format, v: View, v': View, n: nat)
    requires f.Supported() && Alike(f, v, v') && n <= |v.log|
    ensures Content(f, v'.log[..n]) == Content(f, v.log[..n])
  {
    hide KindOf, Updates, Lookup;
    forall key: nat | key <= MAX_KEY ensures Lookup(f, v'.log[..n], key) == Lookup(f, v.log[..n], key) {
      AlikeLookup(f, v, v', n, key);
    }
    SameContent(f, v.log[..n], v'.log[..n]);
  }

  lemma AlikeLookup(f: Format, v: View, v': View, n: nat, key: nat)
    requires f.Supported() && Alike(f, v, v') && n <= |v.log|
    ensures Lookup(f, v'.log[..n], key) == Lookup(f, v.log[..n], key)
  {
    hide KindOf, Updates, LastFor;
    AlikeUpdates(f, v, v');
    var k := LastFor(f, v.log[..n], key);
    assert forall j: nat :: j < n ==> v.log[..n][j] == v.log[j] && v'.log[..n][j] == v'.log[j];
    if k < 0 {
      forall j: nat | j < n ensures !Updates(f, v'.log[..n][j], key) {
        assert !Updates(f, v.log[..n][j], key);
      }
      LookupNone(f, v'.log[..n], key);
    } else {
      assert Kinds(f, v', k) == Kinds(f, v, k);
      forall j: nat | k < j < n ensures !Updates(f, v'.log[..n][j], key) {
        assert !Updates(f, v.log[..n][j], key);
      }
      LookupAt(f, v'.log[..n], key, k);
    }
  }

  lemma {:induction false} AlikeUsed(f: Format, v: View, v': View, n: nat)
    requires f.Supported() && Alike(f, v, v') && n <= |v.log|
    ensures Used(f, v'.log[..n]) == Used(f, v.log[..n])
  {
    hide KindOf;
    if n > 0 {
      AlikeUsed(f, v, v', n - 1);
      assert v'.log[..n][..n - 1] == v'.log[..n - 1] && v.log[..n][..n - 1] == v.log[..n - 1];
      assert Kinds(f, v', n - 1) == Kinds(f, v, n - 1);
    }
  }

  lemma AlikeRoomy(f: Format, v: View, v': View)
    requires f.Supported() && Alike(f, v, v') && Roomy(f, v)
    ensures Roomy(f, v')
  {
    hide KindOf, Used, Start, Format.C, Format.Q, Format.V;
    AlikePos(f, v, v');
    StartSame(f, v, v');
    AlikeUsed(f, v, v', |v.log|);
    assert v.log[..|v.log|] == v.log && v'.log[..|v.log|] == v'.log;
    forall i: nat ensures UsedBefore(f, v', i) == UsedBefore(f, v, i) {
      if i < |v.marks| && v.marks[i] <= |v.log| { AlikeUsed(f, v, v', v.marks[i]); }
    }
    forall i: nat | 1 <= i < f.numPages ensures FitsAfter(f, v', i) {
      assert FitsAfter(f, v, i);
    }
    forall i: nat | i < f.numPages - 1 ensures NearAfter(f, v', i) {
      assert NearAfter(f, v, i);
    }
  }

  lemma AlikeTransaction(f: Format, v: View, v': View, m: nat)
    requires f.Supported() && Alike(f, v, v') && TransactionOk(f, v, m)
    ensures TransactionOk(f, v', m) && (Committed(f, v', m) <==> Committed(f, v, m))
  {
    hide KindOf, Tight, Calm, Apart;
    AlikePos(f, v, v');
    AlikeShape(f, v, v', m);
    var count := Kinds(f, v, m).entry.count;
    if Broken(f, v, m, count) {
      var k: nat :| m < k <= m + count && k < |v.log| && Kinds(f, v, k).Padding?;
      assert Kinds(f, v', k).Padding?;
    }
    if Committed(f, v', m) {
      forall k: nat | m < k < |v.log| ensures IsUpdate(Kinds(f, v, k)) { assert IsUpdate(Kinds(f, v', k)); }
    }
    if Committed(f, v, m) {
      forall k: nat | m < k < |v.log| ensures IsUpdate(Kinds(f, v', k)) { assert IsUpdate(Kinds(f, v, k)); }
    }
  }

  lemma AlikeSettled(f: Format, v: View, v': View)
    requires f.Supported() && Alike(f, v, v') && SettledOk(f, v)
    ensures SettledOk(f, v')
  {
    hide KindOf, Tight, Calm, Apart;
    AlikePos(f, v, v');
    AlikeShape(f, v, v', |v.log|);
    if v.log != [] { AlikeShape(f, v, v', |v.log| - 1); }
  }

  /** Changes that keep the kinds of entries keep the stage and what the store ends up with. */
  lemma AlikeStage(f: Format, v: View, v': View, st: Stage)
    requires f.Supported() && Alike(f, v, v') && StageOk(f, v, st)
    ensures StageOk(f, v', st) && Outcome(f, v', st) == Outcome(f, v, st)
    ensures MayOpen(f, v, st) ==> MayOpen(f, v', st)
  {
    hide KindOf, Tight, Calm, Apart, Content, SettledOk, TransactionOk;
    AlikePos(f, v, v');
    AlikeContent(f, v, v', |v.log|);
    assert v.log[..|v.log|] == v.log && v'.log[..|v.log|] == v'.log;
    match st
    case Settled => AlikeSettled(f, v, v');
    case Clearing(minKey) => AlikeShape(f, v, v', |v.log| - 1);
    case InTransaction(m) =>
      AlikeTransaction(f, v, v', m);
      TransactionSize(f, v, m);
      AlikeContent(f, v, v', m);
  }

  lemma TransactionSize(f: Format, v: View, m: nat)
    requires f.Supported() && TransactionOk(f, v, m)
    ensures m < |v.log|
  {
  }

  lemma AlikeHalted(f: Format, pages: Pages, pages': Pages, v: View, v': View, st: Stage, tidy: bool)
    requires Halted(f, pages, v, st) && (tidy <==> Steady(f, pages, v, true))
    requires Alike(f, v, v') && Steady(f, pages', v', tidy)
    ensures Halted(f, pages', v', st) && Outcome(f, v', st) == Outcome(f, v, st)
    ensures tidy ==> Steady(f, pages', v', true)
  {
    hide Steady, Roomy, StageOk, MayOpen, KindOf, Outcome, Start;
    SteadyFormed(f, pages, v, false);
    AlikeStage(f, v, v', st);
    AlikeRoomy(f, v, v');
    AlikePos(f, v, v');
    StartSame(f, v, v');
    if tidy { SteadyUntidy(f, pages', v'); }
  }

  lemma HaltedNow(f: Format, pages: Pages, v: View, st: Stage) returns (tidy: bool)
    requires Halted(f, pages, v, st)
    ensures Shape(f, pages) && Formed(f, v) && StageOk(f, v, st) && Roomy(f, v)
    ensures Steady(f, pages, v, tidy) && (tidy || OpensPage(f, v))
    ensures Steady(f, pages, v, true) <==> tidy
  {
    hide Steady, OpensPage, StageOk, Roomy, MayOpen;
    SteadyFormed(f, pages, v, false);
    tidy := Steady(f, pages, v, true);
  }

  lemma ItemSet(v: View, k: nat, ws: seq<Word>)
    requires k < |v.log|
    ensures var v' := SetItem(v, k, ws);
            && |v'.log| == |v.log| && v'.log[k] == Item(v.log[k].pos, ws) && v'.first == v.first
            && (forall j: nat :: j < |v.log| && j != k ==> v'.log[j] == v.log[j])
            && (forall n: nat :: n <= k ==> v'.log[..n] == v.log[..n])
  {
  }

  /** Mending a log after its torn entry has been wiped. */
  lemma MendedSame(f: Format, v: View, v1: View, v': View)
    requires f.Supported() && Alike(f, v, v1) && v.log != [] && Mended(f, v1, v')
    requires forall j: nat :: j < |v.log| - 1 ==> v1.log[j] == v.log[j]
    ensures Mended(f, v, v') && v1.log[..|v.log| - 1] == v.log[..|v.log| - 1]
    ensures Calm(f, v, |v.log| - 1) ==> Calm(f, v1, |v.log| - 1)
  {
    hide KindOf, Roomy, Tight, Calm;
    AlikePos(f, v, v1);
    AlikeShape(f, v, v1, |v.log| - 1);
  }

  lemma MarkerKept(f: Format, v: View, v1: View, v': View, m: nat)
    requires f.Supported() && v.log != [] && |v1.log| == |v.log| && m < |v.log| - 1
             && v1.log[..|v.log| - 1] == v.log[..|v.log| - 1]
    requires m <= |v'.log| && v'.log[..m] == v1.log[..m]
    ensures v'.log[..m] == v.log[..m]
  {
    assert v1.log[..m] == v1.log[..|v.log| - 1][..m];
    assert v.log[..m] == v.log[..|v.log| - 1][..m];
  }

  lemma KeptHalted(f: Format, pages: Pages, pages': Pages, v: View, st: Stage, tidy: bool)
    requires Halted(f, pages, v, st) && (Steady(f, pages, v, true) ==> tidy)
    requires Steady(f, pages', v, tidy)
    ensures Halted(f, pages', v, st)
  {
    hide Steady, Roomy, StageOk, MayOpen, KindOf, OpensPage;
    if tidy { SteadyUntidy(f, pages', v); }
  }

  lemma ZeroPadded(ws: seq<Word>)
    requires ws != [] && !ws[0][0]
    ensures AllPadded(Wiped(ws))
  {
  }

  /** Padding out a wiped torn entry, completely or not. */
  lemma TornPadded(f: Format, pages: Pages, pages': Pages, v: View, ws: seq<Word>, ok: bool) returns (v': View)
    requires Steady(f, pages, v, true) && Shape(f, pages') && v.log != [] && ws != []
    requires v.log[|v.log| - 1].ws == Wiped(ws)
    requires var s, s' := Snapshot(f, pages, v.first), Snapshot(f, pages', v.first);
             var it := v.log[|v.log| - 1];
             var w: Word := ClearBit(ws[0], 0);
             if ok then Written(s, s', it.pos, [w]) else TornWritten(s, s', it.pos, [w])
    ensures Steady(f, pages', v', true)
    ensures (v' == v && !ok) || v' == Split(v, Wiped(FirstCleared(ws, 0)))
    ensures AllPadded(Wiped(FirstCleared(ws, 0)))
  {
    hide Snapshot, Steady, KindOf, Split;
    var k := |v.log| - 1;
    SteadyHolds(f, pages, v, true, k);
    var s, s' := Snapshot(f, pages, v.first), Snapshot(f, pages', v.first);
    var it := v.log[k];
    var w: Word := ClearBit(ws[0], 0);
    var u := At(s', it.pos);
    assert At(s, it.pos) == it.ws[0] == ws[0];
    if !ok { TornOneBit(u, ws[0], 0); }
    var padded := Wiped(FirstCleared(ws, 0));
    ZeroPadded(FirstCleared(ws, 0));
    if u == w {
      forall q: nat | it.pos <= q < it.pos + |padded| ensures At(s', q) == padded[q - it.pos] {
        if q > it.pos { assert At(s', q) == At(s, q) == it.ws[q - it.pos]; }
      }
      SteadySplit(f, pages, pages', v, padded);
      v' := Split(v, padded);
    } else {
      assert Holds(s', it.pos, it.ws) by {
        forall q: nat | it.pos <= q < it.pos + |it.ws| ensures At(s', q) == it.ws[q - it.pos] {
          if q > it.pos { assert At(s', q) == At(s, q); }
        }
      }
      SteadySet(f, pages, pages', v, true, k, it.ws);
      assert SetItem(v, k, it.ws) == v;
      v' := v;
    }
  }

  /** What padding out a wiped torn entry, completely or not, does to a store that stopped. */
  lemma TornMended(f: Format, pages: Pages, pages': Pages, v: View, v1: View, v': View, st: Stage, ok: bool)
    requires Halted(f, pages, v1, st) && StageOk(f, v, st) && Formed(f, v) && Outcome(f, v1, st) == Outcome(f, v, st)
    requires v.log != [] && IsTorn(Kinds(f, v, |v.log| - 1)) && v.log[|v.log| - 1].ws != []
    requires Alike(f, v, v1) && v1 == SetItem(v, |v.log| - 1, Wiped(v.log[|v.log| - 1].ws))
    requires AllPadded(Wiped(FirstCleared(v.log[|v.log| - 1].ws, 0)))
    requires (v' == v1 && !ok) || v' == Split(v1, Wiped(FirstCleared(v.log[|v.log| - 1].ws, 0)))
    requires Steady(f, pages, v1, true) && Steady(f, pages', v', true)
    requires st == Settled ==> Calm(f, v, |v.log| - 1)
    requires st.InTransaction? ==> st.marker < |v.log| - 1
    ensures Halted(f, pages', v', st) && Outcome(f, v', st) == Outcome(f, v, st)
    ensures ok ==> Mended(f, v, v')
    ensures ok && st == Settled ==> AtRest(f, pages', v')
    ensures ok && st.InTransaction? ==> !Committed(f, v', st.marker) && v'.log[..st.marker] == v.log[..st.marker]
  {
    hide Steady, KindOf, Halted, StageOk, Outcome, AtRest, Split, Committed, TransactionOk, Calm, Alike, Wiped, Roomy,
         Tight, Contiguous, MarksOk, Parses;
    var k := |v.log| - 1;
    var tidy := HaltedNow(f, pages, v1, st);
    ItemSet(v, k, v1.log[k].ws);
    AlikePos(f, v, v1);
    if v' == v1 {
      KeptHalted(f, pages, pages', v1, st, true);
    } 
    if v' != v1 || ok {
      SplitMends(f, v1, Wiped(FirstCleared(v.log[k].ws, 0)));
      MendedSame(f, v, v1, v');
      MendedHalted(f, pages, pages', v1, v', st);
      if st.InTransaction? { MarkerKept(f, v, v1, v', st.marker); }
    }
  }

  // ---------------------------------------------------------------------------------------------
  // Scanning the log

  /** The index of the entry at which recovery stops scanning for padding to wipe. */
  ghost function ScanLimit(v: View, st: Stage): nat {
    match st
    case Settled => |v.log|
    case Clearing(_) => if v.log == [] then 0 else |v.log| - 1
    case InTransaction(m) => m
  }

  /** What recovery may find while it scans the log. */
  lemma ScanKind(f: Format, v: View, st: Stage, k: nat)
    requires f.Supported() && StageOk(f, v, st) && k < |v.log| && k <= ScanLimit(v, st)
    ensures k < ScanLimit(v, st) && st != Settled ==> IsCalm(Kinds(f, v, k))
    ensures st == Settled ==>
              IsCalm(Kinds(f, v, k)) || IsRemove(Kinds(f, v, k)) || (k == |v.log| - 1 && IsTorn(Kinds(f, v, k)))
    ensures st.Clearing? && k == ScanLimit(v, st) ==> k == |v.log| - 1 && Kinds(f, v, k) == Internal(Clear(st.minKey))
    ensures st.InTransaction? && k == ScanLimit(v, st) ==> Kinds(f, v, k).Internal? && Kinds(f, v, k).entry.Marker?
    ensures IsCalm(Kinds(f, v, k)) || IsRemove(Kinds(f, v, k)) ==> k < ScanLimit(v, st)
  {
    hide KindOf, Tight, Apart;
  }

  /** Recovery does not miss the entry that tells which operation was under way. */
  lemma ScanReaches(f: Format, v: View, st: Stage, k: nat)
    requires Formed(f, v) && StageOk(f, v, st) && k <= ScanLimit(v, st)
    requires k == |v.log| || PosAt(v, k) >= HeadAt(v, 0) + f.V()
    ensures st == Settled && (k == |v.log| || Idle(f, v))
    ensures Tight(f, v) ==> k == |v.log|
  {
    hide KindOf, Apart, Calm, Parses, MarksOk, Format.V, Idle;
    if k < |v.log| {
      PosBefore(v, k, |v.log|);
    }
  }

  lemma PadRemoveHalted(f: Format, pages: Pages, pages': Pages, v: View, v': View, k: nat, tidy: bool)
    requires Halted(f, pages, v, Settled) && (tidy <==> Steady(f, pages, v, true)) && Formed(f, v)
    requires k < |v.log| && IsRemove(Kinds(f, v, k)) && OnlyAt(v, v', k) && Weaker(f, v, v') && Kinds(f, v', k).Padding?
    requires Steady(f, pages', v', tidy)
    ensures Halted(f, pages', v', Settled) && Outcome(f, v', Settled) == Outcome(f, v, Settled)
    ensures |v'.log| == |v.log| && forall n: nat :: n <= |v.log| && Calm(f, v, n) ==> Calm(f, v', n)
  {
    hide Steady, KindOf, Roomy, Tight, Calm, Apart, Content, SettledOk, Start, Format.V;
    RemovePadded(f, v, v', k);
    WeakerPos(f, v, v');
    StartSame(f, v, v');
    if tidy { SteadyUntidy(f, pages', v'); }
    assert IsUpdate(Kinds(f, v, k)) && !Kinds(f, v, k).User?;
    if !tidy {
      assert k != |v.log| - 1;
      assert v'.log[|v.log| - 1] == v.log[|v.log| - 1];
    }
    forall n: nat | n <= |v.log| && Calm(f, v, n) ensures Calm(f, v', n) {
      WeakerShape(f, v, v', n);
    }
  }

  /** Once the scan has found nothing more, the store is at rest unless its last entry is a user entry. */
  lemma ScanDone(f: Format, pages: Pages, v: View, k: nat)
    requires Halted(f, pages, v, Settled) && Formed(f, v) && k <= |v.log| && Calm(f, v, k)
    requires k == |v.log| || (Idle(f, v) && !Tight(f, v))
    ensures Calm(f, v, |v.log|)
    ensures k < |v.log| || (k > 0 ==> !Kinds(f, v, k - 1).User?) ==> AtRest(f, pages, v)
  {
    hide Steady, KindOf, Roomy, Tight, Content;
    if k < |v.log| {
    } else if k > 0 && !Kinds(f, v, k - 1).User? {
      assert IsCalm(Kinds(f, v, k - 1));
      if !Apart(f, v, k) {
        assert Apart(f, v, k - 1);
        forall i: nat, j: nat | i < j < k && Kinds(f, v, i).User? ensures !Updates(f, v.log[j], Kinds(f, v, i).key) {
          if j == k - 1 { assert Kinds(f, v, j).Padding?; }
        }
      }
    }
  }

  lemma ScanStart(f: Format, v: View, st: Stage)
    requires Formed(f, v) && StageOk(f, v, st)
    ensures Calm(f, v, 0) && HeadAt(v, 0) == PosAt(v, 0) && ScanLimit(v, st) <= |v.log|
  {
    hide KindOf, Tight, Apart, Roomy;
    HeadIsFirst(f, v);
  }

  lemma ClearingStage(f: Format, v: View, st: Stage, k: nat)
    requires f.Supported() && StageOk(f, v, st) && k < |v.log| && k <= ScanLimit(v, st)
    requires Kinds(f, v, k).Internal? && Kinds(f, v, k).entry.Clear?
    ensures st == Clearing(Kinds(f, v, k).entry.minKey) && k == |v.log| - 1
  {
    hide KindOf, Tight, Apart;
  }

  lemma MarkerStage(f: Format, v: View, st: Stage, k: nat)
    requires f.Supported() && StageOk(f, v, st) && k < |v.log| && k <= ScanLimit(v, st)
    requires Kinds(f, v, k).Internal? && Kinds(f, v, k).entry.Marker?
    ensures st == InTransaction(k)
  {
    hide KindOf, Tight, Apart;
  }

  lemma CalmNext(f: Format, v: View, k: nat)
    requires f.Supported() && k < |v.log| && Calm(f, v, k) && IsCalm(Kinds(f, v, k))
    ensures Calm(f, v, k + 1)
  {
    hide KindOf;
  }

  /** Padding out a removal during the scan. */
  lemma ScanRemoved(f: Format, pages: Pages, pages': Pages, v: View, v': View, k: nat, tidy: bool)
    requires Halted(f, pages, v, Settled) && (tidy <==> Steady(f, pages, v, true)) && Formed(f, v)
    requires k < |v.log| && IsRemove(Kinds(f, v, k)) && |v.log[k].ws| == 1 && Calm(f, v, k)
    requires v' == v || v' == SetItem(v, k, FirstCleared(v.log[k].ws, 0))
    requires KindOf(f, FirstCleared(v.log[k].ws, 0)).Padding?
    requires Steady(f, pages', v', tidy)
    ensures Halted(f, pages', v', Settled) && Outcome(f, v', Settled) == Outcome(f, v, Settled)
    ensures StageOk(f, v', Settled) && (v' != v ==> Calm(f, v', k + 1))
    ensures |v'.log| == |v.log| && ScanLimit(v', Settled) == ScanLimit(v, Settled)
    ensures forall j: nat :: PosAt(v', j) == PosAt(v, j)
    ensures HeadAt(v', 0) == HeadAt(v, 0)
  {
    hide Steady, KindOf, Halted, Outcome, Calm, StageOk, Contiguous, MarksOk, Parses;
    if v' == v {
      KeptHalted(f, pages, pages', v, Settled, tidy);
      SettledOutcome(f, pages, v);
    } else {
      var ws := FirstCleared(v.log[k].ws, 0);
      SetItemWeaker(f, v, k, ws);
      OnlySet(v, k, ws);
      WeakerPos(f, v, v');
      PadRemoveHalted(f, pages, pages', v, v', k, tidy);
      SettledOutcome(f, pages', v');
      CalmNext(f, v', k);
    }
  }

  /** Wiping padding during the scan. */
  lemma ScanWiped(f: Format, pages: Pages, pages': Pages, v: View, v': View, st: Stage, k: nat, tidy: bool)
    requires Halted(f, pages, v, st) && (tidy <==> Steady(f, pages, v, true)) && f.Supported() && StageOk(f, v, st)
    requires k < |v.log| && Kinds(f, v, k).Padding? && Calm(f, v, k)
    requires |v'.log| == |v.log| && v' == SetItem(v, k, v'.log[k].ws)
    requires |v'.log[k].ws| == |v.log[k].ws| && Kinds(f, v', k) == Kinds(f, v, k)
    requires Steady(f, pages', v', tidy)
    ensures Halted(f, pages', v', st) && Outcome(f, v', st) == Outcome(f, v, st)
    ensures StageOk(f, v', st) && Calm(f, v', k + 1) && ScanLimit(v', st) == ScanLimit(v, st)
    ensures forall j: nat :: PosAt(v', j) == PosAt(v, j)
    ensures HeadAt(v', 0) == HeadAt(v, 0)
  {
    hide Steady, KindOf, Halted, Outcome, StageOk, Alike, Calm, SetItem;
    SetItemAlike(f, v, k, v'.log[k].ws);
    AlikePos(f, v, v');
    AlikeHalted(f, pages, pages', v, v', st, tidy);
    AlikeShape(f, v, v', k);
    var _ := HaltedNow(f, pages', v', st);
    CalmNext(f, v', k);
  }

  /** When the scan ends without finding an interrupted operation, the store is settled. */
  lemma ScanEnd(f: Format, pages: Pages, v: View, st: Stage, k: nat)
    requires f.Supported() && k <= |v.log| && Calm(f, v, k)
    requires Halted(f, pages, v, st) && Formed(f, v) && StageOk(f, v, st) && k <= ScanLimit(v, st)
    requires k == |v.log| || PosAt(v, k) >= HeadAt(v, 0) + f.V()
    ensures st == Settled && Calm(f, v, |v.log|)
    ensures k < |v.log| || (k > 0 ==> !Kinds(f, v, k - 1).User?) ==> AtRest(f, pages, v)
  {
    hide Steady, KindOf, StageOk, Halted, Calm, Idle, Tight, AtRest, Contiguous, MarksOk, Parses, Format.V;
    ScanReaches(f, v, st, k);
    ScanDone(f, pages, v, k);
  }

  // ---------------------------------------------------------------------------------------------
  // Interrupted transactions

  /** The entries between the marker and another entry are updates for some keys. */
  ghost predicate Leads(f: Format, v: View, m: nat, k: nat, keys: seq<nat>)
    requires f.Supported()
  {
    && m < k <= |v.log| && |keys| == k - m - 1 && Sorted(keys)
    && (forall j: nat :: m < j < k ==> IsUpdate(Kinds(f, v, j)) && UpdateKey(Kinds(f, v, j)) in keys)
    && (forall key: nat :: key in keys ==> exists j: nat :: m < j < k && Updates(f, v.log[j], key))
  }

  lemma LeadsStart(f: Format, v: View, m: nat)
    requires f.Supported() && m < |v.log|
    ensures Leads(f, v, m, m + 1, [])
  {
    hide KindOf;
  }

  lemma LeadsKind(f: Format, v: View, m: nat, k: nat)
    requires f.Supported() && TransactionOk(f, v, m) && m < k < |v.log|
    ensures IsUpdate(Kinds(f, v, k)) || Kinds(f, v, k).Padding? || (k == |v.log| - 1 && IsTorn(Kinds(f, v, k)))
  {
    hide KindOf, Tight, Apart, Calm;
  }

  lemma LeadsNext(f: Format, v: View, m: nat, k: nat, keys: seq<nat>)
    requires f.Supported() && TransactionOk(f, v, m) && Leads(f, v, m, k, keys) && k < |v.log|
             && IsUpdate(Kinds(f, v, k))
    ensures var key := UpdateKey(Kinds(f, v, k));
            !Found(keys, key) && Leads(f, v, m, k + 1, Inserted(keys, key))
  {
    hide KindOf, Tight, Apart, Calm, Search, Inserted;
    var key := UpdateKey(Kinds(f, v, k));
    InsertedSorted(keys, key);
    forall k': nat | k' in keys ensures k' != key {
      var j: nat :| m < j < k && Updates(f, v.log[j], k');
      assert IsUpdate(Kinds(f, v, j)) && UpdateKey(Kinds(f, v, j)) == k';
    }
    var keys' := Inserted(keys, key);
    forall k': nat | k' in keys' ensures exists j: nat :: m < j < k + 1 && Updates(f, v.log[j], k') {
      if k' == key {
        assert Updates(f, v.log[k], key);
      } else {
        var j: nat :| m < j < k && Updates(f, v.log[j], k');
      }
    }
  }

  lemma LeadsLast(f: Format, v: View, m: nat, k: nat, keys: seq<nat>)
    requires f.Supported() && Leads(f, v, m, k, keys)
    ensures k > m + 1 ==> IsUpdate(Kinds(f, v, k - 1))
  {
    hide KindOf;
  }

  /** Whether all updates are there tells whether the transaction is to be applied. */
  lemma LeadsCount(f: Format, v: View, m: nat, k: nat, keys: seq<nat>)
    requires f.Supported() && TransactionOk(f, v, m) && Leads(f, v, m, k, keys)
    requires k == |v.log| || !IsUpdate(Kinds(f, v, k))
    ensures |keys| <= Kinds(f, v, m).entry.count
    ensures |keys| == Kinds(f, v, m).entry.count ==>
              k == |v.log| && Committed(f, v, m) && KeysOf(f, v, m, keys) && k > m + 1
    ensures |keys| < Kinds(f, v, m).entry.count ==> !Committed(f, v, m)
  {
    hide KindOf, Tight, Apart, Calm;
    var count := Kinds(f, v, m).entry.count;
  }

  /** If the last page lacks its init info, it is because of the last entry. */
  lemma LeadsTidy(f: Format, pages: Pages, v: View, m: nat, k: nat, keys: seq<nat>)
    requires Halted(f, pages, v, InTransaction(m)) && f.Supported() && Leads(f, v, m, k, keys)
    requires k == |v.log| || !IsUpdate(Kinds(f, v, k))
    requires k == |v.log| > m + 1 ==> Steady(f, pages, v, true)
    ensures RollingTidy(f, pages, v, m)
  {
    hide Steady, KindOf, Tight, Apart, Calm, Roomy;
    if k < |v.log| {
      assert Kinds(f, v, k).Padding? || (k == |v.log| - 1 && IsTorn(Kinds(f, v, k)));
    }
  }

  ghost predicate RollingTidy(f: Format, pages: Pages, v: View, m: nat)
    requires f.Supported()
  {
    Steady(f, pages, v, true) || (v.log != [] && (m == |v.log| - 1 || IsTorn(Kinds(f, v, |v.log| - 1))))
  }

  /** Some first entries of a transaction have been rolled back. */
  ghost predicate Rolling(f: Format, pages: Pages, v0: View, v: View, m: nat, k: nat)
    requires f.Supported()
  {
    && Halted(f, pages, v, InTransaction(m)) && !Committed(f, v, m) && m < k <= |v.log|
    && m <= |v0.log| && v.log[..m] == v0.log[..m]
    && HeadAt(v, 0) == HeadAt(v0, 0)
    && (forall j: nat :: m < j < k ==> Kinds(f, v, j).Padding?)
    && RollingTidy(f, pages, v, m)
  }

  lemma RollingOutcome(f: Format, pages: Pages, v0: View, v: View, m: nat, k: nat)
    requires f.Supported() && Rolling(f, pages, v0, v, m, k)
    ensures Halted(f, pages, v, InTransaction(m)) && Outcome(f, v, InTransaction(m)) == Content(f, v0.log[..m])
    ensures m < |v.log|
    ensures k < |v.log| ==>
              || IsUpdate(Kinds(f, v, k)) || Kinds(f, v, k).Padding?
              || (k == |v.log| - 1 && IsTorn(Kinds(f, v, k)))
    ensures k < |v.log| && IsUpdate(Kinds(f, v, k)) && !Steady(f, pages, v, true) ==>
              k < |v.log| - 1 && IsTorn(Kinds(f, v, |v.log| - 1))
  {
    hide Steady, KindOf, Tight, Apart, Calm, Roomy, Content, MayOpen, OpensPage;
  }

  lemma RollingSkip(f: Format, pages: Pages, v0: View, v: View, m: nat, k: nat)
    requires f.Supported() && Rolling(f, pages, v0, v, m, k) && k < |v.log| && Kinds(f, v, k).Padding?
    ensures Rolling(f, pages, v0, v, m, k + 1)
  {
    hide Halted, KindOf, Committed, TransactionOk, Steady;
  }

  /** Rolling back one more update. */
  lemma RollingNext(f: Format, pages: Pages, pages': Pages, v0: View, v: View, v': View, m: nat, k: nat, tidy: bool)
    requires f.Supported() && Rolling(f, pages, v0, v, m, k) && k < |v.log| && IsUpdate(Kinds(f, v, k)) && Formed(f, v)
    requires (tidy <==> Steady(f, pages, v, true)) && Steady(f, pages', v', tidy)
    requires v' == v || (OnlyAt(v, v', k) && Weaker(f, v, v') && Kinds(f, v', k).Padding?)
    ensures Rolling(f, pages', v0, v', m, k)
    ensures v' != v ==> Rolling(f, pages', v0, v', m, k + 1)
  {
    hide Steady, KindOf, Tight, Apart, Calm, Roomy, Start, Format.V, Content, Committed, TransactionOk, MayOpen,
         OpensPage, Weaker;
    if tidy { SteadyUntidy(f, pages', v'); }
    if v' != v {
      WeakerRoomy(f, v, v');
      WeakerPos(f, v, v');
      RollingTransaction(f, v, v', m, k);
      if !tidy { RollingOpens(f, v, v', m, k); }
      assert v'.log[..m] == v.log[..m];
      assert forall j: nat :: j < |v.log| && j != k ==> v'.log[j] == v.log[j];
    }
  }

  /** While the torn last entry lacks its init info, rolling back others does not matter. */
  lemma RollingOpens(f: Format, v: View, v': View, m: nat, k: nat)
    requires f.Supported() && OpensPage(f, v) && MayOpen(f, v, InTransaction(m)) && m < k < |v.log|
             && IsUpdate(Kinds(f, v, k))
    requires OnlyAt(v, v', k) && Weaker(f, v, v') && (m == |v.log| - 1 || IsTorn(Kinds(f, v, |v.log| - 1)))
    ensures OpensPage(f, v') && MayOpen(f, v', InTransaction(m)) && IsTorn(Kinds(f, v', |v'.log| - 1))
  {
    hide KindOf, Start, Format.V;
    WeakerPos(f, v, v');
    StartSame(f, v, v');
    assert v'.log[|v.log| - 1] == v.log[|v.log| - 1];
  }

  lemma RollingTransaction(f: Format, v: View, v': View, m: nat, k: nat)
    requires f.Supported() && TransactionOk(f, v, m) && !Committed(f, v, m) && m < k < |v.log|
    requires OnlyAt(v, v', k) && Weaker(f, v, v') && Kinds(f, v', k).Padding?
    ensures TransactionOk(f, v', m) && !Committed(f, v', m)
  {
    hide KindOf, Tight, Apart, Calm;
    WeakerPos(f, v, v');
    WeakerShape(f, v, v', m);
    assert forall j: nat :: j < |v.log| && j != k ==> v'.log[j] == v.log[j] && Kinds(f, v', j) == Kinds(f, v, j);
    assert !IsUpdate(Kinds(f, v', k));
    var count := Kinds(f, v, m).entry.count;
    if Broken(f, v, m, count) {
      var j: nat :| m < j <= m + count && j < |v.log| && Kinds(f, v, j).Padding?;
      assert Kinds(f, v', j).Padding?;
    }
  }

  lemma RollingStart(f: Format, pages: Pages, v: View, m: nat)
    requires Halted(f, pages, v, InTransaction(m)) && f.Supported() && TransactionOk(f, v, m)
    requires !Committed(f, v, m) && RollingTidy(f, pages, v, m)
    ensures Rolling(f, pages, v, v, m, m + 1) && Outcome(f, v, InTransaction(m)) == Content(f, v.log[..m])
  {
    hide Steady, KindOf, Tight, Apart, Calm, Roomy, Content, MayOpen, OpensPage;
  }

  /** The changes of one step of a rollback. */
  lemma RollingSet(f: Format, pages: Pages, pages': Pages, v0: View, v: View, v': View, m: nat, k: nat, tidy: bool)
    requires f.Supported() && Rolling(f, pages, v0, v, m, k) && k < |v.log| && IsUpdate(Kinds(f, v, k)) && Formed(f, v)
    requires (tidy <==> Steady(f, pages, v, true)) && Steady(f, pages', v', tidy)
    requires |v'.log| == |v.log|
    requires v' == v || (v' == SetItem(v, k, v'.log[k].ws) && |v'.log[k].ws| == |v.log[k].ws|
                         && Kinds(f, v', k).Padding?)
    ensures Rolling(f, pages', v0, v', m, k)
    ensures Kinds(f, v', k).Padding? ==> Rolling(f, pages', v0, v', m, k + 1)
    ensures forall j: nat :: PosAt(v', j) == PosAt(v, j)
    ensures HeadAt(v', 0) == HeadAt(v, 0)
  {
    hide Steady, KindOf, Rolling, SetItem, Contiguous, MarksOk, Parses;
    if v' == v {
      RollingNext(f, pages, pages', v0, v, v', m, k, tidy);
    } else {
      SetItemWeaker(f, v, k, v'.log[k].ws);
      OnlySet(v, k, v'.log[k].ws);
      WeakerPos(f, v, v');
      RollingNext(f, pages, pages', v0, v, v', m, k, tidy);
    }
  }

  /** The marker stays where it is during a rollback. */
  lemma RollingMarker(f: Format, pages: Pages, v0: View, v: View, m: nat)
    requires f.Supported() && Rolling(f, pages, v0, v, m, |v.log|) && Formed(f, v) && Formed(f, v0) && m < |v0.log|
    ensures m < |v.log| && |v.log[m].ws| == 1 && v.log[m].pos == PosAt(v0, m)
    ensures Steady(f, pages, v, true) || m == |v.log| - 1
  {
    hide Steady, KindOf, Tight, Apart, Calm, Roomy, MayOpen, OpensPage, Parses, MarksOk, Format.V;
    HaltedTransaction(f, pages, v, m);
    MarkerItem(f, v, m);
    HeadIsFirst(f, v);
    HeadIsFirst(f, v0);
    if m > 0 {
      assert v.log[m - 1] == v.log[..m][m - 1] == v0.log[m - 1];
    }
    if m < |v.log| - 1 {
      assert Kinds(f, v, |v.log| - 1).Padding?;
    }
  }

  lemma MarkerKind(f: Format, v: View, m: nat)
    requires f.Supported() && TransactionOk(f, v, m)
    ensures m < |v.log| && Kinds(f, v, m).Internal? && Kinds(f, v, m).entry.Marker?
  {
    hide KindOf, Tight, Apart, Calm;
  }

  /** Mending the torn last entry of a transaction being rolled back. */
  lemma RollingMended(f: Format, pages: Pages, pages': Pages, v0: View, v: View, v': View, m: nat, k: nat)
    requires f.Supported() && Rolling(f, pages, v0, v, m, k) && k == |v.log| - 1 && Mended(f, v, v')
    requires Halted(f, pages', v', InTransaction(m)) && !Committed(f, v', m) && v'.log[..m] == v.log[..m]
    requires Steady(f, pages', v', true)
    ensures Rolling(f, pages', v0, v', m, |v'.log|)
  {
    hide Steady, KindOf, Tight, Apart, Calm, Roomy, Halted, Committed, TransactionOk;
    forall j: nat | m < j < |v'.log| ensures Kinds(f, v', j).Padding? {
      if j < k { assert v'.log[j] == v.log[j] && Kinds(f, v, j).Padding?; }
    }
  }

  /** All entries of the transaction are within reach of the scan. */
  lemma RollingReaches(f: Format, pages: Pages, v0: View, v: View, m: nat, k: nat)
    requires f.Supported() && Rolling(f, pages, v0, v, m, k) && Formed(f, v)
    requires k == |v.log| || PosAt(v, k) >= HeadAt(v, 0) + f.V()
    ensures k == |v.log|
    ensures Steady(f, pages, v, true) || m == |v.log| - 1
  {
    hide Steady, KindOf, Apart, Calm, Roomy, Parses, MarksOk, Format.V, MayOpen, OpensPage;
    if k < |v.log| {
      PosBefore(v, k, |v.log|);
    }
    if m < |v.log| - 1 {
      assert Kinds(f, v, |v.log| - 1).Padding?;
    }
  }

  /** Padding out the marker of a transaction that has been rolled back. */
  lemma RolledBack(f: Format, pages: Pages, pages': Pages, v0: View, v: View, v': View, m: nat)
    requires f.Supported() && Rolling(f, pages, v0, v, m, |v.log|)
    requires OnlyAt(v, v', m) && Weaker(f, v, v') && Kinds(f, v', m).Padding? && Steady(f, pages', v', true)
    ensures AtRest(f, pages', v') && Content(f, v'.log) == Content(f, v0.log[..m])
  {
    hide Steady, KindOf, Tight, Roomy, Content, Halted, Committed;
    HaltedTransaction(f, pages, v, m);
    WeakerRoomy(f, v, v');
    WeakerShape(f, v, v', m);
    forall j: nat | m <= j < |v'.log| ensures Kinds(f, v', j).Padding? {
      if j > m { assert v'.log[j] == v.log[j] && Kinds(f, v, j).Padding?; }
    }
    PaddedIdle(f, v', m);
    ContentPrefix(f, v'.log, m);
    assert v'.log[..m] == v.log[..m];
  }

  lemma SettledOutcome(f: Format, pages: Pages, v: View)
    requires Halted(f, pages, v, Settled)
    ensures f.Supported() && StageOk(f, v, Settled) && Outcome(f, v, Settled) == Content(f, v.log)
  {
    hide Steady, SettledOk, Content, Roomy, MayOpen, OpensPage;
    SteadyFormed(f, pages, v, false);
  }

  lemma HaltedTransaction(f: Format, pages: Pages, v: View, m: nat)
    requires Halted(f, pages, v, InTransaction(m))
    ensures f.Supported() && TransactionOk(f, v, m) && Roomy(f, v)
  {
    hide Steady, KindOf, Tight, Roomy, MayOpen, TransactionOk, OpensPage;
    SteadyFormed(f, pages, v, false);
  }

  lemma TransactionTight(f: Format, v: View, m: nat)
    requires f.Supported() && TransactionOk(f, v, m)
    ensures Tight(f, v) && m < |v.log|
  {
    hide KindOf;
  }

  /** All entries of a log within the virtual capacity are within reach of a scan. */
  lemma LeadsReach(f: Format, v: View, m: nat, k: nat)
    requires Formed(f, v) && Tight(f, v) && k <= |v.log|
    ensures k < |v.log| ==> PosAt(v, k) < HeadAt(v, 0) + f.V()
  {
    hide KindOf, Parses, MarksOk, Format.V;
    if k < |v.log| {
      PosBefore(v, k, |v.log|);
    }
  }

  /** What is parsed tells the kind of an entry. */
  lemma EntryKind(f: Format, pages: Pages, v: View, tidy: bool, k: nat)
    requires Steady(f, pages, v, tidy) && k <= |v.log|
    ensures Shape(f, pages) && ParseEntry(f, pages, PosAt(v, k)).Ok?
    ensures var e := ParseEntry(f, pages, PosAt(v, k)).value.0;
            (e.ParsedTail? <==> k == |v.log|)
            && (k < |v.log| ==>
                  && (e.ParsedUser? <==> Kinds(f, v, k).User?)
                  && (e.ParsedUser? ==> Kinds(f, v, k) == User(e.header.key))
                  && (e.ParsedPadding? <==> Kinds(f, v, k).Padding?)
                  && (e.ParsedInternal? <==> Kinds(f, v, k).Internal?)
                  && (e.ParsedInternal? ==> Kinds(f, v, k) == Internal(e.entry))
                  && (e.ParsedPartialUser? <==> Kinds(f, v, k).TornUser?)
                  && (e.ParsedPartial? <==> Kinds(f, v, k).TornEntry?))
  {
    hide Standing, Snapshot, KindOf, EntryOf, ParseEntry, PosAt;
    SteadyFormed(f, pages, v, tidy);
    SteadyParse(f, pages, v, tidy, k);
    if k < |v.log| {
      EntrySize(f, v, k);
      UserEntryOf(f, v.log[k].ws);
    }
  }
}
