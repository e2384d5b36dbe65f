/** Deleted values are wiped: the words after the first of a padding entry are zero. */
module Wiping {
  import opened Words
  import opened Format
  import opened Bytes
  import opened Entries
  import opened Flash
  import opened Log
  import opened States
  import opened Appending
  import opened Contents
  import opened Stages
  import opened Recovering
  import opened Compaction
  import opened Migration
  import opened Phases
  import opened StoreUpdates

  /** Padding holds nothing but zeros after its first word. */
  ghost predicate Clean(f: Format, v: View)
    requires f.Supported()
  {
    forall k: nat :: k < |v.log| && Kinds(f, v, k).Padding? && v.log[k].ws != [] ==> v.log[k].ws == Wiped(v.log[k].ws)
  }

  lemma WipedTwice(ws: seq<Word>)
    requires ws != []
    ensures Wiped(Wiped(ws)) == Wiped(ws)
    ensures |ws| == 1 ==> Wiped(ws) == ws
  {
  }

  /** Completely deleting entries leaves the log clean. */
  lemma FadedClean(f: Format, v: View, v': View, keys: seq<nat>, n: nat)
    requires Formed(f, v) && Clean(f, v) && Faded(f, v, v', keys, n)
    ensures Clean(f, v')
  {
    hide KindOf, MarksOk, Parses, Wiped, DeletedWords;
    FadedFades(f, v, v', keys, n);
    forall k: nat | k < |v'.log| && Kinds(f, v', k).Padding?
      && v'.log[k].ws != [] ensures v'.log[k].ws == Wiped(v'.log[k].ws) {
      if v'.log[k] != v.log[k] {
        assert Targeted(f, v, keys, k) && v.log[k].ws != [];
        DeletedWiped(v.log[k].ws);
      } else {
        assert Kinds(f, v, k).Padding?;
      }
    }
  }

  lemma DeletedWiped(ws: seq<Word>)
    requires ws != []
    ensures Wiped(DeletedWords(ws)) == DeletedWords(ws)
  {
    WipedTwice(FirstCleared(ws, 2));
  }

  /** Padding out a one-word entry leaves the log clean. */
  lemma SetOneClean(f: Format, v: View, k: nat, ws: seq<Word>)
    requires f.Supported() && Clean(f, v) && k < |v.log| && |ws| == 1
    ensures Clean(f, SetItem(v, k, ws))
  {
    hide KindOf, Wiped;
    var v' := SetItem(v, k, ws);
    WipedTwice(ws);
    forall j: nat | j < |v'.log| && Kinds(f, v', j).Padding?
      && v'.log[j].ws != [] ensures v'.log[j].ws == Wiped(v'.log[j].ws) {
      if j != k { assert v'.log[j] == v.log[j] && Kinds(f, v, j).Padding?; }
    }
  }

  lemma AppendClean(f: Format, v: View, ws: seq<Word>)
    requires f.Supported() && Clean(f, v) && !KindOf(f, ws).Padding?
    ensures Clean(f, Append(f, v, ws))
  {
    hide KindOf, Wiped, Start;
    AppendKinds(f, v, ws);
    AppendMarks(f, v, ws);
    var v' := Append(f, v, ws);
    forall j: nat | j < |v'.log| && Kinds(f, v', j).Padding?
      && v'.log[j].ws != [] ensures v'.log[j].ws == Wiped(v'.log[j].ws) {
      assert j < |v.log| && v'.log[j] == v.log[j] && Kinds(f, v, j).Padding?;
    }
  }

  lemma {:induction false} TowerClean(f: Format, d: View, es: seq<seq<Word>>, c: nat)
    requires f.Supported() && c <= |es| && Clean(f, d)
    requires forall i: nat :: i < |es| ==> !KindOf(f, es[i]).Padding?
    ensures Clean(f, Tower(f, d, es, c))
  {
    hide KindOf, Wiped, Start, Append;
    if c > 0 {
      TowerClean(f, d, es, c - 1);
      AppendClean(f, Tower(f, d, es, c - 1), es[c - 1]);
    }
  }

  /** A compaction leaves the log clean. */
  lemma NextClean(f: Format, v: View)
    requires Formed(f, v) && Clean(f, v)
    ensures Clean(f, Next(f, v))
  {
    hide KindOf, MarksOk, Contiguous, Parses, Wiped, Start, EraseWord, Copies, Append, Tower;
    CopiesAppendable(f, v);
    EraseKind(f, v);
    DroppedPos(f, v);
    DroppedClean(f, v);
    TowerClean(f, Dropped(f, v), Copies(f, v), |Copies(f, v)|);
    NextIs(f, v);
    SetOneClean(f, Compacted(f, v), |Compacted(f, v).log| - 1, FirstCleared([EraseWord(f, v)], 0));
  }

  lemma DroppedClean(f: Format, v: View)
    requires Formed(f, v) && Clean(f, v)
    ensures Clean(f, Dropped(f, v))
  {
    hide KindOf, MarksOk, Contiguous, Parses, Wiped, Start;
    GoneBound(f, v);
    DroppedPos(f, v);
    var d := Dropped(f, v);
    forall j: nat | j < |d.log| && Kinds(f, d, j).Padding?
      && d.log[j].ws != [] ensures d.log[j].ws == Wiped(d.log[j].ws) {
      assert d.log[j] == v.log[j + Gone(v)] && Kinds(f, v, j + Gone(v)).Padding?;
    }
  }

  lemma UserClean(f: Format, v: View, key: nat, value: seq<byte>, ws: seq<Word>)
    requires f.Supported() && Clean(f, v) && ForUser(f, key, value, ws)
    ensures Clean(f, Append(f, v, ws))
  {
    hide KindOf, Append, BuildUser, Clean;
    AppendClean(f, v, ws);
  }

  lemma MarkerClean(f: Format, v: View, us: seq<StoreUpdate>)
    requires f.Supported() && Clean(f, v) && |us| <= MAX_UPDATES
    ensures BuildInternal(Marker(|us|)).Ok? && Clean(f, Append(f, v, [BuildInternal(Marker(|us|)).value]))
  {
    hide KindOf, Append, BuildInternal, Clean;
    InternalKind(f, Marker(|us|));
    AppendClean(f, v, [BuildInternal(Marker(|us|)).value]);
  }

  lemma ClearClean(f: Format, v: View, minKey: nat)
    requires f.Supported() && Clean(f, v) && minKey <= MAX_KEY
    ensures BuildInternal(Clear(minKey)).Ok? && Clean(f, Append(f, v, [BuildInternal(Clear(minKey)).value]))
  {
    hide KindOf, Append, BuildInternal, Clean;
    InternalKind(f, Clear(minKey));
    AppendClean(f, v, [BuildInternal(Clear(minKey)).value]);
  }

  lemma UpdateClean(f: Format, v: View, v': View, u: StoreUpdate, length: nat)
    requires f.Supported() && Clean(f, v) && ValidUpdate(f, u)
    requires exists ws: seq<Word> :: v' == Append(f, v, ws) && WrittenFor(f, u, ws) && |ws| == length + 1
    ensures Clean(f, v')
  {
    hide KindOf, Append, Clean, WrittenFor, ValidUpdate;
    var ws: seq<Word> :| v' == Append(f, v, ws) && WrittenFor(f, u, ws) && |ws| == length + 1;
    WrittenKind(f, u, ws);
    AppendClean(f, v, ws);
  }

  // ---------------------------------------------------------------------------------------------
  // Recovery

  /** The padding between two indexes holds nothing but zeros after its first word. */
  ghost predicate CleanBetween(f: Format, v: View, a: nat, b: nat)
    requires f.Supported()
  {
    forall k: nat :: a <= k < b && k < |v.log| && Kinds(f, v, k).Padding? && v.log[k].ws != [] ==>
      v.log[k].ws == Wiped(v.log[k].ws)
  }

  /** The `n` first entries of a log were looked at by a recovery, which wiped those that are padding. */
  ghost predicate Scoured(f: Format, v: View, v': View, n: nat)
    requires f.Supported()
  {
    && |v'.log| == |v.log| && v'.tail == v.tail && HeadAt(v', 0) == HeadAt(v, 0)
    && (forall k: nat :: n <= k < |v.log| ==> v'.log[k] == v.log[k])
    && CleanBetween(f, v', 0, n)
    && (Clean(f, v) ==> Clean(f, v'))
  }

  lemma ScouredStart(f: Format, v: View)
    requires f.Supported()
    ensures Scoured(f, v, v, 0)
  {
    hide KindOf, Wiped, Clean;
  }

  lemma ScouredSkip(f: Format, v: View, v': View, n: nat)
    requires f.Supported() && Scoured(f, v, v', n) && n < |v'.log| && !Kinds(f, v', n).Padding?
    ensures Scoured(f, v, v', n + 1)
  {
    hide KindOf, Wiped, Clean;
  }

  lemma ScouredSet(f: Format, v: View, v0: View, v': View, n: nat)
    requires f.Supported() && Scoured(f, v, v0, n) && n < |v0.log| == |v'.log|
    requires v' == SetItem(v0, n, v'.log[n].ws) && HeadAt(v', 0) == HeadAt(v0, 0)
    requires v0.log[n].ws != [] && (|v'.log[n].ws| == 1 || v'.log[n].ws == Wiped(v0.log[n].ws))
    ensures Scoured(f, v, v', n + 1)
  {
    hide KindOf, Wiped;
    var ws := v'.log[n].ws;
    WipedTwice(if |ws| == 1 then ws else v0.log[n].ws);
    forall k: nat | k < |v'.log| && k != n ensures v'.log[k] == v0.log[k] && Kinds(f, v', k) == Kinds(f, v0, k) {
    }
  }

  /** Once all entries were looked at, the log is clean. */
  lemma ScouredAll(f: Format, v: View, v': View, n: nat)
    requires f.Supported() && Scoured(f, v, v', n)
    ensures n >= |v'.log| ==> Clean(f, v')
    ensures Clean(f, v) ==> Clean(f, v')
    ensures Tight(f, v') == Tight(f, v)
  {
    hide KindOf, Wiped, HeadAt, Format.V;
  }

  /** When an entry that is not padding comes next, what comes after it decides. */
  lemma ScouredRest(f: Format, v: View, v': View, n: nat)
    requires f.Supported() && Scoured(f, v, v', n) && n < |v'.log| && !Kinds(f, v', n).Padding?
    ensures Clean(f, v') <==> CleanBetween(f, v, n + 1, |v.log|)
    ensures n == |v'.log| - 1 ==> Clean(f, v')
  {
    hide KindOf, Wiped;
    forall k: nat | n <= k < |v.log| ensures Kinds(f, v', k) == Kinds(f, v, k) {
      assert v'.log[k] == v.log[k];
    }
  }

  /** A transaction of which all updates were written has no padding. */
  lemma CommittedClean(f: Format, v: View, m: nat)
    requires f.Supported() && TransactionOk(f, v, m) && Committed(f, v, m)
    ensures CleanBetween(f, v, m + 1, |v.log|)
  {
    hide KindOf, Wiped;
  }

  lemma CleanPart(f: Format, v: View, a: nat)
    requires f.Supported()
    ensures Clean(f, v) ==> CleanBetween(f, v, a, |v.log|)
  {
    hide KindOf, Wiped;
  }

  lemma SetTight(f: Format, v: View, v': View, k: nat)
    requires f.Supported() && k < |v.log| == |v'.log| && v' == SetItem(v, k, v'.log[k].ws)
    ensures Tight(f, v') == Tight(f, v)
  {
  }

  /** What a rollback replaces an update by. */
  lemma RolledClean(f: Format, v: View, v': View, k: nat)
    requires f.Supported() && k < |v.log| == |v'.log| && !Kinds(f, v, k).Padding? && v.log[k].ws != []
    requires v' == SetItem(v, k, v'.log[k].ws)
    requires |v'.log[k].ws| == 1 || v'.log[k].ws == DeletedWords(v.log[k].ws)
    ensures Clean(f, v') <==> Clean(f, v)
    ensures Tight(f, v') == Tight(f, v)
  {
    hide KindOf, Wiped, DeletedWords, Clean, Tight;
    if |v'.log[k].ws| == 1 { WipedTwice(v'.log[k].ws); } else { DeletedWiped(v.log[k].ws); }
    SetCleanSame(f, v, v', k);
    SetTight(f, v, v', k);
  }

  /** A scan of a tight log reaches its tail. */
  lemma ScanTight(f: Format, v: View, k: nat)
    requires Formed(f, v) && k <= |v.log|
    requires k == |v.log| || PosAt(v, k) >= HeadAt(v, 0) + f.V()
    ensures Tight(f, v) ==> k == |v.log|
  {
    hide KindOf, MarksOk, Parses, Format.V;
    if k < |v.log| {
      assert v.log[k].ws != [] && End(v.log[k]) <= v.tail;
    }
  }

  /** Replacing an entry that is not padding by wiped padding keeps the log as clean as it was. */
  lemma SetCleanSame(f: Format, v: View, v': View, k: nat)
    requires f.Supported() && k < |v.log| == |v'.log| && !Kinds(f, v, k).Padding?
    requires v' == SetItem(v, k, v'.log[k].ws)
    requires v'.log[k].ws != [] ==> v'.log[k].ws == Wiped(v'.log[k].ws)
    ensures Clean(f, v') <==> Clean(f, v)
  {
    hide KindOf, Wiped;
    forall j: nat | j < |v.log| && j != k ensures v'.log[j] == v.log[j] && Kinds(f, v', j) == Kinds(f, v, j) {
    }
    if Clean(f, v') {
      forall j: nat | j < |v.log| && Kinds(f, v, j).Padding? && v.log[j].ws != []
        ensures v.log[j].ws == Wiped(v.log[j].ws)
      {
        assert v'.log[j] == v.log[j];
      }
    }
  }

  /** Mending a torn entry into one-word padding keeps the log as clean as it was. */
  lemma SplitCleanSame(f: Format, v: View, v1: View, ws: seq<Word>, v': View)
    requires f.Supported() && v.log != [] && IsTorn(Kinds(f, v, |v.log| - 1)) && |v1.log| == |v.log|
    requires forall j: nat :: j < |v.log| - 1 ==> v1.log[j] == v.log[j]
    requires v' == Split(v1, ws)
    ensures Clean(f, v') <==> Clean(f, v)
  {
    hide KindOf, Wiped, Split;
    var n := |v.log| - 1;
    SplitItems(v1, ws);
    forall j: nat | n <= j < |v'.log| ensures v'.log[j].ws == Wiped(v'.log[j].ws) {
      WipedTwice(v'.log[j].ws);
    }
    forall j: nat | j < n ensures v'.log[j] == v.log[j] && Kinds(f, v', j) == Kinds(f, v, j) {
    }
    if Clean(f, v') {
      forall j: nat | j < n && Kinds(f, v, j).Padding? && v.log[j].ws != [] ensures v.log[j].ws == Wiped(v.log[j].ws) {
        assert v'.log[j] == v.log[j];
      }
    }
  }

  lemma SplitItems(v: View, ws: seq<Word>)
    requires v.log != []
    ensures |Split(v, ws).log| == |v.log| - 1 + |ws|
    ensures forall j: nat :: j < |v.log| - 1 ==> Split(v, ws).log[j] == v.log[j]
    ensures forall j: nat :: |v.log| - 1 <= j < |Split(v, ws).log| ==> |Split(v, ws).log[j].ws| == 1
  {
  }

  lemma MendedClean(f: Format, v: View, v1: View, v': View)
    requires f.Supported() && v.log != [] && IsTorn(Kinds(f, v, |v.log| - 1)) && v.log[|v.log| - 1].ws != []
    requires v1 == SetItem(v, |v.log| - 1, Wiped(v.log[|v.log| - 1].ws))
    requires v1.log != [] && v' == Split(v1, Wiped(FirstCleared(v.log[|v.log| - 1].ws, 0)))
    ensures Clean(f, v') <==> Clean(f, v)
  {
    hide KindOf, Wiped, Clean, Split;
    SplitCleanSame(f, v, v1, Wiped(FirstCleared(v.log[|v.log| - 1].ws, 0)), v');
  }

  /** The marker of a transaction that was rolled back is padded out. */
  lemma PaddedMarkerClean(f: Format, v: View, v': View, m: nat)
    requires f.Supported() && TransactionOk(f, v, m) && |v.log[m].ws| == 1
    requires v' == SetItem(v, m, FirstCleared(v.log[m].ws, 0))
    ensures (Clean(f, v') <==> Clean(f, v)) && Tight(f, v') == Tight(f, v)
  {
    hide KindOf, Wiped, Clean, Tight, Calm, Apart;
    ItemSet(v, m, FirstCleared(v.log[m].ws, 0));
    RolledClean(f, v, v', m);
  }

  /**
   How clean a successful recovery from a stage of an operation leaves the log: all padding is wiped,
   but for the padding that already followed the marker of a transaction.
   */
  ghost predicate Rinsed(f: Format, v: View, st: Stage, v': View)
    requires f.Supported()
  {
    && (Tight(f, v) ==>
          && Tight(f, v')
          && (Clean(f, v') <==> (st.InTransaction? ==> CleanBetween(f, v, st.marker + 1, |v.log|))))
    && (Clean(f, v) ==> Clean(f, v'))
  }

  /** What comes last is an entry that is not padding. */
  lemma RinsedLast(f: Format, v: View, st: Stage, v0: View, n: nat, v': View)
    requires f.Supported() && Scoured(f, v, v0, n) && n == |v0.log| - 1 && !Kinds(f, v0, n).Padding?
             && !st.InTransaction?
    requires Clean(f, v0) ==> Clean(f, v')
    requires Tight(f, v0) ==> Tight(f, v')
    ensures Rinsed(f, v, st, v')
  {
    hide KindOf, Wiped, Clean, Tight, Scoured, CleanBetween;
    ScouredRest(f, v, v0, n);
    ScouredAll(f, v, v0, n);
  }

  /** What comes next is the marker of a transaction. */
  lemma RinsedTransaction(f: Format, v: View, v0: View, n: nat, v': View)
    requires f.Supported() && Scoured(f, v, v0, n) && n < |v0.log| && !Kinds(f, v0, n).Padding?
    requires Clean(f, v0) ==> Clean(f, v')
    requires Clean(f, v') ==> CleanBetween(f, v0, n + 1, |v0.log|)
    requires Tight(f, v')
    ensures Rinsed(f, v, InTransaction(n), v')
  {
    hide KindOf, Wiped, Clean, Tight, Scoured, CleanBetween;
    ScouredRest(f, v, v0, n);
    ScouredAll(f, v, v0, n);
    ScouredAfter(f, v, v0, n);
  }

  lemma ScouredAfter(f: Format, v: View, v0: View, n: nat)
    requires f.Supported() && Scoured(f, v, v0, n)
    ensures CleanBetween(f, v0, n + 1, |v0.log|) <==> CleanBetween(f, v, n + 1, |v.log|)
  {
    hide KindOf, Wiped, Clean;
    forall k: nat | n + 1 <= k < |v.log| ensures v0.log[k] == v.log[k] && Kinds(f, v0, k) == Kinds(f, v, k) {
    }
  }

  /** The scan is over. */
  lemma RinsedEnd(f: Format, v: View, v0: View, n: nat, v': View)
    requires Formed(f, v0) && Scoured(f, v, v0, n) && n <= |v0.log|
    requires n == |v0.log| || PosAt(v0, n) >= HeadAt(v0, 0) + f.V()
    requires Clean(f, v0) ==> Clean(f, v')
    requires Tight(f, v0) ==> Tight(f, v')
    ensures Rinsed(f, v, Settled, v')
  {
    hide KindOf, Wiped, Clean, Tight, Scoured, CleanBetween, Contiguous, MarksOk, Parses, HeadAt, PosAt;
    ScouredAll(f, v, v0, n);
    ScanTight(f, v0, n);
  }

  lemma ScouredPadded(f: Format, v: View, v0: View, v': View, n: nat)
    requires f.Supported() && Scoured(f, v, v0, n) && n < |v0.log| && |v0.log[n].ws| == 1
    requires v' == SetItem(v0, n, FirstCleared(v0.log[n].ws, 0)) && HeadAt(v', 0) == HeadAt(v0, 0)
    ensures Scoured(f, v, v', n + 1)
  {
    hide KindOf, Wiped, Scoured, HeadAt;
    ItemSet(v0, n, FirstCleared(v0.log[n].ws, 0));
    ScouredSet(f, v, v0, v', n);
  }

  lemma MendedTight(f: Format, v: View, v': View)
    requires f.Supported() && Mended(f, v, v')
    ensures Tight(f, v') == Tight(f, v)
  {
    hide KindOf, Roomy, Tight;
  }

  /** A store that has a clean log once it is recovered. */
  ghost predicate Cleanable(f: Format, p: Phase)
    requires f.Supported()
  {
    match p
    case Fresh => true
    case Operating(v, st) =>
      Clean(f, v) || (Tight(f, v) && (st.InTransaction? ==> CleanBetween(f, v, st.marker + 1, |v.log|)))
    case Marking(v) => Clean(f, v)
    case Compressing(v, _) => Clean(f, v)
  }

  /** A log that stays within the virtual capacity, with its transaction, is cleaned by one recovery. */
  lemma UnbrokenCleanable(f: Format, v: View, st: Stage)
    requires f.Supported() && Tight(f, v) && Unbroken(f, v, st)
    ensures Cleanable(f, Operating(v, st))
  {
    hide KindOf, Clean, Tight, Wiped;
  }

  lemma AmidCleanable(f: Format, p: Phase, v: View)
    requires f.Supported() && Amid(f, p, v) && Clean(f, v) && Formed(f, v)
    ensures Cleanable(f, p)
  {
    hide Clean, Tight, CleanBetween, Next, Formed;
    NextClean(f, v);
  }

  lemma LessLeanClean(f: Format, v: View)
    requires f.Supported()
    ensures Clean(f, v.(lean := false)) == Clean(f, v)
  {
    hide KindOf, Wiped;
    assert forall k: nat :: k < |v.log| ==> Kinds(f, v.(lean := false), k) == Kinds(f, v, k);
  }

  lemma TightCleanable(f: Format, v: View, st: Stage)
    requires f.Supported() && Tight(f, v) && !st.InTransaction?
    ensures Cleanable(f, Operating(v, st))
  {
    hide Clean, Tight;
  }

  lemma SettledCleanable(f: Format, v: View)
    requires f.Supported() && (Clean(f, v) || Tight(f, v))
    ensures Cleanable(f, Operating(v, Settled))
  {
    hide Clean, Tight;
  }

  /** Recovering after a compaction was completed. */
  lemma NextCleanable(f: Format, p: Phase)
    requires f.Supported() && (p.Marking? || p.Compressing?) && Formed(f, p.v) && Cleanable(f, p)
    ensures Cleanable(f, Operating(Next(f, p.v), Settled))
  {
    hide Clean, Tight, Next, Formed;
    NextClean(f, p.v);
  }

  /** Once a compaction is completed, the store is at rest with the same map. */
  lemma NextPhase(f: Format, pages: Pages, p: Phase)
    requires f.Supported() && (p.Marking? || p.Compressing?) && Formed(f, p.v) && AtRest(f, pages, Next(f, p.v))
    requires Content(f, Next(f, p.v).log) == Content(f, p.v.log)
    ensures InPhase(f, pages, Operating(Next(f, p.v), Settled))
    ensures Promise(f, Operating(Next(f, p.v), Settled)) == Promise(f, p)
    ensures Cleanable(f, p) ==> Cleanable(f, Operating(Next(f, p.v), Settled))
    ensures Next(f, p.v).lean == p.v.lean
  {
    hide AtRest, Cleanable, Next, Formed, Content, InPhase, StageOk, Outcome;
    if Cleanable(f, p) { NextCleanable(f, p); }
    RestPromised(f, pages, Next(f, p.v));
    NextLean(f, p.v);
  }

  lemma RinsedClean(f: Format, p: Phase, v': View)
    requires f.Supported() && p.Operating? && Rinsed(f, p.v, p.st, v')
    ensures Cleanable(f, p) ==> Clean(f, v')
  {
    hide Clean, Tight, CleanBetween;
  }

  lemma EmptyCleanable(f: Format, v: View)
    requires f.Supported() && v.log == []
    ensures Cleanable(f, Operating(v, Settled))
  {
  }
}
