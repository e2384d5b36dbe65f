/** A run with two interruptions after which a recovery leaves a deleted value in the flash. */
module Unwiped {
  import opened Words
  import opened Format
  import opened Entries
  import opened Flash
  import opened Log
  import opened States
  import opened Storage
  import opened Appending
  import opened Contents
  import opened Stages
  import opened Recovering
  import opened Phases
  import opened Booting
  import opened StoreUpdates
  import opened Searching
  import opened Capacity
  import opened Wiping
  import opened Model
  import opened Store
  import opened Driver

  /** A transaction of two updates. */
  function Updates2(): seq<StoreUpdate> {
    [InsertUpdate(0, [1]), RemoveUpdate(1)]
  }

  /** It may be written to a new store. */
  lemma Updates2Prepared(f: Format)
    requires f.Supported() && f.C() >= 4
    ensures Prepared(f, EmptyView(), Updates2()) && UpdateSize(Updates2()[0]) == 2
  {
    var us := Updates2();
    assert us[..1] == [us[0]] && us[..1][..0] == [];
    VirtSizes(f);
    SizeOne(f);
  }

  lemma SizeOne(f: Format)
    requires f.Supported()
    ensures EntryWords([1]) == 2 && 1 <= f.MaxValueLen()
  {
  }

  lemma {:induction false} NumZeros(b: Bits)
    requires forall i :: 0 <= i < |b| ==> !b[i]
    ensures Num(b) == 0
  {
    if b != [] { NumZeros(b[1..]); }
  }

  lemma ZeroByte()
    ensures ByteAt(ZERO_WORD, 0) == 0
  {
    NumZeros(ZERO_WORD[8 * 0..8 * 0 + 8]);
  }

  lemma OneWordBytes(w: Word)
    ensures Unpack([w])[0] == ByteAt(w, 0)
  {
    hide ByteAt;
  }

  /** The word that holds the value is not zero. */
  lemma ValueWord(f: Format, ws: seq<Word>)
    requires f.Supported() && |ws| == 2 && KindOf(f, ws).User? && ValueOf(f, ws) == [1]
    ensures ws[1] != ZERO_WORD && FirstCleared(ws, 2) != Wiped(FirstCleared(ws, 2))
  {
    hide KindOf, HeaderOf, ByteAt, Unpack;
    assert ws[1..] == [ws[1]];
    OneWordBytes(ws[1]);
    ZeroByte();
    assert ValueOf(f, ws)[0] == 1;
    assert FirstCleared(ws, 2)[1] == ws[1];
  }

  /** A transaction that is stopped before its second update is written. */
  method StopTransaction(store: Store) returns (ghost v: View)
    requires store.Ready() && AtRest(store.f, store.storage.pages, EmptyView()) && store.f.C() >= 4
    requires store.storage.interruption.Disarmed?
    modifies store.storage
    ensures store.Ready() && store.storage.interruption.Disarmed? && Steady(store.f, store.storage.pages, v, true)
    ensures Formed(store.f, v) && Writing(store.f, EmptyView(), v, Updates2(), 1)
    ensures |v.log| == 2 && v.log[1].pos == 1
    ensures KindOf(store.f, v.log[1].ws) == User(0) && |v.log[1].ws| == 2 && ValueOf(store.f, v.log[1].ws) == [1]
  {
    hide Steady, Standing, KindOf, Start, Append, Complete, Writing, Prepared, LeavesUpdate, LeavesInternal, WrittenFor,
         Content, Idle, Roomy, OpensPage, Formed, TransactionOk, Committed, SettledOk, BuildInternal, FirstCleared,
         Outcome, Format.C, Format.V, InitsParse, IsExtremum, ValueOf, UpdateSize;
    var f := store.f;
    ghost var v0, us := EmptyView(), Updates2();
    RestFacts(f, store.storage.pages, v0);
    Updates2Prepared(f);
    PreparedRoom(f, v0, us);
    var r;
    r, v := store.AppendInternal(0, Marker(2), v0);
    InternalLeaves(f, v0, v, Marker(2), r.Ok?);
    ghost var st := MarkerLeft(f, store.storage.pages, v0, v, us);
    MarkerLast(f, v0, v, us);
    ghost var tidy := HaltedTidy(f, store.storage.pages, v);
    r := store.InitEntry(0, 0, v, tidy, 0);
    UpdateRoom(f, v0, v, us, 0);
    ghost var v1 := v;
    var length;
    r, length, v := store.WriteUpdate(1, InsertUpdate(0, [1]), v1);
    UpdateHalts(f, store.storage.pages, v0, v1, v, us, 0);
    FirstWritten(f, v0, v1, v, length);
    tidy := HaltedTidy(f, store.storage.pages, v);
    r := store.InitEntry(1, 1 + length, v, tidy, 1);
  }

  lemma FirstWritten(f: Format, v0: View, v: View, v': View, length: nat)
    requires f.Supported() && Formed(f, v) && Prepared(f, v0, Updates2()) && Writing(f, v0, v, Updates2(), 0)
    requires v0 == EmptyView() && |v.log| == 1 && v.tail == 1
    requires exists ws: seq<Word> :: v' == Append(f, v, ws) && WrittenFor(f, Updates2()[0], ws) && |ws| == length + 1
    ensures Formed(f, v') && Writing(f, v0, v', Updates2(), 1) && |v'.log| == 2 && v'.log[1].pos == 1
    ensures KindOf(f, v'.log[1].ws) == User(0) && |v'.log[1].ws| == 2 && ValueOf(f, v'.log[1].ws) == [1]
    ensures length == 1 && End(v'.log[1]) == 3
  {
    hide KindOf, WrittenFor, Formed, Start, Prepared, Writing, Append, ValueOf, UpdateSize;
    var us := Updates2();
    UpdateLast(f, v0, v, v', us, 0, length);
    var ws: seq<Word> :| v' == Append(f, v, ws) && WrittenFor(f, us[0], ws) && |ws| == length + 1;
    AppendedLast(f, v, ws);
    FirstWords(f, ws);
  }

  lemma FirstWords(f: Format, ws: seq<Word>)
    requires f.Supported() && WrittenFor(f, Updates2()[0], ws)
    ensures KindOf(f, ws) == User(0) && |ws| == 2 && ValueOf(f, ws) == [1]
  {
    hide KindOf, ValueOf, BuildUser;
    SizeOne(f);
    WrittenKind(f, InsertUpdate(0, [1]), ws);
  }

  /** The rollback of that transaction, stopped once the update is marked as deleted but not wiped. */
  method StopRollback(store: Store, ghost v0: View) returns (ghost v: View)
    requires store.Ready() && store.storage.interruption.Disarmed? && Steady(store.f, store.storage.pages, v0, true)
    requires store.f.C() >= 4 && Formed(store.f, v0) && Writing(store.f, EmptyView(), v0, Updates2(), 1)
    requires |v0.log| == 2 && v0.log[1].pos == 1
    requires KindOf(store.f, v0.log[1].ws) == User(0) && |v0.log[1].ws| == 2 && ValueOf(store.f, v0.log[1].ws) == [1]
    modifies store.storage
    ensures store.Ready() && store.storage.interruption.Disarmed?
    ensures Halted(store.f, store.storage.pages, v, InTransaction(0)) && Tight(store.f, v)
    ensures !CleanBetween(store.f, v, 1, |v.log|)
    ensures StageOk(store.f, v, InTransaction(0)) && Outcome(store.f, v, InTransaction(0)) == map[]
    ensures v == SetItem(v0, 1, FirstCleared(v0.log[1].ws, 2))
  {
    hide Steady, Standing, KindOf, Writing, Prepared, Content, Idle, Roomy, OpensPage, Formed, TransactionOk, Committed,
         FirstCleared, Outcome, Format.C, Format.V, ValueOf, Halted, Rolling, Tight, CleanBetween, SetItem;
    var f := store.f;
    ghost var pages := store.storage.pages;
    Updates2Prepared(f);
    UnderWay(f, pages, v0);
    var r;
    r, v := store.SetDeleted(1, v0, true, 1);
    DeletedItem(f, v0, v);
    RollingSet(f, pages, store.storage.pages, v0, v0, v, 0, 1, true);
    RollingOutcome(f, store.storage.pages, v0, v, 0, 1);
    EmptyContent(f, v0.log[..0]);
    HaltedTransaction(f, store.storage.pages, v, 0);
    TransactionTight(f, v, 0);
    NotWiped(f, v0, v);
  }

  /** The transaction is under way, and not committed. */
  lemma UnderWay(f: Format, pages: Pages, v: View)
    requires f.Supported() && f.C() >= 4 && Formed(f, v) && Steady(f, pages, v, true)
    requires Writing(f, EmptyView(), v, Updates2(), 1) && |v.log| == 2 && KindOf(f, v.log[1].ws) == User(0)
    ensures Rolling(f, pages, v, v, 0, 1) && IsUpdate(Kinds(f, v, 1))
  {
    hide Steady, KindOf, Writing, Prepared, Roomy, Formed, TransactionOk, Committed, Complete, Outcome, MayOpen,
         Content, OpensPage;
    Updates2Prepared(f);
    WritingOk(f, EmptyView(), v, Updates2(), 1);
    SteadyUntidy(f, pages, v);
    RollingStart(f, pages, v, 0);
  }

  lemma DeletedItem(f: Format, v: View, v': View)
    requires f.Supported() && |v.log| == 2 && v.log[1].ws != [] && v' == SetItem(v, 1, FirstCleared(v.log[1].ws, 2))
    requires KindOf(f, FirstCleared(v.log[1].ws, 2)).Padding?
    ensures |v'.log| == 2 && v'.log[1].ws == FirstCleared(v.log[1].ws, 2) && v' == SetItem(v, 1, v'.log[1].ws)
    ensures |v'.log[1].ws| == |v.log[1].ws| && Kinds(f, v', 1).Padding?
  {
    hide KindOf;
  }

  lemma NotWiped(f: Format, v: View, v': View)
    requires f.Supported() && |v.log| == |v'.log| == 2 && |v.log[1].ws| == 2 && KindOf(f, v.log[1].ws).User?
    requires ValueOf(f, v.log[1].ws) == [1] && v'.log[1].ws == FirstCleared(v.log[1].ws, 2)
    requires Kinds(f, v', 1).Padding?
    ensures !CleanBetween(f, v', 1, |v'.log|)
  {
    hide KindOf, ValueOf, FirstCleared, Wiped;
    ValueWord(f, v.log[1].ws);
    assert Kinds(f, v', 1).Padding? && v'.log[1].ws != [];
  }

  /** A flash, and the log that it holds. */
  datatype State = State(pages: Pages, v: View)

  /** A transaction on a new store stopped after its first update. */
  ghost predicate Written(f: Format, s: State) {
    && Halted(f, s.pages, s.v, InTransaction(0)) && f.Supported() && Writing(f, EmptyView(), s.v, Updates2(), 1)
    && |s.v.log| == 2
  }

  /** Its rollback stopped after marking that update as deleted. */
  ghost predicate Marked(f: Format, s: State, s': State)
    requires Written(f, s)
  {
    && s.v.log[1].ws != [] && s'.v == SetItem(s.v, 1, FirstCleared(s.v.log[1].ws, 2))
    && Halted(f, s'.pages, s'.v, InTransaction(0))
  }

  /**
   A transaction is interrupted before its second update is written; the recovery that rolls it back is
   interrupted once the first update is deleted but not wiped. The next recovery is not interrupted, and
   still leaves the deleted value in the flash; only the one after wipes it.
   */
  method LeaveUnwiped(storage: BufferStorage)
    returns (first: Status, second: Status, ghost written: State, ghost marked: State, ghost unwiped: State,
             ghost v: View)
    requires storage.Valid() && storage.interruption.Disarmed? && InPhase(storage.f, storage.pages, Fresh)
    requires storage.f.C() >= 4
    modifies storage
    ensures Written(storage.f, written) && Marked(storage.f, written, marked)
    ensures first.Ok? && AtRest(storage.f, unwiped.pages, unwiped.v) && !Clean(storage.f, unwiped.v)
    ensures Rinsed(storage.f, marked.v, InTransaction(0), unwiped.v)
    ensures second.Ok? && AtRest(storage.f, storage.pages, v) && Clean(storage.f, v)
    ensures Content(storage.f, unwiped.v.log) == Content(storage.f, v.log) == map[]
  {
    hide AtRest, Content, InPhase, Promise, Stuck, EmptyView, Cleanable, Clean, Tight, CleanBetween, Format.C, Halted,
         Writing, Steady, Formed, KindOf, ValueOf, StageOk, Outcome, Rinsed, FirstCleared, SetItem;
    var f := storage.f;
    NotStuck(f, Fresh);
    PhaseShape(f, storage.pages, Fresh);
    FreshPromise(f);
    EmptyLog();
    var resumed;
    ghost var p;
    resumed, p := Open(storage, Fresh);
    OnlyErrors(resumed);
    var store := resumed.value;
    ghost var w := StopTransaction(store);
    UnderWay(f, storage.pages, w);
    RollingOutcome(f, storage.pages, w, w, 0, 1);
    written := State(storage.pages, w);
    ghost var stopped := StopRollback(store, w);
    marked := State(storage.pages, stopped);
    HaltedPhase(f, storage.pages, stopped, InTransaction(0));
    p := Operating(stopped, InTransaction(0));
    first, v := RecoverOnce(store, p);
    unwiped := State(storage.pages, v);
    second, v := RecoverOnce(store, Operating(v, Settled));
  }

  /** A recovery that is not interrupted wipes what it comes across. */
  method RecoverOnce(store: Store, ghost p: Phase) returns (r: Status, ghost v: View)
    requires store.Ready() && store.storage.interruption.Disarmed? && InPhase(store.f, store.storage.pages, p)
    requires p.Operating? && Tight(store.f, p.v)
    modifies store.storage
    ensures store.Ready() && store.storage.interruption.Disarmed? && r.Ok? && AtRest(store.f, store.storage.pages, v)
    ensures Tight(store.f, v) && Content(store.f, v.log) == Promise(store.f, p)
    ensures InPhase(store.f, store.storage.pages, Operating(v, Settled))
    ensures Promise(store.f, Operating(v, Settled)) == Promise(store.f, p)
    ensures Rinsed(store.f, p.v, p.st, v)
    ensures Clean(store.f, v) <==> (p.st.InTransaction? ==> CleanBetween(store.f, p.v, p.st.marker + 1, |p.v.log|))
  {
    hide AtRest, Content, InPhase, Promise, Stuck, Cleanable, Clean, Tight, CleanBetween, Kept;
    var f := store.f;
    NotStuck(f, p);
    ghost var p1;
    r, p1 := store.Recover(p);
    OnlyErrors(r);
    v := p1.v;
    OpenedRest(f, store.storage.pages, p1);
  }
}
