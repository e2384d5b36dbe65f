/**
 The persistent store: a map from keys to values over a flash storage. Any storage operation may be
 interrupted; the method under way then returns `StorageError` at once and the flash is left torn.
 */
module Store {
  import opened Wrappers
  import opened Words
  import opened Format
  import opened Bytes
  import opened Entries
  import opened Flash
  import opened Log
  import opened Parsing
  import opened States
  import opened Storage
  import opened Initializing
  import opened Appending
  import opened Contents
  import opened Stages
  import opened Transactions
  import opened StoreUpdates
  import opened SortedKeys
  import opened Recovering
  import opened Compaction
  import opened Migration
  import opened Phases
  import opened Searching
  import opened Booting
  import opened Capacity
  import opened Model
  import opened Wiping
  import opened Endurance
  import opened Lifetime

  class Store {
    const f: Format
    const storage: BufferStorage

    constructor (storage: BufferStorage)
      requires storage.Valid()
      ensures this.storage == storage && f == storage.f
    {
      this.storage := storage;
      this.f := storage.f;
    }

    ghost predicate Ready()
      reads this, storage
    {
      storage.f == f && storage.Valid()
    }

    /** No operation was or will be interrupted, and the flash is worn as it should be. */
    ghost predicate Tame(v: View)
      reads this, storage
    {
      storage.interruption.Disarmed? && Worn(f, storage.pages, storage.wear, v)
    }

    /** A compaction was not and will not be interrupted, and has made some of the copies. */
    ghost predicate Gentle(v: View, c: nat)
      reads this, storage
    {
      && storage.interruption.Disarmed? && WornIn(f, storage.pages, storage.wear, v.first, v)
      && f.Supported() && Laid(f, storage.pages, v.first, Copied(f, v, c), true)
    }

    /** Writes words of the virtual storage that lie in one page. */
    method WriteInPage(pos: nat, ws: seq<Word>, ghost first: nat) returns (r: Status)
      requires Ready() && Writable(Snapshot(f, storage.pages, first), pos, ws)
      requires WordIndex(f, pos) + |ws| <= f.Q() + 2
      modifies storage
      ensures Ready()
      ensures r.Ok? ==> Written(old(Snapshot(f, storage.pages, first)), Snapshot(f, storage.pages, first), pos, ws)
      ensures r.Err? ==> r.error == StoreError.StorageError
                         && TornWritten(old(Snapshot(f, storage.pages, first)), Snapshot(f, storage.pages, first),
                                        pos, ws)
      ensures old(Holds(Snapshot(f, storage.pages, first), pos, ws)) ==> r.Ok? && unchanged(storage)
      ensures Undisturbed(old(storage.interruption), storage.interruption, r == Err(StoreError.StorageError))
      ensures r.Ok? ==> Aged(f, old(storage.pages), storage.pages, old(storage.wear), storage.wear, first)
    {
      hide Snapshot, PageOf, WordIndex, PageIndex, Format.Q, Format.Supported, WindowSize, ReadWord, Aged, Counted;
      var page, index := PageOf(f, pos), WordIndex(f, pos);
      ghost var pages := storage.pages;
      ghost var s := Snapshot(f, pages, first);
      SnapshotReads(f, pages, first);
      SliceIs(f, pages, first, pos, |ws|);
      ghost var before := Slice(f, pages, page, index, |ws|);
      assert Holds(s, pos, ws) ==> before == ws;
      r := storage.StorageWriteSlice(page, index, ws);
      ContentChange(f, pages, storage.pages, first, pos, |ws|);
      if r.Ok? { CountedAged(f, pages, storage.pages, old(storage.wear), storage.wear, first); }
      SnapshotReads(f, storage.pages, first);
      SliceIs(f, storage.pages, first, pos, |ws|);
    }

    /** Writes words of the virtual storage, which may span two pages. */
    method WriteSlice(pos: nat, ws: seq<Word>, ghost first: nat) returns (r: Status)
      requires Ready() && Writable(Snapshot(f, storage.pages, first), pos, ws) && |ws| <= f.Q()
      modifies storage
      ensures Ready()
      ensures r.Ok? ==> Written(old(Snapshot(f, storage.pages, first)), Snapshot(f, storage.pages, first), pos, ws)
      ensures r.Err? ==> r.error == StoreError.StorageError
                         && TornWritten(old(Snapshot(f, storage.pages, first)), Snapshot(f, storage.pages, first),
                                        pos, ws)
      ensures old(Holds(Snapshot(f, storage.pages, first), pos, ws)) ==> r.Ok? && unchanged(storage)
      ensures Undisturbed(old(storage.interruption), storage.interruption, r == Err(StoreError.StorageError))
      ensures r.Ok? ==> Aged(f, old(storage.pages), storage.pages, old(storage.wear), storage.wear, first)
    {
      hide Snapshot, PageOf, WordIndex, NextPage, Format.Q, Format.Supported, Written, TornWritten, Aged;
      NextPageIs(f, pos);
      var maxLength := f.Q() + 2 - WordIndex(f, pos);
      var n := Min(|ws|, maxLength);
      ghost var s := Snapshot(f, storage.pages, first);
      assert Writable(s, pos, ws[..n]);
      assert Holds(s, pos, ws) ==> Holds(s, pos, ws[..n]) && Holds(s, pos + n, ws[n..]);
      r := WriteInPage(pos, ws[..n], first);
      ghost var s1 := Snapshot(f, storage.pages, first);
      if r.Err? {
        TornThen(s, s1, pos, ws, n);
        return;
      }
      ghost var pages1, wear1 := storage.pages, storage.wear;
      if |ws| > maxLength {
        WrittenSame(s, s1, pos, ws[..n]);
        WritableThen(s, s1, pos, ws, n);
        r := WriteInPage(NextPage(f, pos), ws[n..], first);
        WrittenThen(s, s1, Snapshot(f, storage.pages, first), pos, ws, n);
        if r.Ok? {
          WrittenSame(s1, Snapshot(f, storage.pages, first), pos + n, ws[n..]);
          AgedThen(f, old(storage.pages), pages1, storage.pages, old(storage.wear), wear1, storage.wear, first, pos,
                   n, |ws| - n);
        }
      } else {
        assert ws[..n] == ws;
      }
    }

    /** Returns the least or the greatest position that the init info of a page points to. */
    method GetExtremumPageHead(greatest: bool) returns (r: Result<nat, StoreError>)
      requires Ready() && InitsParse(f, storage.pages)
      ensures forall h: nat :: IsExtremum(f, storage.pages, greatest, h) ==> r == Ok(h)
    {
      hide ParseInit, InfoOf, Format.Q, Format.Supported, Position;
      var best: Option<nat> := None;
      for page := 0 to f.numPages
        invariant best.Some? ==> exists p: nat :: p < page && PageHead(f, storage.pages, p) == best
        invariant forall p: nat :: p < page && PageHead(f, storage.pages, p).Some? ==>
          best.Some? && if greatest then PageHead(f, storage.pages, p).value <= best.value
                        else PageHead(f, storage.pages, p).value >= best.value
      {
        var init := ParseInit(f, InfoOf(f, storage.pages, page, 0)).value;
        if init.Valid? {
          var pos := Position(f, init.value.cycle, page, init.value.prefix);
          assert PageHead(f, storage.pages, page) == Some(pos);
          if best.None? || (if greatest then pos > best.value else pos < best.value) {
            best := Some(pos);
          }
        }
      }
      if best.None? {
        return Err(InvalidStorage);
      }
      return Ok(best.value);
    }

    /** Where the log starts: the least of all page heads. */
    method Head(ghost h: nat) returns (r: Result<nat, StoreError>)
      requires Ready() && InitsParse(f, storage.pages) && IsExtremum(f, storage.pages, false, h)
      ensures r == Ok(h)
    {
      hide IsExtremum, InitsParse;
      r := GetExtremumPageHead(false);
    }

    /** Where the log ends: found by parsing on from the greatest page head. */
    method Tail(ghost v: View) returns (r: Result<nat, StoreError>)
      requires Ready() && Standing(f, storage.pages, v, true)
      ensures r == Ok(v.tail)
    {
      hide IsExtremum, InitsParse, ParseEntry, EntryOf, Standing, NextPage, Start, Contiguous, Parses;
      StandingHead(f, storage.pages, v, true);
      ghost var last := |v.marks| - 1;
      r := GetExtremumPageHead(true);
      var pos := r.value;
      var end := NextPage(f, pos);
      assert Formed(f, v) by { StandingFormed(f, storage.pages, v, true); }
      LastPage(f, v);
      ghost var k := v.marks[last];
      while pos < end
        invariant k <= |v.log| && pos == PosAt(v, k) && pos <= v.tail
        decreases |v.log| - k
      {
        StandingParse(f, storage.pages, v, true, k);
        var entry := ParseEntry(f, storage.pages, pos).value;
        if entry.0.ParsedTail? {
          break;
        }
        pos := entry.1;
        k := k + 1;
      }
      return Ok(pos);
    }

    /**
     Writes the init info of the page that an entry is the first to use, if it does not have it yet.
     That entry extends from `first` to `last`. Also returns what the flash then holds as init info of the
     last page in use.
     */
    method InitPage(first: nat, last: nat, ghost w: nat, ghost v: View, ghost off: nat, ghost n: nat,
                    ghost tidy: bool, ghost k: nat)
      returns (r: Status, ghost u: Word)
      requires Ready() && Inited(f, storage.pages, w, v, off, n, tidy)
      requires k < |v.log| && first == v.log[k].pos && last == End(v.log[k]) - 1
      requires tidy || OpensPage(f, v)
      modifies storage
      ensures Ready()
      ensures r.Err? ==> r.error == StoreError.StorageError
      ensures tidy || k < |v.log| - 1 ==> r.Ok? && unchanged(storage)
      ensures !tidy && k == |v.log| - 1 ==>
                && v.marks != [] && Covers(u, InitWord(f, v, |v.marks| - 1))
                && Snapshot(f, storage.pages, w) == WithInit(old(Snapshot(f, storage.pages, w)), off + |v.marks| - 1, u)
                && (r.Ok? ==> u == InitWord(f, v, |v.marks| - 1))
                && (Initialized(f, old(Snapshot(f, storage.pages, w)), v, off, |v.marks| - 1) ==>
                      u == InitWord(f, v, |v.marks| - 1))
      ensures Undisturbed(old(storage.interruption), storage.interruption, r == Err(StoreError.StorageError))
      ensures r.Ok? ==> Aged(f, old(storage.pages), storage.pages, old(storage.wear), storage.wear, w)
    {
      hide Snapshot, ParseInit, InfoOf, PageOf, NewFirst, BuildInit, CycleIndex, VirtPage, WordOf, Inited, InitWord,
           Initialized, PageIndex, Finished, WithInit, OpensPage, Shape, Slice, DiffersOnlyIn, Format.Q, Aged, Counted;
      InitTargetIs(f, storage.pages, w, v, off, n, tidy, k);
      u := if v.marks != [] then InitWord(f, v, |v.marks| - 1) else ERASED_WORD;
      ghost var pages := storage.pages;
      FinishedKept(f, pages, w, v, off, n, tidy, k);
      SameAged(f, pages, storage.wear, w);
      var newFirst := NewFirst(f, first, last);
      if newFirst.None? {
        return Ok(()), u;
      }
      var page := PageOf(f, newFirst.value);
      if ParseInit(f, InfoOf(f, storage.pages, page, 0)).value.Valid? {
        return Ok(()), u;
      }
      var info := InitInfo(CycleIndex(f, VirtPage(f, newFirst.value)), WordOf(f, newFirst.value));
      var word := BuildInit(info).value;
      var words := [word];
      assert |words| == 1 && Slice(f, pages, page, 0, |words|) == Slice(f, pages, page, 0, 1);
      r := storage.StorageWriteSlice(page, 0, words);
      if r.Ok? { CountedAged(f, pages, storage.pages, old(storage.wear), storage.wear, w); }
      u := InitWritten(f, pages, storage.pages, w, v, off, n, tidy, page, word, r.Ok?);
    }

    /** Writes the init info of the page that an entry of a steady log is the first to use, if needed. */
    method InitEntry(first: nat, last: nat, ghost v: View, ghost tidy: bool, ghost k: nat) returns (r: Status)
      requires Ready() && Steady(f, storage.pages, v, tidy)
      requires k < |v.log| && first == v.log[k].pos && last == End(v.log[k]) - 1
      requires tidy || OpensPage(f, v)
      modifies storage
      ensures Ready() && Steady(f, storage.pages, v, tidy)
      ensures r.Ok? && k == |v.log| - 1 ==> Steady(f, storage.pages, v, true)
      ensures r.Err? ==> r.error == StoreError.StorageError
      ensures tidy || k < |v.log| - 1 ==> r.Ok? && unchanged(storage)
      ensures Undisturbed(old(storage.interruption), storage.interruption, r == Err(StoreError.StorageError))
      ensures old(Tame(v)) ==> Tame(v)
    {
      hide Steady, Standing, InitsParse, IsExtremum, Snapshot, InitWord, Inited, OpensPage, Initialized, WithInit, Aged,
           WornIn, Intact, Exact;
      SteadyStands(f, storage.pages, v, tidy);
      StandingInited(f, storage.pages, v, tidy);
      ghost var pages := storage.pages;
      ghost var u;
      r, u := InitPage(first, last, v.first, v, 0, f.numPages, tidy, k);
      if !tidy && k == |v.log| - 1 {
        FirstInitialized(f, pages, v, false);
        SteadyInit(f, pages, storage.pages, v, u);
        if old(Tame(v)) {
          StandingMarks(f, pages, v, tidy);
          WornInit(f, pages, storage.pages, old(storage.wear), storage.wear, v.first, v, 0, v);
        }
      }
    }

    /** Clears a bit of a word. */
    method ClearWord(pos: nat, bit: nat, ghost first: nat) returns (r: Status)
      requires Ready() && bit < 32 && InWindow(Snapshot(f, storage.pages, first), pos, 1)
      modifies storage
      ensures Ready()
      ensures var s, s' := old(Snapshot(f, storage.pages, first)), Snapshot(f, storage.pages, first);
              var w: Word := ClearBit(At(s, pos), bit);
              if r.Ok? then Written(s, s', pos, [w]) else TornWritten(s, s', pos, [w])
      ensures r.Err? ==> r.error == StoreError.StorageError
      ensures Undisturbed(old(storage.interruption), storage.interruption, r == Err(StoreError.StorageError))
      ensures r.Ok? ==> Aged(f, old(storage.pages), storage.pages, old(storage.wear), storage.wear, first)
    {
      hide Snapshot, Format.Q, Written, TornWritten, ReadWord, Aged;
      SnapshotReads(f, storage.pages, first);
      var word := ClearBit(ReadWord(f, storage.pages, pos), bit);
      assert Writable(Snapshot(f, storage.pages, first), pos, [word]);
      r := WriteSlice(pos, [word], first);
    }

    /** Clears a bit of the first word of an entry. */
    method ClearFirst(pos: nat, bit: nat, ghost v: View, ghost tidy: bool, ghost k: nat)
      returns (r: Status, ghost v': View)
      requires Ready() && Steady(f, storage.pages, v, tidy)
      requires k < |v.log| && pos == v.log[k].pos && bit < 32 && v.log[k].ws != []
      requires Replaces(f, v, k, FirstCleared(v.log[k].ws, bit))
      modifies storage
      ensures Ready() && Steady(f, storage.pages, v', tidy)
      ensures v' == SetItem(v, k, FirstCleared(v.log[k].ws, bit)) || (r.Err? && v' == v)
      ensures r.Err? ==> r.error == StoreError.StorageError
      ensures Undisturbed(old(storage.interruption), storage.interruption, r == Err(StoreError.StorageError))
      ensures !Kinds(f, v, k).Padding? && KindOf(f, FirstCleared(v.log[k].ws, bit)).Padding? && old(Tame(v)) ==>
                Tame(v')
    {
      hide Snapshot, Steady, Replaces, FirstCleared, Format.Q, Written, TornWritten, KindOf, Aged, Worn;
      ghost var pages := storage.pages;
      SteadyHolds(f, pages, v, tidy, k);
      assert At(Snapshot(f, pages, v.first), pos) == v.log[k].ws[0];
      r := ClearWord(pos, bit, v.first);
      ClearedFirst(f, pages, storage.pages, v, tidy, k, bit, r.Ok?);
      if !Kinds(f, v, k).Padding? && KindOf(f, FirstCleared(v.log[k].ws, bit)).Padding? && old(Tame(v)) {
        SteadyFormed(f, pages, v, tidy);
        WornClear(f, pages, storage.pages, old(storage.wear), storage.wear, v, k, bit);
      }
      v' := SetItem(v, k, FirstCleared(v.log[k].ws, bit));
      if !Steady(f, storage.pages, v', tidy) {
        v' := v;
      }
    }

    /** Sets some words to zero. */
    method WipeSpan(pos: nat, length: nat, ghost first: nat) returns (r: Status)
      requires Ready() && Writable(Snapshot(f, storage.pages, first), pos, ZeroWords(length)) && length <= f.Q()
      modifies storage
      ensures Ready()
      ensures var s, s' := old(Snapshot(f, storage.pages, first)), Snapshot(f, storage.pages, first);
              if r.Ok? then Written(s, s', pos, ZeroWords(length)) else TornWritten(s, s', pos, ZeroWords(length))
      ensures r.Err? ==> r.error == StoreError.StorageError
      ensures Undisturbed(old(storage.interruption), storage.interruption, r == Err(StoreError.StorageError))
      ensures r.Ok? ==> Aged(f, old(storage.pages), storage.pages, old(storage.wear), storage.wear, first)
    {
      hide Snapshot, Written, TornWritten, Writable, Aged;
      r := WriteSlice(pos, ZeroWords(length), first);
    }

    /** Wipes the words of an entry after the first. */
    method WipeEntry(pos: nat, length: nat, ghost v: View, ghost tidy: bool, ghost k: nat)
      returns (r: Status, ghost v': View)
      requires Ready() && Steady(f, storage.pages, v, tidy)
      requires k < |v.log| && pos == v.log[k].pos + 1 && |v.log[k].ws| == length + 1
      requires Kinds(f, v, k).Padding? || (Kinds(f, v, k).TornEntry? && k == |v.log| - 1)
      modifies storage
      ensures Ready() && Steady(f, storage.pages, v', tidy)
      ensures |v'.log| == |v.log| && v' == SetItem(v, k, v'.log[k].ws)
      ensures |v'.log[k].ws| == |v.log[k].ws| && Kinds(f, v', k) == Kinds(f, v, k)
      ensures v'.log[k].ws[0] == v.log[k].ws[0]
      ensures r.Ok? ==> v'.log[k].ws == Wiped(v.log[k].ws)
      ensures r.Err? ==> r.error == StoreError.StorageError
      ensures Undisturbed(old(storage.interruption), storage.interruption, r == Err(StoreError.StorageError))
      ensures old(Tame(v)) ==> Tame(v')
    {
      hide Snapshot, Steady, Standing, Format.Q, Written, TornWritten, ReadWord, KindOf, Replaces, Aged, Worn;
      ghost var pages := storage.pages;
      SteadyHolds(f, pages, v, tidy, k);
      SnapshotReads(f, pages, v.first);
      r := WipeSpan(pos, length, v.first);
      ghost var ws := WipedWords(f, pages, storage.pages, v, tidy, k, r.Ok?);
      v' := SetItem(v, k, ws);
      if old(Tame(v)) {
        SteadyFormed(f, pages, v, tidy);
        WornWipe(f, pages, storage.pages, old(storage.wear), storage.wear, v, k, ws);
      }
    }

    /** Turns an entry of one word into padding. */
    method SetPadding(pos: nat, ghost v: View, ghost tidy: bool, ghost k: nat) returns (r: Status, ghost v': View)
      requires Ready() && Steady(f, storage.pages, v, tidy)
      requires k < |v.log| && pos == v.log[k].pos && |v.log[k].ws| == 1
      modifies storage
      ensures Ready() && Steady(f, storage.pages, v', tidy)
      ensures v' == SetItem(v, k, FirstCleared(v.log[k].ws, 0)) || (r.Err? && v' == v)
      ensures KindOf(f, FirstCleared(v.log[k].ws, 0)).Padding?
      ensures r.Err? ==> r.error == StoreError.StorageError
      ensures Undisturbed(old(storage.interruption), storage.interruption, r == Err(StoreError.StorageError))
      ensures !Kinds(f, v, k).Padding? && old(Tame(v)) ==> Tame(v')
    {
      hide Steady, Standing, InitsParse, IsExtremum, KindOf, Worn;
      PaddedKind(f, v.log[k].ws[0]);
      assert FirstCleared(v.log[k].ws, 0) == [ClearBit(v.log[k].ws[0], 0)];
      r, v' := ClearFirst(pos, 0, v, tidy, k);
    }

    /** Turns a user entry into padding that still holds its value. */
    method SetDeleted(pos: nat, ghost v: View, ghost tidy: bool, ghost k: nat) returns (r: Status, ghost v': View)
      requires Ready() && Steady(f, storage.pages, v, tidy)
      requires k < |v.log| && pos == v.log[k].pos && v.log[k].ws != []
      requires Kinds(f, v, k).User? || Kinds(f, v, k).TornUser?
      modifies storage
      ensures Ready() && Steady(f, storage.pages, v', tidy)
      ensures v' == SetItem(v, k, FirstCleared(v.log[k].ws, 2)) || (r.Err? && v' == v)
      ensures KindOf(f, FirstCleared(v.log[k].ws, 2)).Padding?
      ensures r.Err? ==> r.error == StoreError.StorageError
      ensures Undisturbed(old(storage.interruption), storage.interruption, r == Err(StoreError.StorageError))
      ensures old(Tame(v)) ==> Tame(v')
    {
      hide Steady, Standing, InitsParse, IsExtremum, KindOf, Worn;
      DeletedKind(f, v.log[k].ws, FirstCleared(v.log[k].ws, 2));
      r, v' := ClearFirst(pos, 2, v, tidy, k);
    }

    /** Marks a user entry as deleted, then wipes its value. */
    method DeletePos(pos: nat, length: nat, ghost v: View, ghost tidy: bool, ghost k: nat)
      returns (r: Status, ghost v': View)
      requires Ready() && Steady(f, storage.pages, v, tidy)
      requires k < |v.log| && pos == v.log[k].pos && |v.log[k].ws| == length + 1
      requires Kinds(f, v, k).User? || Kinds(f, v, k).TornUser?
      modifies storage
      ensures Ready() && Steady(f, storage.pages, v', tidy)
      ensures |v'.log| == |v.log| && v' == SetItem(v, k, v'.log[k].ws) && |v'.log[k].ws| == |v.log[k].ws|
      ensures v' == v || Kinds(f, v', k).Padding?
      ensures r.Ok? ==> v'.log[k].ws == DeletedWords(v.log[k].ws) && Kinds(f, v', k).Padding?
      ensures r.Err? ==> r.error == StoreError.StorageError
      ensures Undisturbed(old(storage.interruption), storage.interruption, r == Err(StoreError.StorageError))
      ensures old(Tame(v)) ==> Tame(v')
    {
      hide Steady, Standing, InitsParse, IsExtremum, KindOf, Worn;
      r, v' := SetDeleted(pos, v, tidy, k);
      if r.Err? {
        return;
      }
      r, v' := WipeEntry(pos + 1, length, v', tidy, k);
    }

    /** Deletes the user entries for some keys up to a position. */
    method DeleteKeys(sortedKeys: seq<nat>, end: nat, ghost v: View, ghost tidy: bool, ghost n: nat)
      returns (r: Status, ghost v': View)
      requires Ready() && Steady(f, storage.pages, v, tidy)
      requires n <= |v.log| && end == PosAt(v, n)
      requires forall k: nat :: k < n ==> Kinds(f, v, k).Padding? || Kinds(f, v, k).User?
      modifies storage
      ensures Ready() && Steady(f, storage.pages, v', tidy)
      ensures Fades(f, v, v', sortedKeys, n)
      ensures r.Ok? ==> Faded(f, v, v', sortedKeys, n)
      ensures r.Err? ==> r.error == StoreError.StorageError
      ensures Undisturbed(old(storage.interruption), storage.interruption, r == Err(StoreError.StorageError))
      ensures old(Tame(v)) ==> Tame(v')
    {
      hide Steady, Standing, InitsParse, IsExtremum, KindOf, EntryOf, Fades, Faded, ParseEntry, DeletedWords, SetItem,
           PosAt, HeadAt, Worn;
      v' := v;
      SteadyHead(f, storage.pages, v, tidy);
      var head := Head(HeadAt(v, 0));
      var pos := head.value;
      ghost var k := 0;
      SteadyStart(f, storage.pages, v, tidy);
      FadesSelf(f, v, sortedKeys);
      SteadyOrder(f, storage.pages, v, tidy, 0, n);
      while pos < end
        invariant k <= n && pos == PosAt(v, k) && (pos < end <==> k < n)
        invariant Ready() && Steady(f, storage.pages, v', tidy)
        invariant Undisturbed(old(storage.interruption), storage.interruption, false)
        invariant Faded(f, v, v', sortedKeys, k)
        invariant old(Tame(v)) ==> Tame(v')
        decreases n - k
      {
        FadedFades(f, v, v', sortedKeys, k);
        FadesPos(f, v, v', sortedKeys, k);
        SteadyParse(f, storage.pages, v', tidy, k);
        SteadyHolds(f, storage.pages, v', tidy, k);
        EndIsNext(f, v', k);
        UserEntryOf(f, v.log[k].ws);
        var entry := ParseEntry(f, storage.pages, pos).value;
        if entry.0.ParsedUser? && entry.0.header.key in sortedKeys {
          ghost var v0 := v';
          r, v' := DeletePos(pos, entry.1 - pos - 1, v', tidy, k);
          FadesSet(f, v, v0, v', sortedKeys, k);
          if r.Err? {
            FadesMore(f, v, v', sortedKeys, k + 1, n);
            return;
          }
          FadedFades(f, v, v', sortedKeys, k + 1);
          FadesPos(f, v, v', sortedKeys, k + 1);
        } else {
          FadesSkip(f, v, v', sortedKeys, k);
        }
        pos := entry.1;
        k := k + 1;
        SteadyOrder(f, storage.pages, v', tidy, k, n);
      }
      FadedFades(f, v, v', sortedKeys, n);
      return Ok(()), v';
    }

    /** Writes an internal entry at the tail. */
    method AppendInternal(pos: nat, e: InternalEntry, ghost v: View) returns (r: Status, ghost v': View)
      requires Ready() && Steady(f, storage.pages, v, true) && Complete(f, v)
      requires pos == v.tail && v.tail + 1 <= Start(f, v, f.numPages - 1) && InternalInRange(f, e)
      modifies storage
      ensures Ready() && Steady(f, storage.pages, v', |v'.marks| == |v.marks|)
      ensures r.Ok? ==> BuildInternal(e).Ok? && v' == Append(f, v, [BuildInternal(e).value])
      ensures r.Err? ==> r.error == StoreError.StorageError && LeavesInternal(f, v, v', e)
      ensures Undisturbed(old(storage.interruption), storage.interruption, r == Err(StoreError.StorageError))
      ensures old(Tame(v)) ==> Tame(v')
    {
      hide Snapshot, Steady, Standing, Format.Q, Format.M, Start, BuildInternal, KindOf, Append, Complete,
           LeavesInternal, Worn, Aged;
      InternalKind(f, e);
      var word := BuildInternal(e).value;
      ghost var pages := storage.pages;
      TailWritable(f, pages, v, true, [word]);
      r := WriteSlice(pos, [word], v.first);
      if r.Err? {
        v' := InternalLeft(f, pages, storage.pages, v, e);
        return;
      }
      SteadyAppend(f, pages, storage.pages, v, [word]);
      if old(Tame(v)) { WornSteadyNext(f, pages, storage.pages, old(storage.wear), storage.wear, v, [word]); }
      v' := Append(f, v, [word]);
    }

    /** Writes a user entry at the tail: all its words but the last, then the last. */
    method AppendUser(pos: nat, key: nat, value: seq<byte>, entry: seq<Word>, ghost v: View)
      returns (r: Status, ghost v': View)
      requires Ready() && Steady(f, storage.pages, v, true) && Complete(f, v)
      requires ForUser(f, key, value, entry)
      requires pos == v.tail && v.tail + |entry| <= Start(f, v, f.numPages - 1)
      modifies storage
      ensures Ready() && Steady(f, storage.pages, v', |v'.marks| == |v.marks|)
      ensures r.Ok? ==> v' == Append(f, v, entry)
      ensures r.Err? ==> r.error == StoreError.StorageError && LeavesUser(f, v, v', entry)
      ensures Undisturbed(old(storage.interruption), storage.interruption, r == Err(StoreError.StorageError))
      ensures old(Tame(v)) ==> Tame(v')
    {
      hide Snapshot, Steady, Standing, Format.Q, Start, BuildUser, KindOf, Append, Complete, LeavesUser, Format.M,
           Written, TornWritten, Worn, Aged;
      ghost var pages := storage.pages;
      ghost var s := Snapshot(f, pages, v.first);
      var footer := |entry| - 1;
      TailWritable(f, pages, v, true, entry);
      TailWritable(f, pages, v, true, entry[..footer]);
      r := WriteSlice(pos, entry[..footer], v.first);
      if r.Err? {
        v' := UserLeftFirst(f, pages, storage.pages, v, key, value, entry);
        return;
      }
      ghost var pages1, wear1 := storage.pages, storage.wear;
      WrittenSame(s, Snapshot(f, pages1, v.first), pos, entry[..footer]);
      WritableThen(s, Snapshot(f, pages1, v.first), pos, entry, footer);
      assert entry[footer..] == [entry[footer]];
      r := WriteSlice(pos + footer, [entry[footer]], v.first);
      if r.Err? {
        v' := UserLeftSecond(f, pages, pages1, storage.pages, v, key, value, entry);
        return;
      }
      WrittenThen(s, Snapshot(f, pages1, v.first), Snapshot(f, storage.pages, v.first), pos, entry, footer);
      assert Written(s, Snapshot(f, storage.pages, v.first), pos, entry);
      WrittenSame(s, Snapshot(f, storage.pages, v.first), pos, entry);
      SteadyAppend(f, pages, storage.pages, v, entry);
      if old(Tame(v)) {
        WrittenSame(Snapshot(f, pages1, v.first), Snapshot(f, storage.pages, v.first), pos + footer, [entry[footer]]);
        AgedThen(f, pages, pages1, storage.pages, old(storage.wear), wear1, storage.wear, v.first, pos, footer, 1);
        WornSteadyNext(f, pages, storage.pages, old(storage.wear), storage.wear, v, entry);
      }
      v' := Append(f, v, entry);
    }

    /** Once the new entry is there: completes the init info of its page, and deletes the entry that it replaces. */
    method InsertInit(pos: nat, length: nat, key: nat, ghost v: View, ghost k: nat) returns (r: Status, ghost v': View)
      requires Ready() && Halted(f, storage.pages, v, Settled) && Calm(f, v, |v.log|)
      requires k < |v.log| && pos == v.log[k].pos && |v.log[k].ws| == length + 1 && Kinds(f, v, k) == User(key)
      requires k == |v.log| - 1 || AtRest(f, storage.pages, v)
      modifies storage
      ensures Ready() && Halted(f, storage.pages, v', Settled)
      ensures Outcome(f, v', Settled) == Outcome(f, v, Settled)
      ensures r.Ok? ==> AtRest(f, storage.pages, v')
      ensures Weaker(f, v, v') && Tight(f, v') == Tight(f, v)
      ensures r.Err? ==> r.error == StoreError.StorageError
      ensures r.Ok? && Clean(f, v) ==> Clean(f, v')
      ensures Undisturbed(old(storage.interruption), storage.interruption, r == Err(StoreError.StorageError))
      ensures old(Tame(v)) ==> Tame(v')
    {
      hide Steady, Standing, InitsParse, IsExtremum, KindOf, SettledOk, Roomy, Content, OpensPage, Fades, Faded, PosAt,
           Formed, Idle, Clean, Worn;
      v' := v;
      WeakerSelf(f, v);
      ghost var tidy := HaltedTidy(f, storage.pages, v);
      r := InitEntry(pos, pos + length, v, tidy, k);
      if r.Err? {
        return;
      }
      SteadyFormed(f, storage.pages, v, true);
      ItemPos(v, k);
      r, v' := DeleteKeys([key], pos, v, true, k);
      SteadyFormed(f, storage.pages, v', true);
      SteadyUntidy(f, storage.pages, v');
      if r.Ok? {
        FadedFades(f, v, v', [key], k);
        if Clean(f, v) { FadedClean(f, v, v', [key], k); }
      }
      ReplacedFades(f, v, v', key, k);
      FadesWeaker(f, v, v', [key], k);
    }

    /** Inserts an entry for which there is immediately room, after the checks of an insertion. */
    method InsertEntry(key: nat, value: seq<byte>, entry: seq<Word>, ghost v: View) returns (r: Status, ghost v': View)
      requires Ready() && AtRest(f, storage.pages, v) && ForUser(f, key, value, entry)
      requires v.tail + |entry| <= HeadAt(v, 0) + f.V() && (v.lean ==> Used(f, v.log) + |entry| <= f.C())
      modifies storage
      ensures Ready() && Halted(f, storage.pages, v', Settled)
      ensures Outcome(f, v', Settled) == Content(f, v.log)[key := value]
              || (r.Err? && Outcome(f, v', Settled) == Content(f, v.log))
      ensures r.Ok? ==> AtRest(f, storage.pages, v') 
      ensures Tight(f, v') && v'.lean == v.lean && (r.Ok? ==> Weaker(f, Append(f, v, entry), v'))
      ensures r.Err? ==> r.error == StoreError.StorageError
      ensures r.Ok? && Clean(f, v) ==> Clean(f, v')
      ensures Undisturbed(old(storage.interruption), storage.interruption, r == Err(StoreError.StorageError))
      ensures old(Tame(v)) ==> Tame(v')
    {
      hide Steady, Standing, InitsParse, IsExtremum, KindOf, SettledOk, Roomy, Content, OpensPage, Append, Formed,
           Apart, ForUser, Start, Clean, Worn;
      SteadyStands(f, storage.pages, v, true);
      var tailResult := Tail(v);
      var tail := tailResult.value;
      SteadyFormed(f, storage.pages, v, true);
      InsertPrepared(f, storage.pages, v, key, value, entry);
      r, v' := AppendUser(tail, key, value, entry, v);
      AppendedHalts(f, storage.pages, v, v', key, value, entry);
      if r.Err? {
        return;
      }
      ghost var v2 := v';
      if Clean(f, v) { UserClean(f, v, key, value, entry); }
      r, v' := InsertInit(tail, |entry| - 1, key, v2, |v.log|);
    }

    /** Deletes the entry for a key, if there is one. */
    method Remove(key: nat, ghost v: View) returns (r: Status, ghost v': View)
      requires Ready() && AtRest(f, storage.pages, v)
      modifies storage
      ensures Ready()
      ensures key > MAX_KEY <==> r == Err(InvalidArgument)
      ensures r == Err(InvalidArgument) ==> unchanged(storage) && v' == v
      ensures r.Err? ==> r.error == InvalidArgument || r.error == StoreError.StorageError
      ensures AtRest(f, storage.pages, v')
      ensures Content(f, v'.log) == Content(f, v.log) - {key} || (r.Err? && Content(f, v'.log) == Content(f, v.log))
      ensures Weaker(f, v, v') && Tight(f, v') == Tight(f, v) && (Scannable(f, v) ==> Scannable(f, v'))
      ensures r.Ok? && Clean(f, v) ==> Clean(f, v')
      ensures Undisturbed(old(storage.interruption), storage.interruption, r == Err(StoreError.StorageError))
      ensures old(Tame(v)) ==> Tame(v')
    {
      hide Steady, Standing, InitsParse, IsExtremum, KindOf, Idle, Roomy, Content, Fades, Faded, Formed, PosAt, Clean,
           Worn;
      v' := v;
      WeakerSelf(f, v);
      if key > MAX_KEY {
        return Err(InvalidArgument), v;
      }
      SteadyFormed(f, storage.pages, v, true);
      IdleCalm(f, v);
      SteadyStands(f, storage.pages, v, true);
      var tail := Tail(v);
      r, v' := DeleteKeys([key], tail.value, v, true, |v.log|);
      if r.Ok? {
        FadedFades(f, v, v', [key], |v.log|);
        if Clean(f, v) { FadedClean(f, v, v', [key], |v.log|); }
      }
      RemovedFades(f, v, v', key);
      FadesWeaker(f, v, v', [key], |v.log|);
      WeakerScannable(f, v, v');
    }

    /** Deletes the user entries from a key on before the internal entry of a clear operation. */
    method DeleteAbove(clear: nat, minKey: nat, ghost v: View) returns (r: Status, ghost v': View)
      requires Ready() && Steady(f, storage.pages, v, true) && ClearingOk(f, v, minKey)
      requires clear == v.log[|v.log| - 1].pos
      modifies storage
      ensures Ready() && Steady(f, storage.pages, v', true)
      ensures Fades(f, v, v', KeysFrom(minKey), |v.log| - 1)
      ensures r.Ok? ==> Faded(f, v, v', KeysFrom(minKey), |v.log| - 1)
      ensures r.Err? ==> r.error == StoreError.StorageError
      ensures Undisturbed(old(storage.interruption), storage.interruption, r == Err(StoreError.StorageError))
      ensures old(Tame(v)) ==> Tame(v')
    {
      hide Steady, Standing, InitsParse, IsExtremum, KindOf, EntryOf, Fades, Faded, ParseEntry, DeletedWords, SetItem,
           PosAt, HeadAt, Formed, KeysFrom, Calm, Apart, Tight, Worn;
      v' := v;
      SteadyHead(f, storage.pages, v, true);
      var head := Head(HeadAt(v, 0));
      var pos := head.value;
      ghost var k, n := 0, |v.log| - 1;
      SteadyStart(f, storage.pages, v, true);
      FadesSelf(f, v, KeysFrom(minKey));
      ItemPos(v, n);
      SteadyOrder(f, storage.pages, v, true, 0, n);
      while pos < clear
        invariant k <= n && pos == PosAt(v, k) && (pos < clear <==> k < n) && clear == PosAt(v, n)
        invariant Ready() && Steady(f, storage.pages, v', true)
        invariant Undisturbed(old(storage.interruption), storage.interruption, false)
        invariant Faded(f, v, v', KeysFrom(minKey), k)
        invariant old(Tame(v)) ==> Tame(v')
        decreases n - k
      {
        FadedFades(f, v, v', KeysFrom(minKey), k);
        FadesPos(f, v, v', KeysFrom(minKey), k);
        SteadyParse(f, storage.pages, v', true, k);
        SteadyHolds(f, storage.pages, v', true, k);
        EndIsNext(f, v', k);
        UserEntryOf(f, v.log[k].ws);
        ClearingKind(f, v, minKey, k);
        var entry := ParseEntry(f, storage.pages, pos).value;
        if entry.0.ParsedUser? && entry.0.header.key >= minKey {
          ghost var v0 := v';
          r, v' := DeletePos(pos, entry.1 - pos - 1, v', true, k);
          FadesSet(f, v, v0, v', KeysFrom(minKey), k);
          if r.Err? {
            FadesMore(f, v, v', KeysFrom(minKey), k + 1, n);
            return;
          }
          FadedFades(f, v, v', KeysFrom(minKey), k + 1);
          FadesPos(f, v, v', KeysFrom(minKey), k + 1);
        } else {
          FadesSkip(f, v, v', KeysFrom(minKey), k);
        }
        pos := entry.1;
        k := k + 1;
        SteadyOrder(f, storage.pages, v', true, k, n);
      }
      FadedFades(f, v, v', KeysFrom(minKey), n);
      r := Ok(());
    }

    /** Once the clear entry is there: deletes what it covers, then pads it out. */
    method ClearDelete(clear: nat, minKey: nat, ghost v: View) returns (r: Status, ghost v': View, ghost st: Stage)
      requires Ready() && Halted(f, storage.pages, v, Clearing(minKey))
      requires clear == v.log[|v.log| - 1].pos
      modifies storage
      ensures Ready() && Halted(f, storage.pages, v', st)
      ensures Outcome(f, v', st) == Outcome(f, v, Clearing(minKey))
      ensures r.Ok? ==> AtRest(f, storage.pages, v') && st == Settled
      ensures Weaker(f, v, v') && Tight(f, v') && !st.InTransaction?
      ensures r.Err? ==> r.error == StoreError.StorageError
      ensures r.Ok? && Clean(f, v) ==> Clean(f, v')
      ensures Undisturbed(old(storage.interruption), storage.interruption, r == Err(StoreError.StorageError))
      ensures old(Tame(v)) ==> Tame(v')
    {
      hide Steady, Standing, InitsParse, IsExtremum, KindOf, EntryOf, Fades, Faded, ParseEntry, DeletedWords, SetItem,
           PosAt, HeadAt, ClearingOk, Roomy, Content, OpensPage, Formed, KeysFrom, Below, SettledOk, Idle, Clean, Worn,
           Weaker, Tight;
      v', st := v, Clearing(minKey);
      WeakerSelf(f, v);
      ClearingTight(f, v, minKey);
      ghost var tidy := HaltedTidy(f, storage.pages, v);
      SteadyFormed(f, storage.pages, v, false);
      ClearingSize(f, v, minKey);
      ghost var n := |v.log| - 1;
      r := InitEntry(clear, clear, v, tidy, n);
      if r.Err? {
        return;
      }
      SteadyFormed(f, storage.pages, v, true);
      ItemPos(v, n);
      r, v' := DeleteAbove(clear, minKey, v);
      SteadyUntidy(f, storage.pages, v');
      if r.Ok? { FadedFades(f, v, v', KeysFrom(minKey), n); }
      ClearedFades(f, v, v', minKey, n);
      FadesWeaker(f, v, v', KeysFrom(minKey), n);
      WeakerKept(f, v, v');
      KeptTight(f, v, v');
      if r.Err? {
        return;
      }
      FadesPos(f, v, v', KeysFrom(minKey), n);
      FadesSameAfter(f, v, v', KeysFrom(minKey), n);
      ghost var v1 := v';
      r, v' := SetPadding(clear, v1, true, n);
      SteadyUntidy(f, storage.pages, v');
      SetItemWeaker(f, v1, n, FirstCleared(v1.log[n].ws, 0));
      WeakerThen(f, v, v1, SetItem(v1, n, FirstCleared(v1.log[n].ws, 0)));
      WeakerKept(f, v, SetItem(v1, n, FirstCleared(v1.log[n].ws, 0)));
      KeptTight(f, v, SetItem(v1, n, FirstCleared(v1.log[n].ws, 0)));
      if v' == SetItem(v1, n, FirstCleared(v1.log[n].ws, 0)) {
        ClearDone(f, v, v1, v', minKey);
        IdleSettled(f, v');
        st := Settled;
        if Clean(f, v) {
          FadedClean(f, v, v1, KeysFrom(minKey), n);
          SetOneClean(f, v1, n, FirstCleared(v1.log[n].ws, 0));
        }
      }
    }

    /** Once all updates are there: deletes the entries that they replace, then pads out the marker and the removals. */
    method TransactionApply(sortedKeys: seq<nat>, marker: nat, ghost v: View, ghost m: nat)
      returns (r: Status, ghost v': View, ghost st: Stage)
      requires Ready() && Halted(f, storage.pages, v, InTransaction(m)) && Steady(f, storage.pages, v, true)
      requires Committed(f, v, m) && KeysOf(f, v, m, sortedKeys) && marker == v.log[m].pos
      modifies storage
      ensures Ready() && Halted(f, storage.pages, v', st)
      ensures Outcome(f, v', st) == Outcome(f, v, InTransaction(m))
      ensures r.Ok? ==> AtRest(f, storage.pages, v') && st == Settled
      ensures Tight(f, v') && Unbroken(f, v', st) && Kept(v, v')
      ensures r.Err? ==> r.error == StoreError.StorageError
      ensures r.Ok? && Clean(f, v) ==> Clean(f, v')
      ensures Undisturbed(old(storage.interruption), storage.interruption, r == Err(StoreError.StorageError))
      ensures old(Tame(v)) ==> Tame(v')
    {
      hide Steady, Standing, InitsParse, IsExtremum, KindOf, Fades, Faded, PosAt, TransactionOk, Committed, KeysOf,
           Roomy, Content, OpensPage, Formed, SettledOk, Calm, Apart, Tight, Clean, Worn;
      st := InTransaction(m);
      SteadyFormed(f, storage.pages, v, true);
      MarkerItem(f, v, m);
      r, v' := DeleteKeys(sortedKeys, marker, v, true, m);
      SteadyUntidy(f, storage.pages, v');
      if r.Ok? { FadedFades(f, v, v', sortedKeys, m); }
      AppliedFades(f, v, v', m, sortedKeys);
      CommittedUnbroken(f, v', m);
      FadesWeaker(f, v, v', sortedKeys, m);
      WeakerKept(f, v, v');
      if r.Err? {
        return;
      }
      ghost var v1 := v';
      FadesPos(f, v, v1, sortedKeys, m);
      FadesSameAfter(f, v, v1, sortedKeys, m);
      r, v' := SetPadding(marker, v1, true, m);
      SteadyUntidy(f, storage.pages, v');
      SetItemWeaker(f, v1, m, FirstCleared(v1.log[m].ws, 0));
      SetItemKept(f, v1, m, FirstCleared(v1.log[m].ws, 0));
      if v' == SetItem(v1, m, FirstCleared(v1.log[m].ws, 0)) {
        MarkerPadded(f, v, v1, v', m, sortedKeys);
        st := Settled;
        if Clean(f, v) {
          FadedClean(f, v, v1, sortedKeys, m);
          SetOneClean(f, v1, m, FirstCleared(v1.log[m].ws, 0));
        }
      }
      if r.Err? {
        return;
      }
      SetItemPos(f, v1, m, FirstCleared(v1.log[m].ws, 0));
      r, v' := PadRemoves(marker + 1, v', m + 1);
    }

    /** Pads out the removals of an applied transaction. */
    method PadRemoves(start: nat, ghost v: View, ghost n: nat) returns (r: Status, ghost v': View)
      requires Ready() && Steady(f, storage.pages, v, true) && RemovesLeft(f, v, n)
      requires start == PosAt(v, n)
      modifies storage
      ensures Ready() && Halted(f, storage.pages, v', Settled)
      ensures Outcome(f, v', Settled) == Content(f, v.log)
      ensures r.Ok? ==> AtRest(f, storage.pages, v')
      ensures Tight(f, v') && Kept(v, v')
      ensures r.Err? ==> r.error == StoreError.StorageError
      ensures r.Ok? && Clean(f, v) ==> Clean(f, v')
      ensures Undisturbed(old(storage.interruption), storage.interruption, r == Err(StoreError.StorageError))
      ensures old(Tame(v)) ==> Tame(v')
    {
      hide Steady, Standing, InitsParse, IsExtremum, KindOf, EntryOf, ParseEntry, PosAt, HeadAt, RemovesLeft, Roomy,
           SettledOk, Idle, Content, OpensPage, Formed, SetItem, Weaker, OnlyAt, Format.V, Clean, Worn;
      v' := v;
      SteadyFormed(f, storage.pages, v, true);
      LeftSettled(f, v, n);
      SteadyHead(f, storage.pages, v, true);
      var head := Head(HeadAt(v, 0));
      var end := head.value + f.V();
      var pos := start;
      ghost var k: nat := n;
      while pos < end
        invariant k <= |v'.log| && pos == PosAt(v', k) && end == HeadAt(v', 0) + f.V()
        invariant Ready() && Steady(f, storage.pages, v', true) && RemovesLeft(f, v', k)
        invariant Undisturbed(old(storage.interruption), storage.interruption, false)
        invariant Content(f, v'.log) == Content(f, v.log) && Kept(v, v')
        invariant Clean(f, v) ==> Clean(f, v')
        invariant old(Tame(v)) ==> Tame(v')
        decreases |v'.log| - k
      {
        SteadyParse(f, storage.pages, v', true, k);
        var entry := ParseEntry(f, storage.pages, pos).value;
        if entry.0.ParsedTail? {
          break;
        }
        SteadyHolds(f, storage.pages, v', true, k);
        UserEntryOf(f, v'.log[k].ws);
        RemoveSize(f, v', k);
        LeftKind(f, v', k);
        ItemPos(v', k);
        if entry.0.ParsedInternal? {
          ghost var v0 := v';
          r, v' := SetPadding(pos, v0, true, k);
          ghost var ws := FirstCleared(v0.log[k].ws, 0);
          SetItemWeaker(f, v0, k, ws);
          OnlySet(v0, k, ws);
          SetItemPos(f, v0, k, ws);
          SetItemKept(f, v0, k, ws);
          if v' == SetItem(v0, k, ws) {
            NextIsPadded(f, v0, v', k);
            if Clean(f, v) { SetOneClean(f, v0, k, ws); }
            LeftSettled(f, v', k + 1);
          } else {
            LeftSettled(f, v', k);
          }
          SteadyUntidy(f, storage.pages, v');
          if r.Err? {
            return;
          }
        } else {
          NextIsUser(f, v', k);
        }
        pos := entry.1;
        k := k + 1;
      }
      r := Ok(());
      SteadyUntidy(f, storage.pages, v');
      SteadyFormed(f, storage.pages, v', true);
      SteadyEnd(f, storage.pages, v', true, k);
      RemovesDone(f, v', k);
      LeftSettled(f, v', k);
    }

    /** Writes the entry of an update at the tail; also returns the length of its value in words. */
    method WriteUpdate(tail: nat, u: StoreUpdate, ghost v: View) returns (r: Status, length: nat, ghost v': View)
      requires Ready() && Steady(f, storage.pages, v, true) && Complete(f, v) && ValidUpdate(f, u)
      requires tail == v.tail && v.tail + UpdateSize(u) <= Start(f, v, f.numPages - 1)
      modifies storage
      ensures Ready() && Steady(f, storage.pages, v', |v'.marks| == |v.marks|)
      ensures LeavesUpdate(f, v, v', u)
      ensures r.Ok? ==> exists ws: seq<Word> :: v' == Append(f, v, ws) && WrittenFor(f, u, ws) && |ws| == length + 1
      ensures r.Err? ==> r.error == StoreError.StorageError
      ensures Undisturbed(old(storage.interruption), storage.interruption, r == Err(StoreError.StorageError))
      ensures old(Tame(v)) ==> Tame(v')
    {
      hide Steady, Standing, InitsParse, IsExtremum, KindOf, Start, Append, Complete, LeavesUser, LeavesInternal,
           LeavesUpdate, ForUser, BuildUser, BuildInternal, Worn;
      match u {
        case InsertUpdate(key, value) =>
          var entry := PreparedUser(key, value);
          length := |entry| - 1;
          r, v' := AppendUser(tail, key, value, entry, v);
          CompleteLeaves(f, v, v', entry, r.Ok?);
          UserLeavesUpdate(f, v, v', u, entry);
          assert WrittenFor(f, u, entry);
        case RemoveUpdate(key) =>
          length := 0;
          InternalKind(f, InternalEntry.Remove(key));
          r, v' := AppendInternal(tail, InternalEntry.Remove(key), v);
          InternalLeaves(f, v, v', InternalEntry.Remove(key), r.Ok?);
          RemoveLeavesUpdate(f, v, v', u);
          assert WrittenFor(f, u, [BuildInternal(InternalEntry.Remove(key)).value]);
      }
    }

    /** Builds the words of a user entry. */
    method PreparedUser(key: nat, value: seq<byte>) returns (entry: seq<Word>)
      requires f.Supported() && key <= MAX_KEY && |value| <= f.MaxValueLen()
      ensures ForUser(f, key, value, entry) && |entry| == EntryWords(value) && BuildUser(key, value) == Ok(entry)
    {
      hide KindOf, BuildUser, ValueOf;
      BuildUserReads(f, key, value);
      WordsMonotone(|value|, f.MaxValueLen());
      entry := BuildUser(key, value).value;
    }

    /** Writes a transaction for which there is immediately room, and applies it. */
    method WriteTransaction(us: seq<StoreUpdate>, sortedKeys: seq<nat>, ghost v0: View)
      returns (r: Status, ghost v': View, ghost st: Stage)
      requires Ready() && AtRest(f, storage.pages, v0) && Prepared(f, v0, us)
      requires forall key: nat :: key in sortedKeys <==> exists i :: 0 <= i < |us| && us[i].key == key
      modifies storage
      ensures Ready() && Halted(f, storage.pages, v', st)
      ensures Outcome(f, v', st) == ApplyUpdates(Content(f, v0.log), us)
              || (r.Err? && Outcome(f, v', st) == Content(f, v0.log))
      ensures r.Ok? ==> AtRest(f, storage.pages, v') && st == Settled
      ensures Tight(f, v') && Unbroken(f, v', st) && v'.lean == v0.lean
      ensures r.Err? ==> r.error == StoreError.StorageError
      ensures r.Ok? && Clean(f, v0) ==> Clean(f, v')
      ensures Undisturbed(old(storage.interruption), storage.interruption, r == Err(StoreError.StorageError))
      ensures old(Tame(v0)) ==> Tame(v')
    {
      hide Steady, Standing, InitsParse, IsExtremum, KindOf, Start, Append, Complete, Writing, Prepared, LeavesUpdate,
           LeavesInternal, WrittenFor, Content, Idle, Roomy, OpensPage, Formed, TransactionOk, Committed, SettledOk,
           BuildInternal, ApplyUpdates, KeysOf, Clean, Worn, Tame, Outcome, Unbroken, Tight, Kept, HeadAt, PosAt,
           Halted, StageOk, ValidUpdate, UpdateSize, UpdatesSize;
      ghost var m := |v0.log|;
      SteadyStands(f, storage.pages, v0, true);
      var tailResult := Tail(v0);
      var marker := tailResult.value;
      SteadyFormed(f, storage.pages, v0, true);
      PreparedRoom(f, v0, us);
      r, v' := AppendInternal(marker, Marker(|us|), v0);
      InternalLeaves(f, v0, v', Marker(|us|), r.Ok?);
      st := MarkerLeft(f, storage.pages, v0, v', us);
      if r.Err? {
        return;
      }
      MarkerLast(f, v0, v', us);
      WritingUnbroken(f, v0, v', us, 0);
      if Clean(f, v0) { MarkerClean(f, v0, us); }
      ghost var tidy := HaltedNow(f, storage.pages, v', st);
      ghost var pages := storage.pages;
      r := InitEntry(marker, marker, v', tidy, m);
      KeptHalted(f, pages, storage.pages, v', st, if r.Ok? then true else tidy);
      if r.Err? {
        return;
      }
      var tail := marker + 1;
      for i := 0 to |us|
        invariant Ready() && Steady(f, storage.pages, v', true) && Formed(f, v')
        invariant Undisturbed(old(storage.interruption), storage.interruption, false)
        invariant Writing(f, v0, v', us, i) && tail == v'.tail && v'.lean == v0.lean
        invariant Clean(f, v0) ==> Clean(f, v')
        invariant st == InTransaction(m)
        invariant old(Tame(v0)) ==> Tame(v')
      {
        UpdateRoom(f, v0, v', us, i);
        var length;
        ghost var v1 := v';
        r, length, v' := WriteUpdate(tail, us[i], v1);
        UpdateHalts(f, storage.pages, v0, v1, v', us, i);
        if r.Err? {
          HaltedTransaction(f, storage.pages, v', m);
          TransactionTight(f, v', m);
          return;
        }
        UpdateLast(f, v0, v1, v', us, i, length);
        WritingUnbroken(f, v0, v', us, i + 1);
        if Clean(f, v0) { UpdateClean(f, v1, v', us[i], length); }
        tidy := HaltedNow(f, storage.pages, v', st);
        pages := storage.pages;
        r := InitEntry(tail, tail + length, v', tidy, |v1.log|);
        KeptHalted(f, pages, storage.pages, v', st, if r.Ok? then true else tidy);
        if r.Err? {
          return;
        }
        tail := tail + 1 + length;
      }
      WritingDone(f, storage.pages, v0, v', us);
      WritingKeys(f, v0, v', us, sortedKeys);
      WritingMarker(f, v0, v', us);
      ghost var v1 := v';
      r, v', st := TransactionApply(sortedKeys, marker, v1, m);
      KeptLean(v1, v');
    }

    /** Turns a torn entry at the end of the log into padding of one word each, all wiped. */
    method RecoverWipePartial(pos: nat, length: nat, ghost v: View, ghost st: Stage) returns (r: Status, ghost v': View)
      requires Ready() && Halted(f, storage.pages, v, st) && v.log != []
      requires pos == v.log[|v.log| - 1].pos && |v.log[|v.log| - 1].ws| == length + 1
      requires Kinds(f, v, |v.log| - 1).TornEntry?
      requires st == Settled ==> Calm(f, v, |v.log| - 1)
      requires st.InTransaction? ==> st.marker < |v.log| - 1
      modifies storage
      ensures Ready() && Halted(f, storage.pages, v', st) && Outcome(f, v', st) == Outcome(f, v, st)
      ensures r.Err? ==> r.error == StoreError.StorageError
      ensures Kept(v, v')
      ensures r.Ok? ==> Steady(f, storage.pages, v', true) && Mended(f, v, v')
      ensures r.Ok? ==> (Clean(f, v') <==> Clean(f, v)) && Tight(f, v') == Tight(f, v)
      ensures r.Ok? && st == Settled ==> AtRest(f, storage.pages, v')
      ensures r.Ok? && st.InTransaction? ==> !Committed(f, v', st.marker) && v'.log[..st.marker] == v.log[..st.marker]
      ensures Undisturbed(old(storage.interruption), storage.interruption, r == Err(StoreError.StorageError))
    {
      hide Steady, KindOf, Halted, StageOk, Outcome, AtRest, Mended, Split, SetItem, Wiped, Committed, TransactionOk,
           Snapshot, Format.Q, Written, TornWritten, Calm, Alike, Formed, OpensPage, Replaces, FirstCleared, AllPadded,
           Roomy;
      ghost var k := |v.log| - 1;
      ghost var tidy := HaltedNow(f, storage.pages, v, st);
      ghost var pages := storage.pages;
      SteadyHolds(f, pages, v, tidy, k);
      r, v' := WipeEntry(pos + 1, length, v, tidy, k);
      ghost var v1 := v';
      SetItemAlike(f, v, k, v1.log[k].ws);
      SetItemKept(f, v, k, v1.log[k].ws);
      AlikeHalted(f, pages, storage.pages, v, v1, st, tidy);
      if r.Err? {
        return;
      }
      pages := storage.pages;
      ItemSet(v, k, v1.log[k].ws);
      tidy := HaltedNow(f, pages, v1, st);
      r := InitEntry(pos, pos + length, v1, tidy, k);
      KeptHalted(f, pages, storage.pages, v1, st, if r.Ok? then true else tidy);
      if r.Err? {
        return;
      }
      pages := storage.pages;
      SteadyHolds(f, pages, v1, true, k);
      assert At(Snapshot(f, pages, v1.first), pos) == v1.log[k].ws[0];
      r := ClearWord(pos, 0, v1.first);
      v' := TornPadded(f, pages, storage.pages, v1, v.log[k].ws, r.Ok?);
      MendedKept(f, v, v1, v');
      TornMended(f, pages, storage.pages, v, v1, v', st, r.Ok?);
      if r.Ok? {
        MendedClean(f, v, v1, v');
        MendedTight(f, v, v');
      }
    }

    /** Deletes a torn user entry at the end of the log. */
    method RecoverDeleteUser(pos: nat, length: nat, ghost v: View, ghost st: Stage) returns (r: Status, ghost v': View)
      requires Ready() && Halted(f, storage.pages, v, st) && v.log != []
      requires pos == v.log[|v.log| - 1].pos && |v.log[|v.log| - 1].ws| == length + 1
      requires Kinds(f, v, |v.log| - 1).TornUser?
      requires st == Settled ==> Calm(f, v, |v.log| - 1)
      requires st.InTransaction? ==> st.marker < |v.log| - 1
      modifies storage
      ensures Ready() && Halted(f, storage.pages, v', st) && Outcome(f, v', st) == Outcome(f, v, st)
      ensures r.Err? ==> r.error == StoreError.StorageError
      ensures Kept(v, v')
      ensures r.Ok? ==> Steady(f, storage.pages, v', true) && Mended(f, v, v')
      ensures r.Ok? ==> (Clean(f, v') <==> Clean(f, v)) && Tight(f, v') == Tight(f, v)
      ensures r.Ok? && st == Settled ==> AtRest(f, storage.pages, v')
      ensures r.Ok? && st.InTransaction? ==> !Committed(f, v', st.marker) && v'.log[..st.marker] == v.log[..st.marker]
      ensures Undisturbed(old(storage.interruption), storage.interruption, r == Err(StoreError.StorageError))
    {
      hide Steady, KindOf, Halted, StageOk, Outcome, AtRest, Mended, SetItem, Wiped, Committed, TransactionOk, Snapshot,
           Format.Q, Calm, Formed, OpensPage, Replaces, FirstCleared, Roomy;
      ghost var k := |v.log| - 1;
      v' := v;
      ghost var tidy := HaltedNow(f, storage.pages, v, st);
      ghost var pages := storage.pages;
      r := InitEntry(pos, pos + length, v, tidy, k);
      KeptHalted(f, pages, storage.pages, v, st, if r.Ok? then true else tidy);
      if r.Err? {
        return;
      }
      pages := storage.pages;
      r, v' := DeletePos(pos, length, v, true, k);
      SetItemKept(f, v, k, v'.log[k].ws);
      if v' == v {
        KeptHalted(f, pages, storage.pages, v, st, true);
      } else {
        DeleteMends(f, v, v'.log[k].ws);
        MendedHalted(f, pages, storage.pages, v, v', st);
        if r.Ok? {
          DeletedWiped(v.log[k].ws);
          SetCleanSame(f, v, v', k);
          SetTight(f, v, v', k);
        }
      }
    }

    /**
     Returns the keys of the updates that follow the marker of a possible interrupted transaction, and
     initializes the page of the last one if needed.
     */
    method RecoverTransactionKeys(count: nat, start: nat, end: nat, ghost v: View, ghost m: nat)
      returns (r: Result<seq<nat>, StoreError>, ghost k: nat)
      requires Ready() && Halted(f, storage.pages, v, InTransaction(m))
      requires m < |v.log| && start == PosAt(v, m + 1) && end == HeadAt(v, 0) + f.V()
      modifies storage
      ensures Ready() && Halted(f, storage.pages, v, InTransaction(m))
      ensures r.Err? ==> r.error == StoreError.StorageError
      ensures r.Ok? ==> Leads(f, v, m, k, r.value) && (k == |v.log| || !IsUpdate(Kinds(f, v, k)))
      ensures r.Ok? && k == |v.log| > m + 1 ==> Steady(f, storage.pages, v, true)
      ensures Undisturbed(old(storage.interruption), storage.interruption, r == Err(StoreError.StorageError))
    {
      hide Steady, KindOf, EntryOf, Halted, StageOk, Outcome, TransactionOk, ParseEntry, PosAt, HeadAt, Formed,
           OpensPage, Roomy, Leads, Search, Found, Inserted, Format.V, Tight;
      ghost var tidy := HaltedNow(f, storage.pages, v, InTransaction(m));
      ghost var pages := storage.pages;
      var sortedKeys: seq<nat> := [];
      var pos, prevPos := start, start;
      k := m + 1;
      LeadsStart(f, v, m);
      HaltedTransaction(f, storage.pages, v, m);
      TransactionTight(f, v, m);
      while pos < end
        invariant m + 1 <= k <= |v.log| && pos == PosAt(v, k)
        invariant prevPos == PosAt(v, if k == m + 1 then m + 1 else k - 1)
        invariant Leads(f, v, m, k, sortedKeys) && storage.pages == pages && unchanged(storage)
        decreases |v.log| - k
      {
        SteadyParse(f, storage.pages, v, tidy, k);
        var entry := ParseEntry(f, storage.pages, pos).value;
        if !entry.0.ParsedUser? && !(entry.0.ParsedInternal? && entry.0.entry.Remove?) {
          if k < |v.log| { UserEntryOf(f, v.log[k].ws); LeadsKind(f, v, m, k); }
          break;
        }
        EntryKind(f, storage.pages, v, tidy, k);
        var key := if entry.0.ParsedUser? then entry.0.header.key else entry.0.entry.key;
        LeadsNext(f, v, m, k, sortedKeys);
        sortedKeys := Inserted(sortedKeys, key);
        prevPos := pos;
        pos := entry.1;
        k := k + 1;
      }
      LeadsReach(f, v, m, k);
      ghost var j := if k == m + 1 then m + 1 else k - 1;
      SteadyParse(f, storage.pages, v, tidy, j);
      LeadsLast(f, v, m, k, sortedKeys);
      EntryKind(f, storage.pages, v, tidy, j);
      var prev := ParseEntry(f, storage.pages, prevPos).value;
      if prev.0.ParsedUser? || (prev.0.ParsedInternal? && prev.0.entry.Remove?) {
        EndIsNext(f, v, j);
        var s := InitEntry(prevPos, prev.1 - 1, v, tidy, j);
        KeptHalted(f, pages, storage.pages, v, InTransaction(m), if s.Ok? && j == |v.log| - 1 then true else tidy);
        if s.Err? {
          return Err(s.error), k;
        }
      }
      return Ok(sortedKeys), k;
    }

    /** Applies or rolls back a possible interrupted transaction. */
    method RecoverTransaction(marker: nat, end: nat, ghost v: View, ghost m: nat)
      returns (r: Status, ghost v': View, ghost st: Stage)
      requires Ready() && Halted(f, storage.pages, v, InTransaction(m))
      requires m < |v.log| && marker == PosAt(v, m) && end == HeadAt(v, 0) + f.V()
      modifies storage
      ensures Ready() && Halted(f, storage.pages, v', st)
      ensures Outcome(f, v', st) == Outcome(f, v, InTransaction(m))
      ensures r.Err? ==> r.error == StoreError.StorageError
      ensures Kept(v, v')
      ensures r.Ok? ==> AtRest(f, storage.pages, v') && st == Settled
      ensures Undisturbed(old(storage.interruption), storage.interruption, r == Err(StoreError.StorageError))
      ensures r.Ok? && Clean(f, v) ==> Clean(f, v')
      ensures r.Ok? && Clean(f, v') ==> CleanBetween(f, v, m + 1, |v.log|)
      ensures r.Ok? ==> Tight(f, v')
    {
      hide Steady, KindOf, EntryOf, Halted, StageOk, Outcome, TransactionOk, ParseEntry, PosAt, HeadAt, Formed,
           OpensPage, Roomy, Leads, Format.V, Committed, KeysOf, AtRest, Clean, CleanBetween, Tight;
      v', st := v, InTransaction(m);
      ghost var tidy := HaltedNow(f, storage.pages, v, st);
      EntryKind(f, storage.pages, v, tidy, m);
      SteadyParse(f, storage.pages, v, tidy, m);
      HaltedTransaction(f, storage.pages, v, m);
      MarkerKind(f, v, m);
      var entry := ParseEntry(f, storage.pages, marker).value;
      var count := entry.0.entry.count;
      var keys;
      ghost var k;
      keys, k := RecoverTransactionKeys(count, entry.1, end, v, m);
      if keys.Err? {
        return Err(keys.error), v', st;
      }
      LeadsCount(f, v, m, k, keys.value);
      TransactionTight(f, v, m);
      CleanPart(f, v, m + 1);
      if |keys.value| == count {
        ItemPos(v, m);
        CommittedClean(f, v, m);
        r, v', st := TransactionApply(keys.value, marker, v, m);
        return;
      }
      LeadsTidy(f, storage.pages, v, m, k, keys.value);
      RollingStart(f, storage.pages, v, m);
      r, v' := RollBack(entry.1, end, v, m);
      if r.Err? {
        return;
      }
      tidy := HaltedNow(f, storage.pages, v', st);
      RollingMarker(f, storage.pages, v, v', m);
      ghost var pages := storage.pages;
      r := InitEntry(marker, marker, v', tidy, m);
      KeptHalted(f, pages, storage.pages, v', st, if r.Ok? then true else tidy);
      if r.Err? {
        return;
      }
      ghost var pages1 := storage.pages;
      ghost var v1 := v';
      r, v' := SetPadding(marker, v1, true, m);
      SetItemKept(f, v1, m, FirstCleared(v1.log[m].ws, 0));
      if v' == v1 && r.Err? {
        KeptHalted(f, pages1, storage.pages, v1, st, true);
      } else {
        SetItemWeaker(f, v1, m, FirstCleared(v1.log[m].ws, 0));
        OnlySet(v1, m, FirstCleared(v1.log[m].ws, 0));
        RolledBack(f, pages, storage.pages, v, v1, v', m);
        HaltedTransaction(f, pages1, v1, m);
        PaddedMarkerClean(f, v1, v', m);
        RestIsHalted(f, storage.pages, v');
        SettledOutcome(f, storage.pages, v');
        st := Settled;
      }
    }

    /** Rolls back the updates of a transaction that were written. */
    method RollBack(start: nat, end: nat, ghost v: View, ghost m: nat) returns (r: Status, ghost v': View)
      requires Ready() && Rolling(f, storage.pages, v, v, m, m + 1)
      requires start == PosAt(v, m + 1) && end == HeadAt(v, 0) + f.V()
      modifies storage
      ensures Ready() && Halted(f, storage.pages, v', InTransaction(m))
      ensures Outcome(f, v', InTransaction(m)) == Outcome(f, v, InTransaction(m))
      ensures r.Err? ==> r.error == StoreError.StorageError
      ensures Kept(v, v')
      ensures r.Ok? ==> Rolling(f, storage.pages, v, v', m, |v'.log|)
      ensures r.Ok? ==> (Clean(f, v') <==> Clean(f, v)) && Tight(f, v') == Tight(f, v)
      ensures Undisturbed(old(storage.interruption), storage.interruption, r == Err(StoreError.StorageError))
    {
      hide Steady, KindOf, EntryOf, Halted, StageOk, Outcome, ParseEntry, PosAt, HeadAt, Formed, OpensPage, Roomy,
           Rolling, Format.V, Committed, Mended, AtRest, Calm, TransactionOk, DeletedWords, InitsParse, IsExtremum,
           Clean, Tight;
      v' := v;
      var pos := start;
      ghost var k: nat := m + 1;
      RollingOutcome(f, storage.pages, v, v, m, k);
      while pos < end
        invariant Ready() && Rolling(f, storage.pages, v, v', m, k) && m < k <= |v'.log|
        invariant Undisturbed(old(storage.interruption), storage.interruption, false)
        invariant Kept(v, v')
        invariant pos == PosAt(v', k) && end == HeadAt(v', 0) + f.V()
        invariant (Clean(f, v') <==> Clean(f, v)) && Tight(f, v') == Tight(f, v)
        decreases |v'.log| - k
      {
        RollingOutcome(f, storage.pages, v, v', m, k);
        ghost var tidy := HaltedNow(f, storage.pages, v', InTransaction(m));
        ghost var pages := storage.pages;
        EntryKind(f, pages, v', tidy, k);
        SteadyParse(f, pages, v', tidy, k);
        var entry := ParseEntry(f, storage.pages, pos).value;
        if entry.0.ParsedTail? {
          assert k == |v'.log|;
          break;
        }
        SteadyHolds(f, pages, v', tidy, k);
        EndIsNext(f, v', k);
        ghost var v0 := v';
        if entry.0.ParsedPartial? {
          r, v' := RecoverWipePartial(pos, entry.1 - pos - 1, v0, InTransaction(m));
          if r.Ok? { RollingMended(f, pages, storage.pages, v, v0, v', m, k); }
          return;
        } else if entry.0.ParsedPartialUser? {
          r, v' := RecoverDeleteUser(pos, entry.1 - pos - 1, v0, InTransaction(m));
          if r.Ok? { RollingMended(f, pages, storage.pages, v, v0, v', m, k); }
          return;
        } else if entry.0.ParsedPadding? {
          RollingSkip(f, pages, v, v', m, k);
        } else {
          if entry.0.ParsedUser? {
            r, v' := DeletePos(pos, entry.1 - pos - 1, v0, tidy, k);
          } else {
            RemoveSize(f, v0, k);
            r, v' := SetPadding(pos, v0, tidy, k);
          }
          SetItemKept(f, v0, k, v'.log[k].ws);
          RollingSet(f, pages, storage.pages, v, v0, v', m, k, tidy);
          if r.Ok? { RolledClean(f, v0, v', k); }
          if r.Err? {
            RollingOutcome(f, storage.pages, v, v', m, k);
            return;
          }
        }
        pos := entry.1;
        k := k + 1;
      }
      RollingOutcome(f, storage.pages, v, v', m, k);
      ghost var tidy := HaltedNow(f, storage.pages, v', InTransaction(m));
      RollingReaches(f, storage.pages, v, v', m, k);
      return Ok(()), v';
    }

    /** Pads out a removal that was applied, or wipes padding. */
    method RecoverPadding(pos: nat, length: nat, remove: bool, ghost v: View, ghost v0: View, ghost st: Stage,
                          ghost k: nat)
      returns (r: Status, ghost v': View)
      requires Ready() && Halted(f, storage.pages, v0, st) && StageOk(f, v0, st) && Formed(f, v0)
      requires k < |v0.log| && pos == v0.log[k].pos && |v0.log[k].ws| == length + 1
      requires Calm(f, v0, k) && Scoured(f, v, v0, k)
      requires if remove then st == Settled && IsRemove(Kinds(f, v0, k)) else Kinds(f, v0, k).Padding?
      modifies storage
      ensures Ready() && Halted(f, storage.pages, v', st) && StageOk(f, v', st)
      ensures Outcome(f, v', st) == Outcome(f, v0, st)
      ensures |v'.log| == |v0.log| && ScanLimit(v', st) == ScanLimit(v0, st) && HeadAt(v', 0) == HeadAt(v0, 0)
      ensures PosAt(v', k) == PosAt(v0, k) && PosAt(v', k + 1) == PosAt(v0, k + 1)
      ensures r.Ok? ==> Calm(f, v', k + 1) && Scoured(f, v, v', k + 1)
      ensures r.Err? ==> r.error == StoreError.StorageError
      ensures Kept(v0, v')
      ensures Undisturbed(old(storage.interruption), storage.interruption, r == Err(StoreError.StorageError))
      ensures !remove && old(Tame(v0)) ==> Tame(v')
    {
      hide Steady, KindOf, EntryOf, Halted, StageOk, Outcome, PosAt, HeadAt, Formed, OpensPage, Roomy, Format.V, Calm,
           Idle, Tight, ScanLimit, Clean, CleanBetween, Scoured, FirstCleared, Wiped, SettledOk, Snapshot, Worn;
      ghost var tidy := HaltedNow(f, storage.pages, v0, st);
      ghost var pages := storage.pages;
      SteadyHolds(f, pages, v0, tidy, k);
      if remove {
        RemoveSize(f, v0, k);
        r, v' := SetPadding(pos, v0, tidy, k);
        SetItemKept(f, v0, k, FirstCleared(v0.log[k].ws, 0));
        ScanRemoved(f, pages, storage.pages, v0, v', k, tidy);
        if r.Ok? { ScouredPadded(f, v, v0, v', k); }
      } else {
        r, v' := WipeEntry(pos + 1, length, v0, tidy, k);
        SetItemKept(f, v0, k, v'.log[k].ws);
        ScanWiped(f, pages, storage.pages, v0, v', st, k, tidy);
        if r.Ok? { ScouredSet(f, v, v0, v', k); }
      }
    }

    /** Completes the insertion of the last entry before the position where a recovery stopped. */
    method RecoverInsert(prevPos: nat, ghost v: View, ghost st: Stage, ghost k: nat) returns (r: Status, ghost v': View)
      requires Ready() && Halted(f, storage.pages, v, st) && StageOk(f, v, st) && k <= |v.log| && Calm(f, v, k)
      requires k <= ScanLimit(v, st) && prevPos == PosAt(v, if k == 0 then 0 else k - 1)
      requires k == |v.log| || PosAt(v, k) >= HeadAt(v, 0) + f.V()
      modifies storage
      ensures Ready() && Halted(f, storage.pages, v', Settled) && Formed(f, v) && st == Settled
      ensures Outcome(f, v', Settled) == Outcome(f, v, st)
      ensures r.Ok? ==> AtRest(f, storage.pages, v')
      ensures r.Err? ==> r.error == StoreError.StorageError
      ensures Kept(v, v')
      ensures Tight(f, v') == Tight(f, v) && (r.Ok? && Clean(f, v) ==> Clean(f, v'))
      ensures v.log == [] ==> v' == v
      ensures Undisturbed(old(storage.interruption), storage.interruption, r == Err(StoreError.StorageError))
      ensures old(Tame(v)) ==> Tame(v')
    {
      hide Steady, KindOf, EntryOf, Halted, StageOk, Outcome, ParseEntry, PosAt, HeadAt, Formed, OpensPage, Roomy,
           Format.V, AtRest, Calm, Idle, Tight, InitsParse, IsExtremum, ScanLimit, Clean, SettledOk, Snapshot, MayOpen,
           Worn;
      v' := v;
      ghost var tidy := HaltedNow(f, storage.pages, v, st);
      ghost var j: nat := if k == 0 then 0 else k - 1;
      EntryKind(f, storage.pages, v, tidy, j);
      SteadyParse(f, storage.pages, v, tidy, j);
      var prev := ParseEntry(f, storage.pages, prevPos).value;
      ScanEnd(f, storage.pages, v, st, k);
      SteadyFormed(f, storage.pages, v, tidy);
      if prev.0.ParsedUser? {
        EndIsNext(f, v, j);
        r, v' := InsertInit(prevPos, prev.1 - prevPos - 1, prev.0.header.key, v, j);
        WeakerKept(f, v, v');
        return;
      }
      return Ok(()), v;
    }

    /**
     Goes through the log up to the virtual capacity and settles whatever an operation left unfinished. All
     padding on the way is wiped, but for padding that follows the marker of a transaction that is rolled back.
     */
    method RecoverOperation(ghost v: View, ghost st0: Stage) returns (r: Status, ghost v': View, ghost st: Stage)
      requires Ready() && Halted(f, storage.pages, v, st0)
      modifies storage
      ensures Ready() && Halted(f, storage.pages, v', st)
      ensures Outcome(f, v', st) == Outcome(f, v, st0)
      ensures r.Err? ==> r.error == StoreError.StorageError
      ensures Kept(v, v')
      ensures r.Ok? ==> AtRest(f, storage.pages, v') && st == Settled
      ensures Undisturbed(old(storage.interruption), storage.interruption, r == Err(StoreError.StorageError))
      ensures r.Ok? ==> Rinsed(f, v, st0, v')
      ensures v.log == [] ==> v' == v
      ensures old(AtRest(f, storage.pages, v) && Tame(v)) ==> Tame(v')
    {
      hide Steady, KindOf, EntryOf, Halted, StageOk, Outcome, ParseEntry, PosAt, HeadAt, Formed, OpensPage, Roomy,
           Format.V, AtRest, Calm, Idle, Tight, Mended, Committed, InitsParse, IsExtremum, ScanLimit, Clean,
           CleanBetween, Scoured, Rinsed, FirstCleared, Wiped, SettledOk, Snapshot, MayOpen, Worn, Plain, Tame;
      v', st := v, st0;
      ghost var tidy := HaltedNow(f, storage.pages, v, st);
      SteadyHead(f, storage.pages, v, tidy);
      var head := Head(HeadAt(v, 0));
      var pos, prevPos := head.value, head.value;
      var end := pos + f.V();
      ghost var k: nat := 0;
      ghost var still := AtRest(f, storage.pages, v) && Tame(v);
      if still { RestPlain(f, storage.pages, v); }
      ScanStart(f, v, st);
      ScouredStart(f, v);
      while pos < end
        invariant Ready() && Halted(f, storage.pages, v', st) && StageOk(f, v', st)
        invariant Undisturbed(old(storage.interruption), storage.interruption, false)
        invariant Outcome(f, v', st) == Outcome(f, v, st0)
        invariant k <= |v'.log| && k <= ScanLimit(v', st) && pos == PosAt(v', k) && end == HeadAt(v', 0) + f.V()
        invariant prevPos == PosAt(v', if k == 0 then 0 else k - 1)
        invariant Calm(f, v', k) && st == st0
        invariant Kept(v, v')
        invariant Scoured(f, v, v', k) && (v.log == [] ==> v' == v)
        invariant still ==> Tame(v')
        decreases |v'.log| - k
      {
        tidy := HaltedNow(f, storage.pages, v', st);
        ghost var pages := storage.pages;
        EntryKind(f, pages, v', tidy, k);
        SteadyParse(f, pages, v', tidy, k);
        var entry := ParseEntry(f, storage.pages, pos).value;
        if entry.0.ParsedTail? {
          break;
        }
        ScanKind(f, v', st, k);
        SteadyHolds(f, pages, v', tidy, k);
        EndIsNext(f, v', k);
        ghost var v0 := v';
        if still { ScouredPlain(f, v, v0, k); }
        if entry.0.ParsedInternal? {
          var e := entry.0.entry;
          if e.Clear? {
            ClearingStage(f, v', st, k);
            r, v', st := ClearDelete(pos, e.minKey, v0);
            WeakerKept(f, v0, v');
            if r.Ok? { RinsedLast(f, v, st0, v0, k, v'); }
            return;
          } else if e.Marker? {
            MarkerStage(f, v', st, k);
            r, v', st := RecoverTransaction(pos, end, v0, k);
            if r.Ok? { RinsedTransaction(f, v, v0, k, v'); }
            return;
          }
          r, v' := RecoverPadding(pos, entry.1 - pos - 1, true, v, v0, st, k);
          if r.Err? {
            return;
          }
        } else if entry.0.ParsedPartial? {
          r, v' := RecoverWipePartial(pos, entry.1 - pos - 1, v0, st);
          if r.Ok? { RinsedLast(f, v, st0, v0, k, v'); }
          return;
        } else if entry.0.ParsedPartialUser? {
          r, v' := RecoverDeleteUser(pos, entry.1 - pos - 1, v0, st);
          if r.Ok? { RinsedLast(f, v, st0, v0, k, v'); }
          return;
        } else if entry.0.ParsedPadding? {
          r, v' := RecoverPadding(pos, entry.1 - pos - 1, false, v, v0, st, k);
          if r.Err? {
            return;
          }
        } else {
          CalmNext(f, v0, k);
          ScouredSkip(f, v, v0, k);
        }
        prevPos := pos;
        pos := entry.1;
        k := k + 1;
      }
      ghost var v1 := v';
      r, v' := RecoverInsert(prevPos, v1, st, k);
      st := Settled;
      if r.Ok? { RinsedEnd(f, v, v1, k, v'); }
    }

    /** Reads words of the virtual storage, which may span two pages. */
    method ReadSlice(pos: nat, length: nat) returns (ws: seq<Word>)
      requires Ready() && length <= f.Q()
      ensures |ws| == length && forall i: nat :: i < length ==> ws[i] == ReadWord(f, storage.pages, pos + i)
    {
      hide PageIndex, VirtPage, WordOf, NextPage, Format.Q, Format.Supported;
      NextPageIs(f, pos);
      var maxLength := f.Q() + 2 - WordIndex(f, pos);
      var n := Min(length, maxLength);
      ws := Slice(f, storage.pages, PageOf(f, pos), WordIndex(f, pos), n);
      forall i: nat | i < n ensures ws[i] == ReadWord(f, storage.pages, pos + i) {
        PosAdvance(f, pos, i);
      }
      if length > maxLength {
        var next := NextPage(f, pos);
        ghost var before := ws;
        ws := ws + Slice(f, storage.pages, PageOf(f, next), WordIndex(f, next), length - n);
        forall i: nat | i < length ensures ws[i] == ReadWord(f, storage.pages, pos + i) {
          if i < n {
            assert ws[i] == before[i];
          } else {
            PosAdvance(f, next, i - n);
            assert next + (i - n) == pos + i;
          }
        }
      }
    }

    /** Erases a page, unless all of its words are erased. */
    method StorageErasePage(page: nat) returns (r: Status)
      requires Ready() && page < f.numPages
      modifies storage
      ensures Ready() && DiffersOnlyIn(f, old(storage.pages), storage.pages, page, 0, f.Q() + 2)
      ensures r.Ok? ==> PageErased(f, storage.pages, page)
      ensures r.Err? ==> r.error == StoreError.StorageError
                         && Torn(storage.pages[page][0], old(storage.pages)[page][0], ERASED_WORD)
      ensures Undisturbed(old(storage.interruption), storage.interruption, r == Err(StoreError.StorageError))
      ensures r.Ok? && old(storage.pages)[page][0] != ERASED_WORD ==>
                storage.wear == Refreshed(f, old(storage.wear), page)
    {
      hide Format.Q, Format.Supported;
      if exists i: nat :: i < f.Q() + 2 && storage.pages[page][i] != ERASED_WORD {
        var ok := storage.Erase(page);
        if !ok {
          return Err(StoreError.StorageError);
        }
      }
      return Ok(());
    }

    /** Copies an entry at the tail, with the init info of the page that it opens. */
    method AppendCopy(tail: nat, entry: seq<Word>, ghost v: View, ghost i: nat, ghost c: nat)
      returns (r: Status, ghost c': nat)
      requires Ready() && Copying(f, storage.pages, v, c) && i <= c
      requires entry == Copies(f, v)[i] && tail == Copied(f, v, i).tail
      modifies storage
      ensures Ready() && c <= c' && Progress(f, storage.pages, v, c')
      ensures r.Ok? ==> c' == if i < c then c else c + 1
      ensures r.Err? ==> r.error == StoreError.StorageError
      ensures Undisturbed(old(storage.interruption), storage.interruption, r == Err(StoreError.StorageError))
      ensures i == c && old(Gentle(v, c)) ==> Gentle(v, c')
      ensures r.Ok? ==> Compacting(f, storage.pages, v)
    {
      hide Snapshot, Compacting, Pending, Copies, Copied, Append, Opens, Inited, OpensPage, Written, TornWritten,
           Writable, Holds, InitWord, WithInit, Initialized, Format.Q, Format.M, Erasing, Laid, Dropped, WornIn, Aged,
           Intact;
      ghost var pages := storage.pages;
      ghost var k := |Dropped(f, v).log| + i;
      CompactingFormed(f, pages, v);
      CopySize(f, v, i);
      CopiedHolds(f, pages, v, c, i);
      c' := c;
      r := WriteSlice(tail, entry, v.first);
      if r.Err? {
        c' := CopyTorn(f, pages, storage.pages, v, c);
        return;
      }
      if i == c {
        CopyWritten(f, pages, storage.pages, v, c);
        CopiedInited(f, storage.pages, v, c);
        if old(Gentle(v, c)) {
          WornCopied(f, pages, storage.pages, old(storage.wear), storage.wear, v, c,
                     !Opens(f, Copied(f, v, c), Copies(f, v)[c]));
        }
      }
      pages := storage.pages;
      ghost var wear := storage.wear;
      ghost var opens := Opens(f, Copied(f, v, c), Copies(f, v)[c]);
      ghost var u;
      r, u := InitPage(tail, tail + (|entry| - 1), v.first, Copied(f, v, c + 1), 1, f.numPages - 1, !opens, k);
      if i == c {
        if opens {
          c' := CopyInit(f, pages, storage.pages, v, c, u);
          if old(Gentle(v, c)) {
            WornInit(f, pages, storage.pages, wear, storage.wear, v.first, Copied(f, v, c + 1), 1, v);
          }
        } else {
          CopyAdvance(f, pages, v, c);
          c' := c + 1;
        }
      }
    }

    /** Wipes the words that precede the head in its page. */
    method WipePrefix(ghost v: View) returns (r: Status)
      requires Ready() && Steady(f, storage.pages, v, true)
      modifies storage
      ensures Ready() && Steady(f, storage.pages, v, true)
      ensures r.Ok? ==> Holds(Snapshot(f, storage.pages, v.first), Start(f, v, 0),
                              ZeroWords(HeadAt(v, 0) - Start(f, v, 0)))
      ensures r.Err? ==> r.error == StoreError.StorageError
      ensures Undisturbed(old(storage.interruption), storage.interruption, r == Err(StoreError.StorageError))
      ensures old(Tame(v)) ==> Tame(v)
    {
      hide Snapshot, Steady, InitsParse, IsExtremum, HeadAt, Format.Q, Start, Writable, VirtPage, ZeroWords, Worn, Aged;
      SteadyHead(f, storage.pages, v, true);
      var headResult := Head(HeadAt(v, 0));
      var head := headResult.value;
      HeadPage(f, storage.pages, v);
      var pos := VirtPage(f, head) * f.Q();
      PrefixWritable(f, storage.pages, v);
      ghost var pages := storage.pages;
      r := WipeSpan(pos, head - pos, v.first);
      PrefixWiped(f, pages, storage.pages, v, r.Ok?);
      if old(Tame(v)) { WornPrefix(f, pages, storage.pages, old(storage.wear), storage.wear, v); }
    }

    /** Once the erase entry is there: erases the page, wipes the prefix of the new head, then pads the entry out. */
    method CompactErase(erase: nat, ghost v: View) returns (r: Status, ghost p: Phase)
      requires Ready() && Erasing(f, storage.pages, v)
      requires Compacted(f, v).log != [] && erase == Compacted(f, v).log[|Compacted(f, v).log| - 1].pos
      modifies storage
      ensures Ready()
      ensures r.Ok? ==> AtRest(f, storage.pages, Next(f, v))
      ensures r.Err? ==>
                && r.error == StoreError.StorageError
                && InPhase(f, storage.pages, p) && Amid(f, p, v) && Promise(f, p) == Content(f, v.log)
      ensures Content(f, Next(f, v).log) == Content(f, v.log)
      ensures Undisturbed(old(storage.interruption), storage.interruption, r == Err(StoreError.StorageError))
      ensures old(storage.interruption.Disarmed? && WornIn(f, storage.pages, storage.wear, v.first, v)) && Exact(f, v)
              && old(PageInit(Snapshot(f, storage.pages, v.first), 0, 0)) != ERASED_WORD ==>
                Tame(Next(f, v))
    {
      hide Snapshot, Erasing, Compacted, Steady, EraseWord, KindOf, ParseEntry, InitsParse, IsExtremum, HeadAt,
           PageIndex, Formed, Complete, PageErased, FirstCleared, Format.Q, InPhase, Promise, Content, AtRest, Start,
           Roomy, Idle, Alive, Compactable, Compactible, Written, TornWritten, Writable, Next, Copies, VirtPage,
           DiffersOnlyIn, SetItem, ZeroWords, Worn, WornIn, Refreshed, PageInit;
      ghost var x := Compacted(f, v);
      ErasingFormed(f, storage.pages, v);
      ErasingParse(f, storage.pages, v);
      NextContent(f, storage.pages, v);
      p := Compressing(v, |Copies(f, v)|);
      var page := ParseEntry(f, storage.pages, erase).value.0.entry.page;
      ghost var pages := storage.pages;
      r := StorageErasePage(page);
      if r.Err? {
        ErasingTorn(f, pages, storage.pages, v);
        ErasingPromised(f, storage.pages, v);
        return;
      }
      ErasedErasing(f, pages, storage.pages, v);
      ErasedSteady(f, storage.pages, v);
      OtherPages(f, pages, storage.pages, v.first);
      if old(storage.interruption.Disarmed? && WornIn(f, storage.pages, storage.wear, v.first, v)) && Exact(f, v)
         && PageInit(Snapshot(f, pages, v.first), 0, 0) != ERASED_WORD {
        WornErase(f, pages, storage.pages, old(storage.wear), v);
      }
      pages := storage.pages;
      r := WipePrefix(x);
      ErasedAgain(f, pages, storage.pages, v);
      if r.Err? {
        ErasingPromised(f, storage.pages, v);
        return;
      }
      pages := storage.pages;
      ghost var v';
      r, v' := SetPadding(erase, x, true, |x.log| - 1);
      NextIs(f, v);
      EraseKind(f, v);
      if v' == Next(f, v) {
        CompactionDone(f, storage.pages, v);
        p := Operating(v', Settled);
        RestPromised(f, storage.pages, v');
      } else {
        ErasedAgain(f, pages, storage.pages, v);
        ErasingPromised(f, storage.pages, v);
      }
    }

    /** Once the compact info is there: copies what is live in the page, then the erase entry. */
    method CompactCopy(ghost v: View, ghost c0: nat) returns (r: Status, ghost p: Phase)
      requires Ready() && Copying(f, storage.pages, v, c0)
      modifies storage
      ensures Ready()
      ensures r.Ok? ==> AtRest(f, storage.pages, Next(f, v)) && Content(f, Next(f, v).log) == Content(f, v.log)
      ensures r.Err? ==> InPhase(f, storage.pages, p) && Amid(f, p, v) && Promise(f, p) == Content(f, v.log)
      ensures r.Err? ==> r.error == StoreError.StorageError || r.error == InvalidStorage
      ensures Distance(f, v) > f.V() + f.M() ==> r == Err(InvalidStorage) && unchanged(storage)
      ensures Distance(f, v) > f.V() + f.M() ==> p == Compressing(v, c0) && Stuck(f, p) && (v.lean ==> f.Overflows())
      ensures Distance(f, v) <= f.V() + f.M() ==> r != Err(InvalidStorage)
      ensures Undisturbed(old(storage.interruption), storage.interruption, r == Err(StoreError.StorageError))
      ensures r.Ok? && c0 == 0 && old(Gentle(v, 0)) && Exact(f, v) ==> Tame(Next(f, v))
    {
      hide Snapshot, Erasing, Compacted, EraseWord, KindOf, ParseEntry, EntryOf, InitsParse, IsExtremum, HeadAt, PosAt,
           PageIndex, Formed, InPhase, Promise, Content, AtRest, Start, Roomy, Idle, Copying, Compacting, Copies,
           Copied, Count, Distance, ParseCompact, InfoOf, Format.Q, Format.V, Format.M, Dropped, BuildInternal, PageOf,
           NextPage, ReadWord, Next, Compactible, Laid, WornIn, Worn, PageInit;
      ghost var c := c0;
      p := Compressing(v, c);
      CopyingFacts(f, storage.pages, v, c);
      CopyingHeads(f, storage.pages, v, c);
      var headResult := Head(HeadAt(v, 0));
      var head := headResult.value;
      CompactReadBack(f, storage.pages, v);
      var page := PageOf(f, head);
      var end := NextPage(f, head);
      var info := ParseCompact(f, InfoOf(f, storage.pages, page, 1));
      CopyingStuck(f, storage.pages, v, c);
      if info.Err? {
        return Err(info.error), p;
      }
      var tail := head + info.value.value;
      ghost var k: nat := 0;
      LoopStart(f, v);
      while head < end
        invariant Ready() && k <= Gone(v) <= |v.log| && Formed(f, v)
        invariant Undisturbed(old(storage.interruption), storage.interruption, false)
        invariant head == PosAt(v, k) || (k == Gone(v) && head >= end)
        invariant Count(f, v, k) <= c < |Copies(f, v)| && Copying(f, storage.pages, v, c)
        invariant tail == Copied(f, v, Count(f, v, k)).tail
        invariant c0 == 0 && old(Gentle(v, 0)) ==> c == Count(f, v, k) && Gentle(v, c)
        decreases if head < end then end - head else 0
      {
        CopyingFacts(f, storage.pages, v, c);
        FirstPageItems(f, v, k);
        if k == Gone(v) { GapAt(f, storage.pages, v, k); } else { CompactParse(f, storage.pages, v, k); }
        var entry := ParseEntry(f, storage.pages, head).value;
        if entry.0.ParsedTail? {
          break;
        }
        var pos := head;
        head := entry.1;
        if entry.0.ParsedUser? {
          var length := head - pos;
          CountStep(f, v, k);
          LengthFits(f, length);
          var words := ReadSlice(pos, length);
          SliceReads(f, storage.pages, v, k, words);
          CopyAt(f, v, k);
          r, c := AppendCopy(tail, words, v, Count(f, v, k), c);
          CopyingPromised(f, storage.pages, v, c);
          p := Compressing(v, c);
          if r.Err? {
            return;
          }
          tail := tail + length;
        } else if k < Gone(v) {
          CountStep(f, v, k);
        }
        k := if k < Gone(v) then k + 1 else k;
      }
      FirstPageItems(f, v, k);
      CopyingFacts(f, storage.pages, v, c);
      EraseKind(f, v);
      CopyLast(f, v);
      var erase := BuildInternal(Erase(page)).value;
      r, c := AppendCopy(tail, [erase], v, |Copies(f, v)| - 1, c);
      CopyingPromised(f, storage.pages, v, c);
      p := Compressing(v, c);
      if r.Err? {
        return;
      }
      EraseAt(f, v);
      AllCopied(f, storage.pages, v, c);
      CompactingMarked(f, storage.pages, v);
      r, p := CompactErase(tail, v);
    }

    /** Frees the page at the head: what is live there moves to the end of the log. */
    method Compact(ghost v: View) returns (r: Status, ghost p: Phase)
      requires Ready() && Markable(f, storage.pages, v)
      modifies storage
      ensures Ready()
      ensures r == Err(NoLifetime) <==> !Compactable(f, v)
      ensures r == Err(NoLifetime) ==> unchanged(storage)
      ensures r.Ok? ==> AtRest(f, storage.pages, Next(f, v)) && Content(f, Next(f, v).log) == Content(f, v.log)
      ensures r.Err? && r.error != NoLifetime ==>
                && InPhase(f, storage.pages, p) && Amid(f, p, v) && Promise(f, p) == Content(f, v.log)
                && (r.error == StoreError.StorageError || r.error == InvalidStorage)
      ensures r.Ok? ==> Distance(f, v) <= f.V() + f.M()
      ensures r == Err(InvalidStorage) ==> p == Compressing(v, 0) && Stuck(f, p)
      ensures r == Err(InvalidStorage) ==> Distance(f, v) > f.V() + f.M() && (v.lean ==> f.Overflows())
      ensures Undisturbed(old(storage.interruption), storage.interruption, r == Err(StoreError.StorageError))
      ensures r.Ok? && old(Tame(v) && Steady(f, storage.pages, v, true)) ==> Tame(Next(f, v))
    {
      hide Snapshot, InitsParse, IsExtremum, HeadAt, PageIndex, Formed, InPhase, Promise, Content, AtRest, Start, Roomy,
           Idle, Copying, Distance, Format.Q, Format.V, Format.M, Dropped, BuildCompact, PageOf, NextPage, Next,
           Standing, Alive, Markable, CycleIndex, CompactWord, Slice, DiffersOnlyIn, TornAll, WornIn, Intact, Exact,
           Counted, Steady, Laid, Copied;
      MarkableFormed(f, storage.pages, v);
      StandingHead(f, storage.pages, v, true);
      var headResult := Head(HeadAt(v, 0));
      var head := headResult.value;
      HeadCycle(f, v);
      if CycleIndex(f, VirtPage(f, head)) >= f.maxPageErases {
        return Err(NoLifetime), Fresh;
      }
      var tailResult := Tail(v);
      var tail := if tailResult.value >= NextPage(f, head) then tailResult.value else NextPage(f, head);
      DistanceNear(f, v);
      TailMax(f, v);
      var word := BuildCompact(tail - head).value;
      ghost var pages := storage.pages;
      MarkSlice(f, pages, v);
      MarkCovers(f, pages, v);
      var words := [word];
      assert |words| == 1 && words[0] == word;
      r := storage.StorageWriteSlice(PageOf(f, head), 1, words);
      p := MarkWritten(f, pages, storage.pages, v, r.Ok?);
      if r.Err? {
        return;
      }
      CopiedStep(f, v, 0);
      if old(Tame(v) && Steady(f, storage.pages, v, true)) {
        WornMark(f, pages, storage.pages, old(storage.wear), storage.wear, v);
      }
      r, p := CompactCopy(v, 0);
    }

    /** Writes the first init info of a flash that is erased but for a torn one. */
    method RecoverInitialize(ghost p: Phase) returns (r: Status)
      requires Ready() && InPhase(f, storage.pages, p)
      modifies storage
      ensures Ready()
      ensures r.Err? ==> r.error == StoreError.StorageError && p == Fresh && InPhase(f, storage.pages, Fresh)
      ensures r.Ok? && p == Fresh ==> AtRest(f, storage.pages, EmptyView()) && Content(f, EmptyView().log) == map[]
      ensures p != Fresh ==> unchanged(storage)
      ensures Undisturbed(old(storage.interruption), storage.interruption, r == Err(StoreError.StorageError))
      ensures p == Fresh && old(storage.interruption.Disarmed? && Unworn(f, storage.pages, storage.wear)) ==>
                Tame(EmptyView())
    {
      hide InPhase, AtRest, Content, Blank, BuildInit, Format.Q, Dirty, Worn, Unworn, Counted;
      if p != Fresh { PhaseDirty(f, storage.pages, p); } else { FreshBlank(f, storage.pages); }
      for page := 0 to f.numPages
        invariant unchanged(storage)
        invariant forall q: nat, i: nat :: q < page && i < f.Q() + 2 && !(q == 0 && i == 0) ==>
                    storage.pages[q][i] == ERASED_WORD
      {
        if (page > 0 && storage.pages[page][0] != ERASED_WORD)
           || exists i: nat :: i < f.Q() + 2 && i != 0 && storage.pages[page][i] != ERASED_WORD {
          NotBlank(f, storage.pages, page);
          return Ok(());
        }
      }
      NotDirty(f, storage.pages);
      var word := BuildInit(InitInfo(0, 0)).value;
      ghost var pages := storage.pages;
      var words := [word];
      assert |words| == 1 && words[0] == word;
      BlankSlice(f, pages);
      r := storage.StorageWriteSlice(0, 0, words);
      if p == Fresh {
        SliceFirst(f, pages, storage.pages, word, r.Ok?);
        BlankWritten(f, pages, storage.pages, r.Ok?);
        FreshPhase(f, storage.pages);
        if r.Ok? && Unworn(f, pages, old(storage.wear)) {
          WornFirst(f, pages, storage.pages, old(storage.wear), storage.wear);
        }
      }
    }

    /** Looks for an erase entry at the end of the log, and completes its compaction if there is one. */
    method RecoverErase(ghost p: Phase) returns (r: Status, ghost p': Phase)
      requires Ready() && InPhase(f, storage.pages, p) && p != Fresh
      modifies storage
      ensures Ready() && InPhase(f, storage.pages, p') && p' != Fresh && Promise(f, p') == Promise(f, p)
      ensures r.Err? ==> r.error == StoreError.StorageError
      ensures r.Ok? ==> !IsErasing(f, p')
      ensures !IsErasing(f, p) ==> r.Ok? && p' == p && unchanged(storage)
      ensures IsErasing(f, p) && r.Ok? ==> p' == Operating(Next(f, p.v), Settled) && AtRest(f, storage.pages, p'.v)
      ensures Undisturbed(old(storage.interruption), storage.interruption, r == Err(StoreError.StorageError))
      ensures r.Ok? && Cleanable(f, p) ==> Cleanable(f, p')
      ensures p'.v.lean == p.v.lean
    {
      hide InPhase, ParseEntry, InitsParse, IsExtremum, NextPage, Copying, Erasing, Compacted, Copies, Next, Content,
           AtRest, StageOk, Outcome, Clean, Cleanable, Formed, Roomy, Idle, Alive, Compactible, Laid, Halted, Complete,
           EraseWord, ReadWord, ParseWord, Snapshot;
      p' := p;
      ghost var h := EraseSearched(f, storage.pages, p);
      var posResult := GetExtremumPageHead(true);
      var pos := posResult.value;
      var end := NextPage(f, pos);
      while pos < end
        invariant Ready() && unchanged(storage)
        invariant FindErase(f, storage.pages, pos, end) == FindErase(f, storage.pages, h, NextPage(f, h))
        decreases if pos < end then end - pos else 0
      {
        ParsedAdvances(f, storage.pages, pos);
        var entry := ParseEntry(f, storage.pages, pos).value;
        if entry.0.ParsedInternal? && entry.0.entry.Erase? {
          ErasingFormed(f, storage.pages, p.v);
          r, p' := CompactErase(pos, p.v);
          if r.Ok? {
            NextPhase(f, storage.pages, p);
            p' := Operating(Next(f, p.v), Settled);
          } else {
            AmidLean(f, p', p.v);
          }
          return;
        }
        if !entry.0.ParsedPadding? && !entry.0.ParsedUser? {
          break;
        }
        pos := entry.1;
      }
      return Ok(()), p;
    }

    /** Starts a compaction again, or goes on with its copies, if the compact info at the head tells so. */
    method RecoverCompaction(ghost p: Phase) returns (r: Status, ghost p': Phase)
      requires Ready() && InPhase(f, storage.pages, p) && p != Fresh && !IsErasing(f, p)
      modifies storage
      ensures Ready() && InPhase(f, storage.pages, p') && p' != Fresh && Promise(f, p') == Promise(f, p)
      ensures r.Err? ==> r.error == StoreError.StorageError || r.error == InvalidStorage
      ensures r == Err(InvalidStorage) ==>
              Stuck(f, p) && Stuck(f, p') && p'.Compressing? && (p.v.lean ==> f.Overflows())
      ensures p.Compressing? && Stuck(f, p) ==> r == Err(InvalidStorage) && p' == p && unchanged(storage)
      ensures r.Ok? ==> p'.Operating? && !Stuck(f, p)
      ensures r.Ok? && !p.Operating? ==> p' == Operating(Next(f, p.v), Settled) && AtRest(f, storage.pages, p'.v)
      ensures p.Operating? ==> r.Ok? && p' == p && unchanged(storage)
      ensures Undisturbed(old(storage.interruption), storage.interruption, r == Err(StoreError.StorageError))
      ensures r.Ok? && Cleanable(f, p) ==> Cleanable(f, p')
      ensures p'.v.lean == p.v.lean
    {
      hide InPhase, ParseCompact, InfoOf, PageOf, InitsParse, IsExtremum, Copying, Compacted, Copies, Next, Content,
           AtRest, StageOk, Outcome, Markable, HeadAt, Format.M, Format.V, Distance, Compactable, Clean, Cleanable,
           Formed;
      p' := p;
      ghost var h := HeadSearched(f, storage.pages, p);
      var headResult := Head(h);
      var info := ParseCompact(f, InfoOf(f, storage.pages, PageOf(f, headResult.value), 1));
      if info.Err? {
        return Err(info.error), p;
      }
      match info.value {
        case Erased =>
          return Ok(()), p;
        case Partial =>
          ghost var v := p.v;
          MarkedFits(f, storage.pages, v);
          MarkableFormed(f, storage.pages, v);
          r, p' := Compact(v);
          if r.Ok? {
            NextPhase(f, storage.pages, p);
            p' := Operating(Next(f, v), Settled);
          } else {
            AmidLean(f, p', v);
          }
        case Valid(_) =>
          ghost var v := p.v;
          CopyingFacts(f, storage.pages, v, p.c);
          r, p' := CompactCopy(v, p.c);
          if r.Ok? {
            NextPhase(f, storage.pages, p);
            p' := Operating(Next(f, v), Settled);
          } else {
            AmidLean(f, p', v);
          }
      }
    }

    /**
     Brings the store to rest from wherever an interruption left it: a new flash gets its first init info, a
     compaction is completed, and an operation is completed or rolled back.
     */
    method Recover(ghost p: Phase) returns (r: Status, ghost p': Phase)
      requires Ready() && InPhase(f, storage.pages, p)
      modifies storage
      ensures Ready() && InPhase(f, storage.pages, p') && Promise(f, p') == Promise(f, p)
      ensures r.Ok? ==> p'.Operating? && AtRest(f, storage.pages, p'.v) && Content(f, p'.v.log) == Promise(f, p)
      ensures r.Err? ==> r.error == StoreError.StorageError || r.error == InvalidStorage
      ensures r == Err(InvalidStorage) ==>
              Stuck(f, p) && Stuck(f, p') && p'.Compressing? && (p.v.lean ==> f.Overflows())
      ensures p.Compressing? && Stuck(f, p) ==> r == Err(InvalidStorage) && p' == p && unchanged(storage)
      ensures r.Ok? ==> !Stuck(f, p)
      ensures Undisturbed(old(storage.interruption), storage.interruption, r == Err(StoreError.StorageError))
      ensures r.Ok? && p == Fresh ==> p' == Operating(EmptyView(), Settled)
      ensures r.Ok? && p.Operating? ==> Rinsed(f, p.v, p.st, p'.v)
      ensures r.Ok? && Cleanable(f, p) ==> Clean(f, p'.v)
      ensures p' != Fresh ==> p'.v.lean == (p == Fresh || p.v.lean)
      ensures p.Operating? ==> p'.Operating? && Kept(p.v, p'.v)
      ensures p' == Fresh ==> p == Fresh
      ensures p == Fresh ==> p' == Fresh || p'.Operating?
      ensures old(storage.interruption.Disarmed? && Unworn(f, storage.pages, storage.wear)) && p == Fresh ==>
                Tame(EmptyView())
      ensures old(p.Operating? && AtRest(f, storage.pages, p.v) && Tame(p.v)) ==> Tame(p'.v)
    {
      hide InPhase, Content, AtRest, StageOk, Outcome, Copying, Copies, Halted, Format.M, Cleanable, Clean, Rinsed,
           EmptyView, Worn, Unworn;
      p' := p;
      EmptyLog();
      EmptyCleanable(f, EmptyView());
      r := RecoverInitialize(p);
      if r.Err? {
        return;
      }
      if p == Fresh {
        RestPromised(f, storage.pages, EmptyView());
        p' := Operating(EmptyView(), Settled);
      }
      r, p' := RecoverErase(p');
      if r.Err? {
        return;
      }
      r, p' := RecoverCompaction(p');
      if r.Err? {
        return;
      }
      OperatingHalted(f, storage.pages, p');
      ghost var p1 := p';
      ghost var v, st;
      r, v, st := RecoverOperation(p'.v, p'.st);
      if r.Ok? { RinsedClean(f, p1, v); }
      HaltedPhase(f, storage.pages, v, st);
      p' := Operating(v, st);
    }

    /** Returns the capacity in words as a scan sees it: all used words, if it sees all user entries. */
    method GetCapacity(ghost v: View) returns (r: Result<StoreRatio, StoreError>)
      requires Ready() && AtRest(f, storage.pages, v)
      ensures r == Ok(StoreRatio(Seen(f, v), f.C())) && r.value.used <= Used(f, v.log)
      ensures r.value.used == Used(f, v.log) <==> Scannable(f, v)
    {
      hide Steady, KindOf, EntryOf, ParseEntry, PosAt, HeadAt, Formed, Format.V, Format.C, Calm, InitsParse, IsExtremum,
           Used, UsedBy, Scannable, Apart, Roomy;
      var used := 0;
      RestFacts(f, storage.pages, v);
      SteadyHead(f, storage.pages, v, true);
      SteadyStart(f, storage.pages, v, true);
      var headResult := Head(HeadAt(v, 0));
      var pos := headResult.value;
      var end := pos + f.V();
      ghost var k: nat := 0;
      UsedStart(f, v);
      while pos < end
        invariant k <= |v.log| && pos == PosAt(v, k) && used == Used(f, v.log[..k])
        invariant forall j: nat :: j < k ==> v.log[j].pos < end
        decreases |v.log| - k
      {
        EntryKind(f, storage.pages, v, true, k);
        SteadyParse(f, storage.pages, v, true, k);
        var entry := ParseEntry(f, storage.pages, pos).value;
        if entry.0.ParsedTail? {
          break;
        }
        EndIsNext(f, v, k);
        UsedStep(f, v, k);
        if entry.0.ParsedUser? {
          used := used + (entry.1 - pos);
        }
        pos := entry.1;
        k := k + 1;
      }
      EntryKind(f, storage.pages, v, true, k);
      ScanCounts(f, v, k);
      return Ok(StoreRatio(used, f.C()));
    }

    /** How many words fit before the virtual capacity is reached. */
    method ImmediateCapacity(ghost v: View) returns (r: Result<nat, StoreError>)
      requires Ready() && AtRest(f, storage.pages, v)
      ensures r == Ok(if v.tail <= HeadAt(v, 0) + f.V() then HeadAt(v, 0) + f.V() - v.tail else 0)
    {
      hide Steady, Standing, HeadAt, Format.V, InitsParse, IsExtremum, Idle, Roomy;
      SteadyHead(f, storage.pages, v, true);
      SteadyStands(f, storage.pages, v, true);
      var tailResult := Tail(v);
      var headResult := Head(HeadAt(v, 0));
      var end := headResult.value + f.V();
      return Ok(if tailResult.value <= end then end - tailResult.value else 0);
    }

    /** Compacts pages until an amount of words is immediately available. */
    method CompactFor(length: nat, ghost v: View) returns (r: Status, ghost v': View, ghost p: Phase)
      requires Ready() && AtRest(f, storage.pages, v)
      modifies storage
      ensures Ready()
      ensures r.Ok? || r == Err(NoLifetime) ==>
                && AtRest(f, storage.pages, v') && Content(f, v'.log) == Content(f, v.log)
                  && Used(f, v'.log) == Used(f, v.log)
                && v' == Settle(f, v, length) && v'.lean == v.lean
                && (Used(f, v.log) + length <= f.C() + 1 ==> v'.first <= v.first + f.numPages - 1)
      ensures r.Ok? && length > 0 ==> v'.tail + length <= HeadAt(v', 0) + f.V()
      ensures r == Verdict(f, v, length) || r == Err(StoreError.StorageError)
      ensures r == Err(NoLifetime) ==> !Compactable(f, v')
      ensures r == Err(InvalidStorage) ==> (v.lean ==> f.Overflows()) && p.Compressing? && Stuck(f, p)
      ensures r.Err? && r.error != NoLifetime ==>
                && InPhase(f, storage.pages, p) && p != Fresh && Promise(f, p) == Content(f, v.log)
                && p.v.lean == v.lean && (Clean(f, v) ==> Cleanable(f, p))
                && (r.error == StoreError.StorageError || r.error == InvalidStorage)
      ensures !Crowded(f, v, length) ==> r.Ok? && v' == v && unchanged(storage)
      ensures (r.Ok? || r == Err(NoLifetime)) && Clean(f, v) ==> Clean(f, v')
      ensures Undisturbed(old(storage.interruption), storage.interruption, r == Err(StoreError.StorageError))
      ensures old(Tame(v)) && (r.Ok? || r == Err(NoLifetime)) ==> Tame(v')
    {
      hide AtRest, Content, Used, HeadAt, Format.V, Format.C, Format.M, InPhase, Promise, Since, Next, Compactable,
           Distance, Markable, Clean, Formed, Steady, Idle, Roomy, Complete, Calm, KindOf, Worn, CyclesLeft, Cleanable,
           Format.Overflows;
      v', p := v, Operating(v, Settled);
      ghost var c: nat := 0;
      RestFacts(f, storage.pages, v);
      SinceStart(f, v);
      var immediate := ImmediateCapacity(v);
      while immediate.value < length
        invariant Ready() && AtRest(f, storage.pages, v') && Content(f, v'.log) == Content(f, v.log)
        invariant Undisturbed(old(storage.interruption), storage.interruption, false)
        invariant Used(f, v'.log) == Used(f, v.log) && Since(f, v', v.tail, v.first, c)
        invariant Used(f, v.log) + length <= f.C() + 1 ==> c <= f.numPages - 1
        invariant immediate == Ok(if v'.tail <= HeadAt(v', 0) + f.V() then HeadAt(v', 0) + f.V() - v'.tail else 0)
        invariant !Crowded(f, v, length) ==> v' == v && unchanged(storage)
        invariant v'.first == v.first + c && v'.lean == v.lean
        invariant Freed(f, v', length) == Freed(f, v, length)
        invariant Clean(f, v) ==> Clean(f, v')
        invariant old(Tame(v)) ==> Tame(v')
        decreases CyclesLeft(f, v')
      {
        RestFacts(f, storage.pages, v');
        if c <= f.numPages - 1 { SinceEnough(f, v', v.tail, v.first, c); }
        RestMarkable(f, storage.pages, v');
        MarkedFits(f, storage.pages, v');
        FreedStep(f, v', length);
        NextFirst(f, v');
        NextLean(f, v');
        r, p := Compact(v');
        if r.Err? {
          if r.error != NoLifetime {
            AmidLean(f, p, v');
            if Clean(f, v) { AmidCleanable(f, p, v'); }
          }
          return;
        }
        SinceNext(f, v', v.tail, v.first, c);
        if Clean(f, v) { NextClean(f, v'); }
        v' := Next(f, v');
        c := c + 1;
        immediate := ImmediateCapacity(v');
      }
      FreedStep(f, v', length);
      return Ok(()), v', p;
    }

    /**
     Makes room for some words: if a scan sees that much remaining capacity, pages are compacted until the
     words fit within the virtual capacity.
     */
    method Reserve(length: nat, ghost v: View) returns (r: Status, ghost v': View, ghost p: Phase)
      requires Ready() && AtRest(f, storage.pages, v)
      modifies storage
      ensures Ready()
      ensures r == Err(NoCapacity) <==> Spare(f, v) < length
      ensures r == Err(NoCapacity) ==> v' == v && unchanged(storage)
      ensures r.Ok? || r == Err(NoLifetime) || r == Err(NoCapacity) ==>
                && AtRest(f, storage.pages, v') && Content(f, v'.log) == Content(f, v.log)
                && Used(f, v'.log) == Used(f, v.log) && v'.lean == v.lean
      ensures r.Ok? || r == Err(NoLifetime) ==> v' == Settle(f, v, length)
      ensures r.Ok? && length > 0 ==> v'.tail + length <= HeadAt(v', 0) + f.V()
      ensures r == Verdict(f, v, length) || r == Err(StoreError.StorageError) || r == Err(NoCapacity)
      ensures !Crowded(f, v, length) ==> (r.Ok? || r == Err(NoCapacity)) && v' == v
      ensures r == Err(NoLifetime) ==> !Compactable(f, v')
      ensures r == Err(InvalidStorage) ==> (v.lean ==> f.Overflows()) && p.Compressing? && Stuck(f, p)
      ensures r.Err? && r.error != NoLifetime && r.error != NoCapacity ==>
                && InPhase(f, storage.pages, p) && p != Fresh && Promise(f, p) == Content(f, v.log)
                && p.v.lean == v.lean && (Clean(f, v) ==> Cleanable(f, p))
                && (r.error == StoreError.StorageError || r.error == InvalidStorage)
      ensures (r.Ok? || r == Err(NoLifetime) || r == Err(NoCapacity)) && Clean(f, v) ==> Clean(f, v')
      ensures Undisturbed(old(storage.interruption), storage.interruption, r == Err(StoreError.StorageError))
      ensures old(Tame(v)) && (r.Ok? || r == Err(NoLifetime) || r == Err(NoCapacity)) ==> Tame(v')
    {
      hide AtRest, Content, Used, HeadAt, Format.V, Format.C, Format.M, InPhase, Promise, Compactable, Scannable, Clean,
           Worn, Cleanable, Freed, Format.Overflows, Seen, StoreRatio.Remaining;
      var capacity := GetCapacity(v);
      if capacity.value.Remaining() < length {
        return Err(NoCapacity), v, Fresh;
      }
      r, v', p := CompactFor(length, v);
      FreedResult(f, v, length);
    }

    /** Inserts an entry in the store; if an entry for the same key is already present, it is replaced. */
    method Insert(key: nat, value: seq<byte>, ghost v: View) returns (r: Status, ghost p: Phase)
      requires Ready() && AtRest(f, storage.pages, v)
      modifies storage
      ensures Ready() && Ended(f, storage.pages, Content(f, v.log), Content(f, v.log)[key := value], r, p)
      ensures r == Err(InvalidArgument) <==> key > MAX_KEY || |value| > f.MaxValueLen()
      ensures r == Err(NoCapacity) <==> r != Err(InvalidArgument) && Spare(f, v) < EntryWords(value)
      ensures r == Err(InvalidArgument) || r == Err(NoCapacity) ==> p == Operating(v, Settled) && unchanged(storage)
      ensures r == Verdict(f, v, EntryWords(value)) || r == Err(StoreError.StorageError)
              || r == Err(InvalidArgument) || r == Err(NoCapacity)
      ensures r == Err(NoLifetime) ==> p.Operating? && !Compactable(f, p.v)
      ensures r == Err(InvalidStorage) ==> p.Compressing? && Stuck(f, p)
      ensures r.Ok? ==>
                && Tight(f, p.v) && BuildUser(key, value).Ok?
                && Extended(f, Settle(f, v, EntryWords(value)), BuildUser(key, value).value, p.v)
      ensures Tight(f, v) && !Crowded(f, v, EntryWords(value)) ==> p.Operating? && Tight(f, p.v)
      ensures LeanAfter(f, v, EntryWords(value), p)
      ensures Clean(f, v) ==> Cleanable(f, p)
      ensures Clean(f, v) && r != Err(StoreError.StorageError) && r != Err(InvalidStorage) ==>
              p.Operating? && Clean(f, p.v)
      ensures Undisturbed(old(storage.interruption), storage.interruption, r == Err(StoreError.StorageError))
      ensures old(Tame(v)) && r != Err(InvalidStorage) ==> p.Operating? && Tame(p.v)
    {
      hide AtRest, Content, Used, HeadAt, Format.V, Format.C, Format.M, Format.MaxValueLen, InPhase, Promise,
           Compactable, Freed, Stuck, ForUser, EntryWords, BuildUser, Outcome, StageOk, Halted, Tight, Spare, Ended,
           Clean, Worn, Cleanable, Weaker, Append, Charged, Format.Overflows, Unbroken, Crowded;
      p := Operating(v, Settled);
      ghost var before, after := Content(f, v.log), Content(f, v.log)[key := value];
      if Clean(f, v) { SettledCleanable(f, v); }
      if key > MAX_KEY || |value| > f.MaxValueLen() {
        r := Err(InvalidArgument);
        EndedRest(f, storage.pages, v, before, after, r);
        return;
      }
      var entry := PreparedUser(key, value);
      EntryLength(value);
      ghost var v0;
      r, v0, p := Reserve(|entry|, v);
      UnitOk(r);
      if r.Err? {
        if r.error == NoLifetime || r.error == NoCapacity {
          EndedRest(f, storage.pages, v0, before, after, r);
          p := Operating(v0, Settled);
          if Clean(f, v0) { SettledCleanable(f, v0); }
        } else {
          EndedStopped(f, storage.pages, p, before, after, r);
        }
        return;
      }
      ghost var v1 := Charge(|entry|, v0);
      ghost var v2;
      r, v2 := InsertEntry(key, value, entry, v1);
      UnitOk(r);
      p := Operating(v2, Settled);
      if r.Ok? {
        RestOutcome(f, storage.pages, v2);
        EndedRest(f, storage.pages, v2, before, after, r);
        if Clean(f, v2) { SettledCleanable(f, v2); }
        assert v1 == v0.(lean := v2.lean);
      } else {
        HaltedPhase(f, storage.pages, v2, Settled);
        EndedStopped(f, storage.pages, p, before, after, r);
        SettledCleanable(f, v2);
      }
    }

    /** Before so many words are written, the log is lean no more if they are beyond the capacity. */
    ghost method Charge(length: nat, v: View) returns (v': View)
      requires Ready() && AtRest(f, storage.pages, v)
      ensures v' == Charged(f, v, length) && AtRest(f, storage.pages, v')
      ensures v'.log == v.log && v'.tail == v.tail && HeadAt(v', 0) == HeadAt(v, 0) && v' == v.(lean := v'.lean)
      ensures v'.lean <==> v.lean && Used(f, v.log) + length <= f.C()
      ensures Clean(f, v') == Clean(f, v) && (Tame(v) ==> Tame(v'))
    {
      hide AtRest, Used, HeadAt, Format.C, Clean, Worn;
      v' := Charged(f, v, length);
      ChargedRest(f, storage.pages, v, length);
      LessLeanClean(f, v);
      LessLeanWorn(f, storage.pages, storage.wear, v);
    }

    /** Removes a key from the map, which may not be there. */
    method RemoveKey(key: nat, ghost v: View) returns (r: Status, ghost p: Phase)
      requires Ready() && AtRest(f, storage.pages, v)
      modifies storage
      ensures Ready() && Ended(f, storage.pages, Content(f, v.log), Content(f, v.log) - {key}, r, p)
      ensures Resting(f, storage.pages, p)
      ensures r == Err(InvalidArgument) <==> key > MAX_KEY
      ensures r == Err(InvalidArgument) ==> p == Operating(v, Settled) && unchanged(storage)
      ensures r.Err? ==> r.error == InvalidArgument || r.error == StoreError.StorageError
      ensures Tight(f, p.v) == Tight(f, v) && (Scannable(f, v) ==> Scannable(f, p.v))
      ensures p.Operating? && Weaker(f, v, p.v) && p.v.lean == v.lean
      ensures Clean(f, v) && r != Err(StoreError.StorageError) && r != Err(InvalidStorage) ==>
              p.Operating? && Clean(f, p.v)
      ensures Clean(f, v) && (r.Ok? || Tight(f, v)) ==> Cleanable(f, p)
      ensures Undisturbed(old(storage.interruption), storage.interruption, r == Err(StoreError.StorageError))
      ensures old(Tame(v)) && r != Err(InvalidStorage) ==> p.Operating? && Tame(p.v)
    {
      hide AtRest, Content, InPhase, Promise, Scannable, Tight, Clean, Worn, Cleanable, Weaker;
      ghost var v1;
      r, v1 := Remove(key, v);
      p := Operating(v1, Settled);
      RestEnds(f, storage.pages, v1);
      WeakerKept(f, v, v1);
      if Clean(f, v1) || Tight(f, v1) { SettledCleanable(f, v1); }
    }

    /** Returns the sorted keys of a transaction, or nothing if it is not valid. */
    method TransactionValid(us: seq<StoreUpdate>) returns (r: Option<seq<nat>>)
      requires f.Supported()
      ensures r.Some? <==> IsValid(f, us)
      ensures r.Some? ==>
                && Sorted(r.value)
                && forall key: nat :: key in r.value <==> exists i :: 0 <= i < |us| && us[i].key == key
    {
      hide ValidUpdate, Search, Inserted, Found, Sorted;
      if |us| > MAX_UPDATES {
        return None;
      }
      var sortedKeys: seq<nat> := [];
      for i := 0 to |us|
        invariant SortedOf(f, us[..i]) == Some(sortedKeys)
      {
        assert us[..i + 1][..i] == us[..i] && us[..i + 1][i] == us[i];
        if !ValidUpdate(f, us[i]) || Found(sortedKeys, us[i].key) {
          NotValid(f, us, i + 1);
          return None;
        }
        sortedKeys := Inserted(sortedKeys, us[i].key);
      }
      assert us[..|us|] == us;
      SortedOfIs(f, us);
      return Some(sortedKeys);
    }

    /** Applies some updates, all of them or none. */
    method ApplyTransaction(us: seq<StoreUpdate>, ghost v: View) returns (r: Status, ghost p: Phase)
      requires Ready() && AtRest(f, storage.pages, v)
      modifies storage
      ensures Ready() && Ended(f, storage.pages, Content(f, v.log), ApplyUpdates(Content(f, v.log), us), r, p)
      ensures r == Err(InvalidArgument) <==> !IsValid(f, us)
      ensures r == Err(NoCapacity) <==> IsValid(f, us) && Spare(f, v) < TransactionCapacity(us)
      ensures r == Err(InvalidArgument) || r == Err(NoCapacity) ==> p == Operating(v, Settled) && unchanged(storage)
      ensures r == Verdict(f, v, TransactionCapacity(us)) || r == Err(StoreError.StorageError)
              || r == Err(InvalidArgument) || r == Err(NoCapacity)
      ensures r == Err(NoLifetime) ==> p.Operating? && !Compactable(f, p.v)
      ensures r == Err(InvalidStorage) ==> p.Compressing? && Stuck(f, p)
      ensures r.Ok? && (Tight(f, v) || TransactionCapacity(us) > 0) ==> Tight(f, p.v)
      ensures Tight(f, v) && !Crowded(f, v, TransactionCapacity(us)) ==> p.Operating? && Tight(f, p.v)
      ensures r.Ok? ==> Stepped(f, v, Transaction(us), p.v)
      ensures LeanAfter(f, v, TransactionCapacity(us), p)
      ensures Clean(f, v) && r != Err(StoreError.StorageError) && r != Err(InvalidStorage) ==>
              p.Operating? && Clean(f, p.v)
      ensures Clean(f, v) && Tight(f, v) ==> Cleanable(f, p)
      ensures Undisturbed(old(storage.interruption), storage.interruption, r == Err(StoreError.StorageError))
      ensures old(Tame(v)) && r != Err(InvalidStorage) ==> p.Operating? && Tame(p.v)
    {
      hide AtRest, Content, Used, HeadAt, Format.V, Format.C, Format.M, InPhase, Promise, Compactable, Freed, Stuck,
           EntryWords, TransactionCapacity, Outcome, StageOk, Halted, Tight, IsValid, ValidTransaction, ApplyUpdates,
           Idle, Roomy, Ended, Sorted, Resting, UpdatesSize, Clean, Worn, Cleanable, Spare, Charged, Weaker, Append,
           Unbroken, BuildUser, Extended, Format.Overflows, Crowded, Stepped;
      ghost var before, after := Content(f, v.log), ApplyUpdates(Content(f, v.log), us);
      p := Operating(v, Settled);
      RestFacts(f, storage.pages, v);
      if |us| <= 1 { OneSize(us); }
      if Clean(f, v) { SettledCleanable(f, v); }
      if |us| == 0 {
        NoVerdict(f, v);
        NoUpdates(f, before, us);
        SteppedNone(f, v, us);
        EndedRest(f, storage.pages, v, before, after, Ok(()));
        return Ok(()), p;
      }
      if |us| == 1 {
        OneUpdate(f, before, us);
        match us[0] {
          case InsertUpdate(key, value) =>
            r, p := Insert(key, value, v);
          case RemoveUpdate(key) =>
            r, p := RemoveKey(key, v);
            NoVerdict(f, v);
            UnitOk(r);
        }
        if r.Ok? { SteppedOne(f, v, us, p.v); }
        return;
      }
      var sortedKeys := TransactionValid(us);
      if sortedKeys.None? {
        r := Err(InvalidArgument);
        EndedRest(f, storage.pages, v, before, after, r);
        return;
      }
      ghost var v0;
      r, v0, p := Reserve(TransactionCapacity(us), v);
      UnitOk(r);
      if r.Err? {
        if r.error == NoLifetime || r.error == NoCapacity {
          EndedRest(f, storage.pages, v0, before, after, r);
          p := Operating(v0, Settled);
          if Clean(f, v0) { SettledCleanable(f, v0); }
        } else {
          EndedStopped(f, storage.pages, p, before, after, r);
        }
        return;
      }
      ValidIs(f, us);
      ManySize(us);
      ghost var v1 := Charge(TransactionCapacity(us), v0);
      ManyUpdates(f, storage.pages, v1, us);
      ghost var v2, st;
      r, v2, st := WriteTransaction(us, sortedKeys.value, v1);
      UnitOk(r);
      if r.Ok? {
        RestOutcome(f, storage.pages, v2);
        EndedRest(f, storage.pages, v2, before, after, r);
        p := Operating(v2, Settled);
        SettledCleanable(f, v2);
        SteppedMany(f, v, us, v2);
      } else {
        p := Operating(v2, st);
        HaltedPhase(f, storage.pages, v2, st);
        UnbrokenCleanable(f, v2, st);
        EndedStopped(f, storage.pages, p, before, after, r);
      }
    }

    /** Removes the entries with a key larger or equal to `minKey`. */
    method Clear(minKey: nat, ghost v: View) returns (r: Status, ghost p: Phase)
      requires Ready() && AtRest(f, storage.pages, v)
      modifies storage
      ensures Ready() && Ended(f, storage.pages, Content(f, v.log), Below(Content(f, v.log), minKey), r, p)
      ensures r == Err(InvalidArgument) <==> minKey > MAX_KEY
      ensures r == Err(InvalidArgument) ==> p == Operating(v, Settled) && unchanged(storage)
      ensures r != Err(NoCapacity)
      ensures r == Verdict(f, v, 1) || r == Err(StoreError.StorageError) || r == Err(InvalidArgument)
      ensures r == Err(NoLifetime) ==> p.Operating? && !Compactable(f, p.v)
      ensures r == Err(InvalidStorage) ==> p.Compressing? && Stuck(f, p)
      ensures r.Ok? ==>
                && Tight(f, p.v) && BuildInternal(InternalEntry.Clear(minKey)).Ok?
                && Extended(f, Settle(f, v, 1), [BuildInternal(InternalEntry.Clear(minKey)).value], p.v)
      ensures Tight(f, v) && !Crowded(f, v, 1) ==> p.Operating? && Tight(f, p.v)
      ensures p != Fresh && p.v.lean == v.lean
      ensures Clean(f, v) ==> Cleanable(f, p)
      ensures Clean(f, v) && r != Err(StoreError.StorageError) && r != Err(InvalidStorage) ==>
              p.Operating? && Clean(f, p.v)
      ensures Undisturbed(old(storage.interruption), storage.interruption, r == Err(StoreError.StorageError))
      ensures old(Tame(v)) && r != Err(InvalidStorage) ==> p.Operating? && Tame(p.v)
    {
      hide AtRest, Content, Used, HeadAt, Format.V, Format.C, Format.M, InPhase, Promise, Compactable, Freed, Stuck,
           Outcome, StageOk, Halted, Tight, Idle, Roomy, Ended, Resting, Append, BuildInternal, LeavesInternal, Below,
           Formed, Steady, Standing, Start, Clean, Worn, Cleanable, Weaker, Unbroken, Format.Overflows;
      ghost var before, after := Content(f, v.log), Below(Content(f, v.log), minKey);
      p := Operating(v, Settled);
      RestFacts(f, storage.pages, v);
      if Clean(f, v) { SettledCleanable(f, v); }
      if minKey > MAX_KEY {
        r := Err(InvalidArgument);
        EndedRest(f, storage.pages, v, before, after, r);
        return;
      }
      ghost var v1;
      r, v1, p := CompactFor(1, v);
      UnitOk(r);
      if r.Err? {
        if r.error == NoLifetime {
          EndedRest(f, storage.pages, v1, before, after, r);
          p := Operating(v1, Settled);
          if Clean(f, v1) { SettledCleanable(f, v1); }
        } else {
          EndedStopped(f, storage.pages, p, before, after, r);
        }
        return;
      }
      RestFacts(f, storage.pages, v1);
      WithinWindow(f, v1, v1.tail + 1);
      SteadyStands(f, storage.pages, v1, true);
      var tailResult := Tail(v1);
      var tail := tailResult.value;
      ghost var v2;
      r, v2 := AppendInternal(tail, InternalEntry.Clear(minKey), v1);
      InternalLeaves(f, v1, v2, InternalEntry.Clear(minKey), r.Ok?);
      ghost var st := ClearLeft(f, storage.pages, v1, v2, minKey);
      if r.Err? {
        HaltedPhase(f, storage.pages, v2, st);
        p := Operating(v2, st);
        UnbrokenCleanable(f, v2, st);
        EndedStopped(f, storage.pages, p, before, after, r);
        return;
      }
      if Clean(f, v1) { ClearClean(f, v1, minKey); }
      ghost var v3;
      r, v3, st := ClearDelete(tail, minKey, v2);
      UnitOk(r);
      p := Operating(v3, st);
      HaltedPhase(f, storage.pages, v3, st);
      TightCleanable(f, v3, st);
      WeakerKept(f, v2, v3);
      if r.Ok? {
        EndedRest(f, storage.pages, v3, before, after, r);
      } else {
        EndedStopped(f, storage.pages, p, before, after, r);
      }
    }

    /** Compacts the store once if less than `length` words are immediately available. */
    method PrepareFor(length: nat, ghost v: View) returns (r: Status, ghost p: Phase)
      requires Ready() && AtRest(f, storage.pages, v)
      modifies storage
      ensures Ready() && Ended(f, storage.pages, Content(f, v.log), Content(f, v.log), r, p)
      ensures r == Err(NoCapacity) <==> Spare(f, v) < length
      ensures r == Err(NoCapacity) ==> p == Operating(v, Settled) && unchanged(storage)
      ensures r != Err(InvalidArgument)
      ensures r == FreedOnce(f, v, length).1 || r == Err(StoreError.StorageError) || r == Err(NoCapacity)
      ensures r == Err(NoLifetime) ==> p.Operating? && !Compactable(f, p.v)
      ensures r == Err(InvalidStorage) ==> p.Compressing? && Stuck(f, p)
      ensures r.Ok? ==> p == Operating(FreedOnce(f, v, length).0, Settled)
      ensures Tight(f, v) && !Crowded(f, v, length) ==> p.Operating? && Tight(f, p.v)
      ensures p != Fresh && p.v.lean == v.lean
      ensures Clean(f, v) ==> Cleanable(f, p)
      ensures Clean(f, v) && r != Err(StoreError.StorageError) && r != Err(InvalidStorage) ==>
              p.Operating? && Clean(f, p.v)
      ensures Undisturbed(old(storage.interruption), storage.interruption, r == Err(StoreError.StorageError))
      ensures old(Tame(v)) && r != Err(InvalidStorage) ==> p.Operating? && Tame(p.v)
    {
      hide AtRest, Content, Used, HeadAt, Format.V, Format.C, Format.M, InPhase, Promise, Compactable, Stuck, Tight,
           Idle, Roomy, Ended, Resting, Next, Markable, Distance, Formed, Steady, Complete, Clean, Worn, Cleanable,
           Seen, StoreRatio.Remaining, Format.Overflows;
      ghost var before := Content(f, v.log);
      p := Operating(v, Settled);
      RestFacts(f, storage.pages, v);
      if Clean(f, v) { SettledCleanable(f, v); }
      var capacity := GetCapacity(v);
      if capacity.value.Remaining() < length {
        r := Err(NoCapacity);
        EndedRest(f, storage.pages, v, before, before, r);
        return;
      }
      var immediate := ImmediateCapacity(v);
      if immediate.value < length {
        RestMarkable(f, storage.pages, v);
        MarkedFits(f, storage.pages, v);
        NextLean(f, v);
        r, p := Compact(v);
        UnitOk(r);
        if r.Ok? {
          EndedRest(f, storage.pages, Next(f, v), before, before, r);
          p := Operating(Next(f, v), Settled);
          if Clean(f, v) { NextClean(f, v); SettledCleanable(f, Next(f, v)); }
        } else if r.error == NoLifetime {
          EndedRest(f, storage.pages, v, before, before, r);
          p := Operating(v, Settled);
        } else {
          AmidLean(f, p, v);
          if Clean(f, v) { AmidCleanable(f, p, v); }
          EndedStopped(f, storage.pages, p, before, before, r);
        }
        return;
      }
      r := Ok(());
      EndedRest(f, storage.pages, v, before, before, r);
    }

    /** Applies an operation. */
    method Apply(op: StoreOperation, ghost v: View) returns (r: Status, ghost p: Phase)
      requires Ready() && AtRest(f, storage.pages, v)
      modifies storage
      ensures Ready() && Foreseen(f, v, op, r)
      ensures r == Err(NoLifetime) ==> p.Operating? && !Compactable(f, p.v)
      ensures r == Err(InvalidStorage) ==> p.Compressing? && Stuck(f, p)
      ensures Ended(f, storage.pages, Content(f, v.log), Effect(Content(f, v.log), op), r, p)
      ensures p != Fresh && (v.lean && !Overdrawn(f, v, op) ==> p.v.lean)
      ensures r.Ok? ==> Stepped(f, v, op, p.v)
      ensures r.Ok? && !op.Prepare? && Tight(f, v) ==> Tight(f, p.v)
      ensures Tight(f, v) && !Crowded(f, v, Room(op)) ==> p.Operating? && Tight(f, p.v)
      ensures Clean(f, v) && r != Err(StoreError.StorageError) && r != Err(InvalidStorage) ==>
              p.Operating? && Clean(f, p.v)
      ensures Clean(f, v) && Tight(f, v) ==> Cleanable(f, p)
      ensures r.Err? && !IsStorageFailure(r) ==> p == Operating(v, Settled) && unchanged(storage)
      ensures Undisturbed(old(storage.interruption), storage.interruption, r == Err(StoreError.StorageError))
      ensures old(Tame(v)) && r != Err(InvalidStorage) ==> p.Operating? && Tame(p.v)
    {
      hide AtRest, Content, Used, MapWords, Format.C, Format.M, Compactable, Freed, FreedOnce, Stuck, Spare, Tight,
           Ended, IsValid, ApplyUpdates, Below, Idle, Roomy, Formed, InPhase, Promise, Append, Weaker,
           TransactionCapacity, Steady, Complete, Calm, KindOf, Resting, Clean, Worn, Cleanable, BuildInternal,
           Extended;
      RestFacts(f, storage.pages, v);
      match op {
        case Transaction(us) =>
          r, p := ApplyTransaction(us, v);
          TransactionForeseen(f, v, us, r);
        case ClearFrom(minKey) =>
          r, p := Clear(minKey, v);
          ClearForeseen(f, v, minKey, r);
        case Prepare(length) =>
          r, p := PrepareFor(length, v);
          PrepareForeseen(f, v, length, r);
      }
    }

    /** Reads the value that a handle points to. */
    method GetValue(handle: StoreHandle, ghost v: View, ghost k: nat) returns (r: Result<seq<byte>, StoreError>)
      requires Ready() && AtRest(f, storage.pages, v)
      requires k < |v.log| && Kinds(f, v, k).User? && handle == HandleOf(f, v, k)
      ensures r == Ok(ValueOf(f, v.log[k].ws))
    {
      hide Steady, KindOf, ParseEntry, PosAt, HeadAt, Formed, Calm, InitsParse, IsExtremum, Apart, Roomy, ReadWord,
           Unpack, HeaderOf, EntryOf;
      RestFacts(f, storage.pages, v);
      EntryKind(f, storage.pages, v, true, k);
      SteadyParse(f, storage.pages, v, true, k);
      SteadyHolds(f, storage.pages, v, true, k);
      ItemPos(v, k);
      var entry := ParseEntry(f, storage.pages, handle.pos).value;
      var header := entry.0.header;
      UserValue(f, v.log[k].ws, entry.0);
      var words := ReadSlice(handle.pos + 1, BytesToWords(header.length));
      ValueWords(f, storage.pages, v, k, words);
      var bytes := Unpack(words)[..header.length];
      return Ok(if header.flipped && header.length > 0 then bytes[header.length - 1 := 0xff] else bytes);
    }

    /** Returns a handle to the entry for a key, if a scan sees it. */
    method FindHandle(key: nat, ghost v: View) returns (r: Option<StoreHandle>, ghost k: nat)
      requires Ready() && AtRest(f, storage.pages, v)
      ensures r.Some? <==> Visible(f, v, key)
      ensures r.Some? ==> k < |v.log| && Kinds(f, v, k) == User(key) && r.value == HandleOf(f, v, k)
    {
      hide AtRest, KindOf, HeaderOf, HeadAt, PosAt, Format.V, Iterated, Visible;
      RestFacts(f, storage.pages, v);
      var iter := new StoreIter(this, v);
      k := 0;
      while true
        invariant k <= |v.log| && fresh(iter) && iter.store == this && iter.At(v, k)
        invariant forall j: nat :: j < k ==> Kinds(f, v, j) != User(key)
        decreases |v.log| - k
      {
        ghost var k0 := k;
        var next;
        next, k := iter.Next(v, k0);
        IterSkips(f, v, k0, k, next, key);
        if next.None? {
          return None, 0;
        }
        if next.value.key == key {
          IterSees(f, v, k0, k, next, key);
          return next, k - 1;
        }
      }
    }

    /** Returns the value of the entry for a key, if a scan sees it. */
    method Find(key: nat, ghost v: View) returns (r: Result<Option<seq<byte>>, StoreError>)
      requires Ready() && AtRest(f, storage.pages, v)
      ensures r == Ok(if Visible(f, v, key) then Some(Content(f, v.log)[key]) else None)
    {
      hide AtRest, Content, Kinds, ValueOf, HandleOf, Idle, HeadAt, Format.V;
      var handle;
      ghost var k;
      RestFacts(f, storage.pages, v);
      VisibleKey(f, v, key);
      handle, k := FindHandle(key, v);
      if handle.None? {
        return Ok(None);
      }
      ContentAt(f, v, k, key);
      var value := GetValue(handle.value, v, k);
      return Ok(Some(value.value));
    }
  }

  /** A walk over the user entries of a store. */
  class StoreIter {
    const store: Store
    var pos: nat
    const end: nat

    /** The next entry is at an index of the log. */
    ghost predicate At(v: View, k: nat)
      reads this, store, store.storage
    {
      && store.Ready() && AtRest(store.f, store.storage.pages, v)
      && end == HeadAt(v, 0) + store.f.V() && k <= |v.log|
      && (pos == PosAt(v, k) || (pos == end && (k == |v.log| || PosAt(v, k) >= end)))
    }

    constructor (store: Store, ghost v: View)
      requires store.Ready() && AtRest(store.f, store.storage.pages, v)
      ensures this.store == store && At(v, 0)
    {
      hide AtRest, HeadAt, PosAt, Format.V, InitsParse, IsExtremum, Steady, Idle, Roomy;
      RestFacts(store.f, store.storage.pages, v);
      SteadyHead(store.f, store.storage.pages, v, true);
      SteadyStart(store.f, store.storage.pages, v, true);
      var headResult := store.Head(HeadAt(v, 0));
      this.store := store;
      this.pos := headResult.value;
      this.end := headResult.value + store.f.V();
    }

    /** Goes on to the next user entry. */
    method Next(ghost v: View, ghost k: nat) returns (r: Option<StoreHandle>, ghost k': nat)
      requires At(v, k)
      modifies this`pos
      ensures At(v, k') && k <= k' <= |v.log| && store.Ready()
      ensures Iterated(store.f, v, k, k', r)
    {
      hide AtRest, HeadAt, PosAt, Format.V, KindOf, ParseEntry, HeaderOf, NoUsers, HandleOf;
      ghost var pages := store.storage.pages;
      k' := k;
      NoUsersStart(store.f, v, k);
      while pos < end
        invariant At(v, k') && k <= k' && NoUsers(store.f, v, k, k')
        decreases |v.log| - k'
      {
        RestStep(store.f, pages, v, k, k');
        var entryPos := pos;
        var entry := ParseEntry(store.f, store.storage.pages, pos).value;
        if entry.0.ParsedTail? {
          assert k' == |v.log|;
          break;
        }
        assert k' < |v.log|;
        ItemPos(v, k');
        pos := entry.1;
        k' := k' + 1;
        if entry.0.ParsedUser? {
          return Some(StoreHandle(entry.0.header.key, entryPos, entry.0.header.length)), k';
        }
      }
      pos := end;
      return None, k';
    }
  }
}
