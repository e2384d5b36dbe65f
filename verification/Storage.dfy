/**
 The flash storage under the store. A write or an erasure may be interrupted at any time: it then
 returns `false` and has changed any subset of the bits it was to change.
 */
module Storage {
  import opened Wrappers
  import opened Words
  import opened Format
  import opened Flash

  type Status = Result<(), StoreError>

  /** Each of the words is torn on its way from the first to the second. */
  ghost predicate TornAll(torn: seq<Word>, before: seq<Word>, after: seq<Word>) {
    |torn| == |before| == |after| && forall i :: 0 <= i < |torn| ==> Torn(torn[i], before[i], after[i])
  }

  /** Changes an arbitrary subset of the bits that differ. */
  method CorruptWord(before: Word, after: Word) returns (torn: Word)
    ensures Torn(torn, before, after)
  {
    torn := before;
    for i := 0 to 32
      invariant Torn(torn, before, after)
    {
      var flip: bool := *;
      if flip {
        torn := torn[i := after[i]];
      }
    }
  }

  method Corrupt(before: seq<Word>, after: seq<Word>) returns (torn: seq<Word>)
    requires |before| == |after|
    ensures TornAll(torn, before, after)
  {
    torn := [];
    for i := 0 to |before|
      invariant TornAll(torn, before[..i], after[..i])
    {
      var word := CorruptWord(before[i], after[i]);
      torn := torn + [word];
    }
    assert before[..|before|] == before && after[..|after|] == after;
  }

  /** Replaces words of a page. */
  function Splice(page: seq<Word>, index: nat, ws: seq<Word>): (r: seq<Word>)
    requires index + |ws| <= |page|
    ensures |r| == |page|
    ensures forall i :: 0 <= i < |r| ==> r[i] == if index <= i < index + |ws| then ws[i - index] else page[i]
  {
    page[..index] + ws + page[index + |ws|..]
  }

  /** The words of a physical page from an index on. */
  function Slice(f: Format, pages: Pages, page: nat, index: nat, n: nat): (ws: seq<Word>)
    requires Shape(f, pages) && page < f.numPages && index + n <= f.Q() + 2
    ensures |ws| == n
  {
    pages[page][index..index + n]
  }

  /** A slice of a page is what the window holds there. */
  lemma SliceIs(f: Format, pages: Pages, first: nat, pos: nat, n: nat)
    requires Shape(f, pages) && InWindow(Snapshot(f, pages, first), pos, n)
    requires WordIndex(f, pos) + n <= f.Q() + 2
    ensures forall q: nat :: pos <= q < pos + n ==>
              At(Snapshot(f, pages, first), q) == Slice(f, pages, PageOf(f, pos), WordIndex(f, pos), n)[q - pos]
    ensures forall i :: 0 <= i < n ==>
              Slice(f, pages, PageOf(f, pos), WordIndex(f, pos), n)[i] == At(Snapshot(f, pages, first), pos + i)
  {
    hide Snapshot, PageOf, WordIndex, PageIndex, Format.Q, Format.Supported, WindowSize;
    SnapshotReads(f, pages, first);
    forall q: nat | pos <= q < pos + n
      ensures At(Snapshot(f, pages, first), q) == Slice(f, pages, PageOf(f, pos), WordIndex(f, pos), n)[q - pos]
    {
      PosAdvance(f, pos, q - pos);
    }
    forall i | 0 <= i < n
      ensures Slice(f, pages, PageOf(f, pos), WordIndex(f, pos), n)[i] == At(Snapshot(f, pages, first), pos + i)
    {
      PosAdvance(f, pos, i);
    }
  }

  /** Whether an operation is to be interrupted: after how many other operations. */
  datatype Interruption = Disarmed | Armed(delay: nat)

  /** What is not armed is not interrupted. */
  predicate Undisturbed(before: Interruption, after: Interruption, failed: bool) {
    before.Disarmed? ==> after.Disarmed? && !failed
  }

  /** How often each word was written since its page was erased, and each page was erased. */
  datatype Wear = Wear(writes: seq<seq<nat>>, erases: seq<nat>)

  predicate WearShape(f: Format, wear: Wear) {
    && f.Supported() && |wear.writes| == |wear.erases| == f.numPages
    && forall p :: 0 <= p < |wear.writes| ==> |wear.writes[p]| == f.Q() + 2
  }

  /** Every word that changed was written once more. */
  ghost predicate Counted(f: Format, pages: Pages, pages': Pages, wear: Wear, wear': Wear)
    requires Shape(f, pages) && Shape(f, pages') && WearShape(f, wear) && WearShape(f, wear')
  {
    && wear'.erases == wear.erases
    && forall p, i :: 0 <= p < f.numPages && 0 <= i < f.Q() + 2 ==>
         wear'.writes[p][i] == wear.writes[p][i] + if pages'[p][i] == pages[p][i] then 0 else 1
  }

  /** The counters of a page start again when it is erased. */
  function Refreshed(f: Format, wear: Wear, page: nat): (wear': Wear)
    requires WearShape(f, wear) && page < f.numPages
    ensures WearShape(f, wear')
  {
    Wear(wear.writes[page := seq(f.Q() + 2, _ => 0)], wear.erases[page := wear.erases[page] + 1])
  }

  /** The counters of words that were to be written: those that are completely written and changed. */
  function CountWords(counts: seq<nat>, before: seq<Word>, written: seq<Word>, complete: seq<Word>): (r: seq<nat>)
    requires |counts| == |before| == |written| == |complete|
    ensures |r| == |counts|
  {
    seq(|counts|, i requires 0 <= i < |counts| =>
      if written[i] == complete[i] && written[i] != before[i] then counts[i] + 1 else counts[i])
  }

  class BufferStorage {
    const f: Format
    var pages: Pages
    var wear: Wear
    var interruption: Interruption

    constructor (f: Format, pages: Pages)
      requires Shape(f, pages)
      ensures this.f == f && this.pages == pages && Valid() && interruption == Disarmed
      ensures forall p :: 0 <= p < f.numPages ==> wear.erases[p] == 0
      ensures forall p, i :: 0 <= p < f.numPages && 0 <= i < f.Q() + 2 ==> wear.writes[p][i] == 0
    {
      this.f := f;
      this.pages := pages;
      this.wear := Wear(seq(f.numPages, _ => seq(f.Q() + 2, _ => 0)), seq(f.numPages, _ => 0));
      this.interruption := Disarmed;
    }

    ghost predicate Valid()
      reads this
    {
      Shape(f, pages) && WearShape(f, wear)
    }

    /** Arms an interruption after a given number of operations. */
    method ArmInterruption(delay: nat)
      requires interruption.Disarmed?
      modifies this`interruption
      ensures interruption == Armed(delay)
    {
      interruption := Armed(delay);
    }

    /** No later operation will be interrupted. */
    method ResetInterruption()
      modifies this`interruption
      ensures interruption == Disarmed
    {
      interruption := Disarmed;
    }

    /** Whether the next operation is interrupted, if the delay is over; decrements it otherwise. */
    method Tick() returns (interrupted: bool)
      modifies this`interruption
      ensures interrupted <==> old(interruption) == Armed(0)
      ensures interruption == if old(interruption) == Disarmed || interrupted then Disarmed
                              else Armed(old(interruption).delay - 1)
    {
      interrupted := interruption == Armed(0);
      if interrupted {
        interruption := Disarmed;
      } else if interruption.Armed? {
        interruption := Armed(interruption.delay - 1);
      }
    }

    /**
     Writes words of a physical page; returns whether the write was not interrupted. An interrupted
     operation is torn at once.
     */
    method Write(page: nat, index: nat, ws: seq<Word>) returns (ok: bool)
      requires Valid() && page < f.numPages && index + |ws| <= f.Q() + 2
      requires forall i :: 0 <= i < |ws| ==> Covers(Slice(f, pages, page, index, |ws|)[i], ws[i])
      modifies this
      ensures Valid()
      ensures DiffersOnlyIn(f, old(pages), pages, page, index, |ws|)
      ensures ok ==> Slice(f, pages, page, index, |ws|) == ws
      ensures ok ==> Counted(f, old(pages), pages, old(wear), wear)
      ensures !ok ==> TornAll(Slice(f, pages, page, index, |ws|), Slice(f, old(pages), page, index, |ws|), ws)
      ensures ok <==> old(interruption) != Armed(0)
      ensures Undisturbed(old(interruption), interruption, !ok)
    {
      hide Format.Q, Format.Supported;
      var before := Slice(f, pages, page, index, |ws|);
      var written := ws;
      var interrupted := Tick();
      if interrupted {
        written := Corrupt(before, ws);
      }
      var counts := CountWords(wear.writes[page][index..index + |ws|], before, written, ws);
      var row := wear.writes[page];
      wear := wear.(writes := wear.writes[page := row[..index] + counts + row[index + |ws|..]]);
      pages := pages[page := Splice(pages[page], index, written)];
      ok := !interrupted;
      assert Slice(f, pages, page, index, |ws|) == written;
    }

    /** Erases a physical page; returns whether the erasure was not interrupted. */
    method Erase(page: nat) returns (ok: bool)
      requires Valid() && page < f.numPages
      modifies this
      ensures Valid()
      ensures DiffersOnlyIn(f, old(pages), pages, page, 0, f.Q() + 2)
      ensures ok ==> forall i :: 0 <= i < f.Q() + 2 ==> pages[page][i] == ERASED_WORD
      ensures ok ==> wear == Refreshed(f, old(wear), page)
      ensures !ok ==> forall i :: 0 <= i < f.Q() + 2 ==> Torn(pages[page][i], old(pages)[page][i], ERASED_WORD)
      ensures ok <==> old(interruption) != Armed(0)
      ensures Undisturbed(old(interruption), interruption, !ok)
    {
      hide Format.Q, Format.Supported;
      var complete := seq<Word>(f.Q() + 2, _ => ERASED_WORD);
      var after: seq<Word> := complete;
      var interrupted := Tick();
      if interrupted {
        after := Corrupt(pages[page], complete);
      }
      if after == complete {
        wear := Refreshed(f, wear, page);
      }
      pages := pages[page := after];
      ok := !interrupted;
    }

    /**
     Writes words of a physical page, starting from the first one that differs. Nothing is written,
     and so nothing can be interrupted, if none differs.
     */
    method StorageWriteSlice(page: nat, index: nat, ws: seq<Word>) returns (r: Status)
      requires Valid() && page < f.numPages && index + |ws| <= f.Q() + 2
      requires forall i :: 0 <= i < |ws| ==> Covers(Slice(f, pages, page, index, |ws|)[i], ws[i])
      modifies this
      ensures Valid()
      ensures DiffersOnlyIn(f, old(pages), pages, page, index, |ws|)
      ensures r.Ok? ==> Slice(f, pages, page, index, |ws|) == ws
      ensures r.Ok? ==> Counted(f, old(pages), pages, old(wear), wear)
      ensures r.Err? ==> r.error == StoreError.StorageError
      ensures r.Err? ==> TornAll(Slice(f, pages, page, index, |ws|), Slice(f, old(pages), page, index, |ws|), ws)
      ensures Slice(f, old(pages), page, index, |ws|) == ws ==> r.Ok? && unchanged(this)
      ensures Undisturbed(old(interruption), interruption, r.Err?)
    {
      hide Format.Q, Format.Supported;
      var before := Slice(f, pages, page, index, |ws|);
      var start := 0;
      while start < |ws| && before[start] == ws[start]
        invariant 0 <= start <= |ws|
        invariant forall i :: 0 <= i < start ==> before[i] == ws[i]
      {
        start := start + 1;
      }
      if start == |ws| {
        return Ok(());
      }
      var rest := ws[start..];
      assert Slice(f, pages, page, index + start, |rest|) == before[start..];
      var ok := Write(page, index + start, rest);
      var after := Slice(f, pages, page, index, |ws|);
      assert Slice(f, pages, page, index + start, |rest|) == after[start..];
      assert forall i :: 0 <= i < start ==> after[i] == pages[page][index + i] == before[i];
      assert forall i :: start <= i < |ws| ==> after[i] == after[start..][i - start] && ws[i] == rest[i - start];
      if !ok {
        assert forall i :: start <= i < |ws| ==> before[i] == before[start..][i - start];
        return Err(StoreError.StorageError);
      }
      assert after == ws;
      return Ok(());
    }
  }
}
