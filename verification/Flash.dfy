/**
 The flash behind the store. A physical page holds its init info, its compact info and the words of a
 virtual page. Positions number the words of the virtual storage over its whole lifetime; the pages
 from `first` on form a window of `numPages` virtual pages that exists physically, and `Snapshot` is
 what the flash holds seen through that window.
 */
module Flash {
  import opened Arithmetic
  import opened Wrappers
  import opened Words
  import opened Format

  type Pages = seq<seq<Word>>

  predicate Shape(f: Format, pages: Pages) {
    f.Supported() && |pages| == f.numPages && forall p :: 0 <= p < |pages| ==> |pages[p]| == f.Q() + 2
  }

  /** The physical page of a virtual page. */
  function PageIndex(f: Format, page: nat): (p: nat)
    requires f.Supported()
    ensures p < f.numPages
  {
    page % f.numPages
  }

  /** How often a virtual page has been erased before it is written. */
  function CycleIndex(f: Format, page: nat): nat
    requires f.Supported()
  {
    page / f.numPages
  }

  /** The position of a word given how often its page was erased. */
  function Position(f: Format, cycle: nat, page: nat, word: nat): nat
    requires f.Supported()
  {
    hide Format.Q, Format.Supported;
    (cycle * f.numPages + page) * f.Q() + word
  }

  /** The virtual page of a position. */
  function VirtPage(f: Format, pos: nat): nat
    requires f.Supported()
  {
    hide Format.Q, Format.Supported;
    pos / f.Q()
  }

  /** The index of a position in its virtual page. */
  function WordOf(f: Format, pos: nat): (w: nat)
    requires f.Supported()
    ensures w < f.Q()
  {
    hide Format.Q, Format.Supported;
    pos % f.Q()
  }

  /** The physical page of a position. */
  function PageOf(f: Format, pos: nat): (p: nat)
    requires f.Supported()
    ensures p < f.numPages
  {
    PageIndex(f, VirtPage(f, pos))
  }

  /** The index of a position in its physical page, after the init and compact words. */
  function WordIndex(f: Format, pos: nat): (w: nat)
    requires f.Supported()
    ensures 2 <= w < f.Q() + 2
  {
    2 + WordOf(f, pos)
  }

  function ReadWord(f: Format, pages: Pages, pos: nat): Word
    requires Shape(f, pages)
  {
    pages[PageOf(f, pos)][WordIndex(f, pos)]
  }

  function NextPage(f: Format, pos: nat): nat
    requires f.Supported()
  {
    hide Format.Q, Format.Supported;
    (VirtPage(f, pos) + 1) * f.Q()
  }

  // ---------------------------------------------------------------------------------------------
  // Parsing entries

  datatype ParsedEntry =
    | ParsedPadding
    | ParsedUser(header: Header)
    | ParsedInternal(entry: InternalEntry)
    | ParsedPartialUser
    | ParsedPartial
    | ParsedTail

  /** The largest index below `n` of a word that is not erased, counted from a position. */
  function LastWritten(f: Format, pages: Pages, pos: nat, n: nat): Option<nat>
    requires Shape(f, pages)
  {
    if n == 0 then None
    else if ReadWord(f, pages, pos + n - 1) != ERASED_WORD then Some(n - 1)
    else LastWritten(f, pages, pos, n - 1)
  }

  function ParsePartial(f: Format, pages: Pages, pos: nat): (ParsedEntry, nat)
    requires Shape(f, pages)
  {
    match LastWritten(f, pages, pos, f.M())
    case None => (ParsedTail, pos)
    case Some(length) => (ParsedPartial, pos + 1 + length)
  }

  function ParseUser(f: Format, pages: Pages, pos: nat, h: Header): Result<(ParsedEntry, nat), StoreError>
    requires Shape(f, pages)
  {
    if h.length > f.MaxValueLen() then Ok(ParsePartial(f, pages, pos))
    else
      var length := BytesToWords(h.length);
      var footer := if length == 0 then None else Some(ReadWord(f, pages, pos + length));
      if h.Check(footer) then
        if h.key > MAX_KEY then Err(InvalidStorage) else Ok((ParsedUser(h), pos + 1 + length))
      else if footer.None? || footer.value == ERASED_WORD then Ok(ParsePartial(f, pages, pos))
      else Ok((ParsedPartialUser, pos + 1 + length))
  }

  /** Parses the entry at a position; also returns the position of the next entry. */
  function ParseEntry(f: Format, pages: Pages, pos: nat): Result<(ParsedEntry, nat), StoreError>
    requires Shape(f, pages)
  {
    var state :- ParseWord(f, ReadWord(f, pages, pos));
    match state
    case Erased => Ok(ParsePartial(f, pages, pos))
    case Partial => Ok(ParsePartial(f, pages, pos))
    case Valid(PaddingWord(length)) => Ok((ParsedPadding, pos + 1 + length))
    case Valid(HeaderWord(h)) => ParseUser(f, pages, pos, h)
    case Valid(InternalWord(e)) => Ok((ParsedInternal(e), pos + 1))
  }

  // ---------------------------------------------------------------------------------------------
  // The window

  /** What the flash holds in the window starting at virtual page `first`, at position `base`. */
  datatype Window = Window(base: nat, mem: seq<Word>, inits: seq<Word>, compacts: seq<Word>)

  function At(s: Window, pos: nat): Word
    requires s.base <= pos < s.base + |s.mem|
  {
    s.mem[pos - s.base]
  }

  function WindowSize(f: Format): nat
    requires f.Supported()
  {
    f.numPages * f.Q()
  }

  /** The words from a position on. */
  function Span(f: Format, pages: Pages, pos: nat, n: nat): (ws: seq<Word>)
    requires Shape(f, pages)
    ensures |ws| == n
  {
    hide *;
    seq<Word>(n, i requires 0 <= i => ReadWord(f, pages, pos + i))
  }

  function InfoOf(f: Format, pages: Pages, page: nat, index: nat): Word
    requires Shape(f, pages) && index < 2
  {
    pages[PageIndex(f, page)][index]
  }

  /** The init infos (`index == 0`) or compact infos (`index == 1`) from a virtual page on. */
  function Infos(f: Format, pages: Pages, first: nat, index: nat, n: nat): (ws: seq<Word>)
    requires Shape(f, pages) && index < 2
    ensures |ws| == n
  {
    hide *;
    seq<Word>(n, i requires 0 <= i => InfoOf(f, pages, first + i, index))
  }

  function Snapshot(f: Format, pages: Pages, first: nat): Window
    requires Shape(f, pages)
  {
    Window(
      first * f.Q(),
      Span(f, pages, first * f.Q(), WindowSize(f)),
      Infos(f, pages, first, 0, f.numPages),
      Infos(f, pages, first, 1, f.numPages))
  }

  /** A snapshot tells what every position of the window reads and the infos of every page. */
  lemma SnapshotReads(f: Format, pages: Pages, first: nat)
    requires Shape(f, pages)
    ensures var s := Snapshot(f, pages, first);
            && s.base == first * f.Q() && |s.mem| == WindowSize(f)
            && |s.inits| == |s.compacts| == f.numPages
            && (forall q: nat :: s.base <= q < s.base + |s.mem| ==> At(s, q) == ReadWord(f, pages, q))
            && (forall i: nat :: i < f.numPages ==> s.inits[i] == InfoOf(f, pages, first + i, 0))
            && (forall i: nat :: i < f.numPages ==> s.compacts[i] == InfoOf(f, pages, first + i, 1))
  {
    hide Format.Q, Format.Supported, Shape, WindowSize, ReadWord, InfoOf;
    var s := Snapshot(f, pages, first);
    forall q: nat | s.base <= q < s.base + |s.mem| ensures At(s, q) == ReadWord(f, pages, q) {
      assert s.mem[q - s.base] == ReadWord(f, pages, s.base + (q - s.base));
    }
  }

  /** Two positions of a window in the same physical word are equal. */
  lemma SamePlace(f: Format, first: nat, a: nat, b: nat)
    requires f.Supported()
    requires first * f.Q() <= a < first * f.Q() + WindowSize(f)
    requires first * f.Q() <= b < first * f.Q() + WindowSize(f)
    requires PageOf(f, a) == PageOf(f, b) && WordIndex(f, a) == WordIndex(f, b)
    ensures a == b
  {
    f.SizeBounds();
    DivInRange(a, f.Q(), first, f.numPages);
    DivInRange(b, f.Q(), first, f.numPages);
    SameResidue(f.numPages, first, a / f.Q(), b / f.Q());
    DivMod(a, f.Q());
    DivMod(b, f.Q());
  }

  /** Words next to each other in a physical page are next to each other in the virtual storage. */
  lemma PosAdvance(f: Format, pos: nat, d: nat)
    requires f.Supported() && WordIndex(f, pos) + d < f.Q() + 2
    ensures PageOf(f, pos + d) == PageOf(f, pos) && WordIndex(f, pos + d) == WordIndex(f, pos) + d
  {
    hide Format.Q, Format.Supported, PageIndex;
    DivMod(pos, f.Q());
    DivModUnique(pos + d, f.Q(), pos / f.Q(), pos % f.Q() + d);
  }

  // ---------------------------------------------------------------------------------------------
  // Changes of the flash

  /** The flash may only differ in `n` words of a page. */
  ghost predicate DiffersOnlyIn(f: Format, pages: Pages, pages': Pages, page: nat, index: nat, n: nat)
    requires Shape(f, pages) && Shape(f, pages')
  {
    forall p, i :: 0 <= p < f.numPages && 0 <= i < f.Q() + 2 && !(p == page && index <= i < index + n) ==>
      pages'[p][i] == pages[p][i]
  }

  ghost predicate InWindow(s: Window, pos: nat, n: nat) {
    s.base <= pos && pos + n <= s.base + |s.mem|
  }

  /** The windows may only differ in the `n` words from a position on. */
  ghost predicate SameExcept(s: Window, s': Window, pos: nat, n: nat) {
    && s'.base == s.base && |s'.mem| == |s.mem| && s'.inits == s.inits && s'.compacts == s.compacts
    && forall q: nat :: s.base <= q < s.base + |s.mem| && !(pos <= q < pos + n) ==> At(s', q) == At(s, q)
  }

  /** The words from a position on. */
  ghost predicate Holds(s: Window, pos: nat, ws: seq<Word>) {
    InWindow(s, pos, |ws|) && forall q: nat :: pos <= q < pos + |ws| ==> At(s, q) == ws[q - pos]
  }

  /** A completed write. */
  ghost predicate Written(s: Window, s': Window, pos: nat, ws: seq<Word>) {
    SameExcept(s, s', pos, |ws|) && Holds(s', pos, ws)
  }

  /** An interrupted write: any of the bits to be changed may have been. */
  ghost predicate TornWritten(s: Window, s': Window, pos: nat, ws: seq<Word>) {
    && InWindow(s, pos, |ws|)
    && SameExcept(s, s', pos, |ws|)
    && forall q: nat :: pos <= q < pos + |ws| ==> Torn(At(s', q), At(s, q), ws[q - pos])
  }

  /** The words may be written: no bit would go from zero to one. */
  ghost predicate Writable(s: Window, pos: nat, ws: seq<Word>) {
    InWindow(s, pos, |ws|) && forall q: nat :: pos <= q < pos + |ws| ==> Covers(At(s, q), ws[q - pos])
  }

  /** A position keeps reading the same word when the physical word it lies in does not change. */
  lemma UnchangedRead(f: Format, pages: Pages, pages': Pages, first: nat, pos: nat, n: nat, q: nat)
    requires Shape(f, pages) && Shape(f, pages')
    requires first * f.Q() <= pos && pos + n <= first * f.Q() + WindowSize(f)
    requires WordIndex(f, pos) + n <= f.Q() + 2
    requires DiffersOnlyIn(f, pages, pages', PageOf(f, pos), WordIndex(f, pos), n)
    requires first * f.Q() <= q < first * f.Q() + WindowSize(f) && !(pos <= q < pos + n)
    ensures ReadWord(f, pages', q) == ReadWord(f, pages, q)
  {
    hide PageOf, WordIndex, Format.Q, Format.Supported, WindowSize;
    if PageOf(f, q) == PageOf(f, pos) && WordIndex(f, pos) <= WordIndex(f, q) < WordIndex(f, pos) + n {
      var d := WordIndex(f, q) - WordIndex(f, pos);
      PosAdvance(f, pos, d);
      SamePlace(f, first, q, pos + d);
    }
  }

  /** Changing words of a physical page changes exactly those words of the window. */
  lemma ContentChange(f: Format, pages: Pages, pages': Pages, first: nat, pos: nat, n: nat)
    requires Shape(f, pages) && Shape(f, pages')
    requires first * f.Q() <= pos && pos + n <= first * f.Q() + WindowSize(f)
    requires WordIndex(f, pos) + n <= f.Q() + 2
    requires DiffersOnlyIn(f, pages, pages', PageOf(f, pos), WordIndex(f, pos), n)
    ensures SameExcept(Snapshot(f, pages, first), Snapshot(f, pages', first), pos, n)
    ensures forall q: nat :: pos <= q < pos + n ==>
              ReadWord(f, pages', q) == pages'[PageOf(f, pos)][WordIndex(f, pos) + q - pos]
  {
    hide PageOf, WordIndex, PageIndex, Format.Q, Format.Supported, WindowSize, Snapshot;
    SnapshotReads(f, pages, first);
    SnapshotReads(f, pages', first);
    var s, s' := Snapshot(f, pages, first), Snapshot(f, pages', first);
    forall q: nat | s.base <= q < s.base + |s.mem| && !(pos <= q < pos + n) ensures At(s', q) == At(s, q) {
      UnchangedRead(f, pages, pages', first, pos, n, q);
    }
    forall q: nat | pos <= q < pos + n
      ensures ReadWord(f, pages', q) == pages'[PageOf(f, pos)][WordIndex(f, pos) + q - pos]
    {
      PosAdvance(f, pos, q - pos);
    }
    assert s'.inits == s.inits;
    assert s'.compacts == s.compacts;
  }

  lemma OtherPage(f: Format, first: nat, i: nat, k: nat)
    requires f.Supported() && i < f.numPages && k < f.numPages && i != k
    ensures PageIndex(f, first + i) != PageIndex(f, first + k)
  {
    if PageIndex(f, first + i) == PageIndex(f, first + k) {
      SameResidue(f.numPages, first, first + i, first + k);
    }
  }

  /** Changing the init or compact info of a physical page changes only that info of the window. */
  lemma InfoChange(f: Format, pages: Pages, pages': Pages, first: nat, i: nat, index: nat)
    requires Shape(f, pages) && Shape(f, pages') && i < f.numPages && index < 2
    requires DiffersOnlyIn(f, pages, pages', PageIndex(f, first + i), index, 1)
    ensures |Snapshot(f, pages, first).inits| == |Snapshot(f, pages, first).compacts| == f.numPages
    ensures var s, s' := Snapshot(f, pages, first), Snapshot(f, pages', first);
            var w: Word := pages'[PageIndex(f, first + i)][index];
            s' == if index == 0 then s.(inits := s.inits[i := w]) else s.(compacts := s.compacts[i := w])
  {
    hide PageOf, WordIndex, PageIndex, Format.Q, Format.Supported, WindowSize, Snapshot;
    SnapshotReads(f, pages, first);
    SnapshotReads(f, pages', first);
    var s, s' := Snapshot(f, pages, first), Snapshot(f, pages', first);
    assert forall q: nat :: s.base <= q < s.base + |s.mem| ==> At(s, q) == At(s', q);
    assert s'.mem == s.mem by {
      forall k | 0 <= k < |s.mem| ensures s'.mem[k] == s.mem[k] {
        assert At(s', s.base + k) == At(s, s.base + k);
      }
    }
    forall k: nat | k < f.numPages && k != i
      ensures s'.inits[k] == s.inits[k] && s'.compacts[k] == s.compacts[k]
    {
      OtherPage(f, first, i, k);
    }
    var w: Word := pages'[PageIndex(f, first + i)][index];
    if index == 0 {
      assert s'.inits == s.inits[i := w];
      assert s'.compacts == s.compacts;
    } else {
      assert s'.inits == s.inits;
      assert s'.compacts == s.compacts[i := w];
    }
  }

  lemma NextPageIs(f: Format, pos: nat)
    requires f.Supported()
    ensures NextPage(f, pos) == pos + (f.Q() + 2 - WordIndex(f, pos))
    ensures WordIndex(f, NextPage(f, pos)) == 2
  {
    hide Format.Q, Format.Supported;
    DivMod(pos, f.Q());
    MulStep(pos / f.Q(), f.Q());
    DivModUnique(NextPage(f, pos), f.Q(), pos / f.Q() + 1, 0);
  }

  /** A write in two parts, the second of which may be torn. */
  lemma WrittenThen(s: Window, s1: Window, s2: Window, pos: nat, ws: seq<Word>, n: nat)
    requires n <= |ws| && InWindow(s, pos, |ws|) && Written(s, s1, pos, ws[..n])
    ensures Written(s1, s2, pos + n, ws[n..]) ==> Written(s, s2, pos, ws)
    ensures TornWritten(s1, s2, pos + n, ws[n..]) ==> TornWritten(s, s2, pos, ws)
  {
    if TornWritten(s1, s2, pos + n, ws[n..]) {
      forall q: nat | pos <= q < pos + |ws| ensures Torn(At(s2, q), At(s, q), ws[q - pos]) {
        if q < pos + n {
          assert At(s2, q) == At(s1, q) == ws[q - pos];
        }
      }
    }
  }

  /** A torn write of the first words is a torn write of all words. */
  lemma TornThen(s: Window, s1: Window, pos: nat, ws: seq<Word>, n: nat)
    requires n <= |ws| && InWindow(s, pos, |ws|) && TornWritten(s, s1, pos, ws[..n])
    ensures TornWritten(s, s1, pos, ws)
  {
    forall q: nat | pos <= q < pos + |ws| ensures Torn(At(s1, q), At(s, q), ws[q - pos]) {
      if q >= pos + n {
        assert At(s1, q) == At(s, q);
      }
    }
  }

  /** Words that may be written may still be written after those before them have been. */
  lemma WritableThen(s: Window, s1: Window, pos: nat, ws: seq<Word>, n: nat)
    requires n <= |ws| && Writable(s, pos, ws) && SameExcept(s, s1, pos, n)
    ensures Writable(s1, pos + n, ws[n..])
  {
  }

  lemma WrittenSame(s: Window, s1: Window, pos: nat, ws: seq<Word>)
    requires Written(s, s1, pos, ws)
    ensures SameExcept(s, s1, pos, |ws|) && Holds(s1, pos, ws)
  {
  }
}
