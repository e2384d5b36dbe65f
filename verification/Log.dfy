/**
 The log of entries of the store. A view describes everything that the flash holds from the head of
 the store on: its entries with their positions and words, the tail, and for each page in use the
 entry that its init info points to.
 */
module Log {
  import opened Arithmetic
  import opened Words
  import opened Format
  import opened Entries
  import opened Flash

  datatype Item = Item(pos: nat, ws: seq<Word>)

  /**
   `first` is the virtual page of the head. `marks[i]` is the index in the log of the first entry of
   the page `first + i`; there is one mark for each page in use, none before the first entry is written.
   `lean` tells that the log has never held more words of user entries than the capacity.
   */
  datatype View = View(first: nat, log: seq<Item>, tail: nat, marks: seq<nat>, lean: bool)

  function End(it: Item): nat {
    it.pos + |it.ws|
  }

  /** The position of an entry, or the tail after the last one. */
  function PosAt(v: View, k: nat): nat {
    if k < |v.log| then v.log[k].pos else v.tail
  }

  /** The position of the first entry of a page in use. */
  function HeadAt(v: View, i: nat): nat {
    if i < |v.marks| then PosAt(v, v.marks[i]) else v.tail
  }

  /** The position where a page of the window starts. */
  function Start(f: Format, v: View, i: nat): nat
    requires f.Supported()
  {
    (v.first + i) * f.Q()
  }

  function Kinds(f: Format, v: View, k: nat): Kind
    requires f.Supported() && k < |v.log|
  {
    KindOf(f, v.log[k].ws)
  }

  lemma StartStep(f: Format, v: View, i: nat)
    requires f.Supported()
    ensures Start(f, v, i + 1) == Start(f, v, i) + f.Q()
  {
    MulStep(v.first + i, f.Q());
  }

  lemma StartOrder(f: Format, v: View, i: nat, j: nat)
    requires f.Supported() && i <= j
    ensures Start(f, v, i) <= Start(f, v, j)
    ensures i < j ==> Start(f, v, i) + f.Q() <= Start(f, v, j)
  {
    MulMonotone(f.Q(), v.first + i, v.first + j);
    if i < j {
      MulMonotone(f.Q(), v.first + i + 1, v.first + j);
      MulStep(v.first + i, f.Q());
    }
  }

  // ---------------------------------------------------------------------------------------------
  // Well-formed views

  /** The entries follow each other up to the tail. */
  ghost predicate Contiguous(v: View) {
    && (forall k: nat :: k < |v.log| ==> v.log[k].ws != [] && End(v.log[k]) <= v.tail)
    && (forall j: nat, k: nat :: j < k < |v.log| ==>
          End(v.log[j]) <= v.log[k].pos && (k == j + 1 ==> End(v.log[j]) == v.log[k].pos))
    && (v.log != [] ==> End(v.log[|v.log| - 1]) == v.tail)
  }

  /** The entry that the init info of a page points to starts in the prefix of that page. */
  ghost predicate MarkOk(f: Format, v: View, i: nat)
    requires f.Supported() && i < |v.marks|
  {
    && v.marks[i] <= |v.log|
    && Start(f, v, i) <= HeadAt(v, i) <= Start(f, v, i) + f.M()
  }

  /** No user entry starts in a page before the entry that the init info points to. */
  ghost predicate NoUserBeforeMark(f: Format, v: View, i: nat)
    requires f.Supported() && i < |v.marks|
  {
    forall k: nat :: k < v.marks[i] && k < |v.log| && Kinds(f, v, k).User? ==> v.log[k].pos < Start(f, v, i)
  }

  ghost predicate MarksOk(f: Format, v: View)
    requires f.Supported()
  {
    && (if v.marks == [] then v.log == [] && v.tail == Start(f, v, 0) else v.marks[0] == 0)
    && (forall i: nat :: i < |v.marks| ==> MarkOk(f, v, i) && NoUserBeforeMark(f, v, i))
    && v.tail <= Start(f, v, |v.marks|)
    && (|v.marks| > 1 ==> Start(f, v, |v.marks| - 1) < v.tail)
  }

  /** Every entry can be parsed; only the last one may be torn. */
  ghost predicate Parses(f: Format, v: View)
    requires f.Supported()
  {
    forall k: nat :: k < |v.log| ==>
      && !Kinds(f, v, k).Bad?
      && |v.log[k].ws| <= f.M() + 1
      && (Kinds(f, v, k).TornUser? || Kinds(f, v, k).TornEntry? ==> k == |v.log| - 1)
  }

  /** A log that may be about to open its first page. */
  ghost predicate Framed(f: Format, v: View) {
    f.Supported() && Contiguous(v) && MarksOk(f, v) && Parses(f, v)
  }

  ghost predicate Formed(f: Format, v: View) {
    Framed(f, v) && v.marks != []
  }

  /** An entry starts before another exactly when it comes before it in the log. */
  lemma PosBefore(v: View, i: nat, j: nat)
    requires Contiguous(v) && i <= |v.log| && j <= |v.log|
    ensures PosAt(v, i) < PosAt(v, j) <==> i < j
    ensures PosAt(v, i) == PosAt(v, j) <==> i == j
    ensures i < j ==> End(v.log[i]) <= PosAt(v, j)
    ensures j == i + 1 ==> End(v.log[i]) == PosAt(v, j)
  {
  }

  // ---------------------------------------------------------------------------------------------
  // What the flash holds

  /** The init info of a page in use. */
  function InitWord(f: Format, v: View, i: nat): Word
    requires f.Supported()
  {
    hide Start, HeadAt, CycleIndex, BuildInit;
    if Start(f, v, i) <= HeadAt(v, i) then
      var info := InitInfo(CycleIndex(f, v.first + i), HeadAt(v, i) - Start(f, v, i));
      if BuildInit(info).Ok? then BuildInit(info).value else ERASED_WORD
    else ERASED_WORD
  }

  /** The init info of a page of the window. */
  function PageInit(s: Window, off: nat, i: nat): Word {
    if off + i < |s.inits| then s.inits[off + i] else ERASED_WORD
  }

  ghost predicate HoldsLog(s: Window, v: View) {
    forall k: nat :: k < |v.log| ==> Holds(s, v.log[k].pos, v.log[k].ws)
  }

  ghost predicate ErasedBetween(s: Window, lo: nat, hi: nat) {
    s.base <= lo && hi <= s.base + |s.mem| && forall q: nat :: lo <= q < hi ==> At(s, q) == ERASED_WORD
  }

  /**
   The `n` first pages of the view, which are the pages of the window from `off` on, have the right
   init info. Unless `tidy`, the last one in use may still be torn.
   */
  ghost predicate HoldsInits(f: Format, s: Window, v: View, off: nat, n: nat, tidy: bool)
    requires f.Supported()
  {
    && off + n <= |s.inits| && |v.marks| <= n
    && (forall i: nat :: i < |v.marks| ==>
          && Covers(PageInit(s, off, i), InitWord(f, v, i))
          && (tidy || i < |v.marks| - 1 ==> PageInit(s, off, i) == InitWord(f, v, i)))
    && (forall i: nat :: |v.marks| <= i < n ==> PageInit(s, off, i) == ERASED_WORD)
  }

  /** The pages of the window from `off` on hold what the view says, in its `n` first pages. */
  ghost predicate Matches(f: Format, s: Window, v: View, off: nat, n: nat, tidy: bool)
    requires f.Supported()
  {
    && s.base + off * f.Q() == Start(f, v, 0)
    && |s.mem| == WindowSize(f) && |s.inits| == |s.compacts| == f.numPages
    && off + n <= f.numPages
    && HoldsLog(s, v)
    && v.tail <= Start(f, v, n)
    && ErasedBetween(s, v.tail, Start(f, v, n))
    && HoldsInits(f, s, v, off, n, tidy)
  }

  ghost predicate CompactsErased(s: Window, off: nat, n: nat) {
    off + n <= |s.compacts| && forall i: nat :: off <= i < off + n ==> s.compacts[i] == ERASED_WORD
  }
}
