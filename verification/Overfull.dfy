/** Runs that lose a store: for every format that is concerned, some operations on an erased flash. */
module Overfull {
  import opened Arithmetic
  import opened Wrappers
  import opened Words
  import opened Format
  import opened Bytes
  import opened Entries
  import opened Flash
  import opened Log
  import opened Storage
  import opened Appending
  import opened Contents
  import opened Stages
  import opened Compaction
  import opened Migration
  import opened Phases
  import opened Booting
  import opened StoreUpdates
  import opened Searching
  import opened Capacity
  import opened Model
  import opened Wiping
  import opened Overflow
  import opened Growing
  import opened Scenarios
  import opened Driver

  // ---------------------------------------------------------------------------------------------
  // Sizes

  /** The words of a block that fills `M + 1` pages: one entry of one word, then the longest entries. */
  function BlockSize(f: Format): nat
    requires f.Supported()
  {
    (f.Q() - 1) * f.Q() + 1
  }

  /** The longest value. */
  function Longest(f: Format): (value: seq<byte>)
    requires f.Supported()
    ensures |value| == f.MaxValueLen()
  {
    seq(f.MaxValueLen(), i => 0 as byte)
  }

  lemma CapacityIs(f: Format)
    requires f.Supported()
    ensures f.V() + f.M() == (f.numPages - 1) * (f.Q() - 1)
    ensures f.C() + f.numPages == f.V()
    ensures 6 <= f.Q() && 5 <= f.M() && f.M() == Min(f.Q() - 1, 256) && 3 <= f.numPages <= 64
    ensures EntryWords(Longest(f)) == f.M() + 1 && EntryWords([]) == 1
  {
    f.SizeBounds();
    VirtSizes(f);
  }

  /** In the formats that are concerned, pages are short and there are at least four more of them than words in one. */
  lemma ShortPages(n: nat, q: nat, m: nat, c: nat)
    requires 3 <= n <= 64 && 6 <= q && m == Min(q - 1, 256) && c + m + n == (n - 1) * (q - 1) && c > (m + 1) * (q - 1)
    ensures m == q - 1 && n >= q + 4 && (n == q + 4 ==> q >= 7)
  {
    MulMonotone(q - 1, n - 1, 63);
    MulMonotone(q - 1, 63, 257);
    MulSum(n - 2, 1, q - 1);
    MulSum(n - 2, q, q - 1);
    var d, x := n - 2 - q, (n - 2 - q) * (q - 1);
    assert x > n && (d == 1 ==> x == q - 1) && (d == 2 ==> x == 2 * (q - 1));
    if d <= 0 { MulMonotone(q - 1, d, 0); }
  }

  /** The sizes of such formats: `v` is the virtual capacity. */
  lemma ShortSizes(n: nat, q: nat, v: nat)
    requires 6 <= q && n >= q + 4 && v == (n - 2) * (q - 1)
    ensures 3 * q <= v
    ensures n >= q + 5 ==> (q + 1) * q <= v
    ensures n == q + 4 ==> (q + 2) * q == q + 2 + v
  {
    MulStep(q, q);
    MulMonotone(q - 1, 8, n - 2);
    if n >= q + 5 {
      MulMonotone(q - 1, q + 3, n - 2);
      MulSum(q, 3, q - 1);
      MulSum(q, q, 1);
    } else {
      MulSum(q + 2, q, 1);
      MulStep(q + 1, q);
    }
  }

  lemma BlockFits(f: Format)
    requires f.Supported() && f.Overflows()
    ensures f.M() == f.Q() - 1 && f.maxPageErases > 0 && f.numPages >= f.Q() + 4
    ensures BlockSize(f) <= f.C() && f.C() + f.numPages == f.V()
    ensures f.numPages >= f.Q() + 5 ==> (f.Q() + 1) * f.Q() <= f.V()
    ensures f.numPages == f.Q() + 4 ==> f.Q() >= 7 && (f.Q() + 2) * f.Q() == f.Q() + 2 + f.V()
    ensures 6 <= f.Q() <= 60 && 3 * f.Q() <= f.V()
  {
    hide Format.Q, Format.M, Format.V, Format.C, EntryWords, Longest;
    CapacityIs(f);
    var n, q := f.numPages, f.Q();
    ShortPages(n, q, f.M(), f.C());
    MulSum(n - 2, 1, q - 1);
    ShortSizes(n, q, f.V());
    MulSum(q - 1, 1, q - 1);
    MulSum(q, 1, q - 1);
  }

  /** The longest entry. */
  lemma LongestFits(f: Format)
    requires f.Supported() && f.Overflows()
    ensures EntryWords(Longest(f)) == f.Q() <= f.C() && EntryWords([]) == 1
  {
    hide Format.Q, Format.M, Format.V, Format.C, EntryWords, Longest, Format.Overflows;
    CapacityIs(f);
    BlockFits(f);
    MulMonotone(f.Q(), 1, f.Q() - 1);
  }

  // ---------------------------------------------------------------------------------------------
  // The run

  /** An entry that reaches into the next page of a log without live entries, which is then deleted. */
  method Cross(j: Journal, page: nat, ghost v0: View) returns (ghost v: View)
    requires Going(j, v0) && j.store.f.Overflows() && Content(j.store.f, v0.log) == map[] && page == v0.first + 1
    requires (page - 1) * j.store.f.Q() < v0.tail < page * j.store.f.Q() < v0.tail + j.store.f.Q()
    requires v0.tail + j.store.f.Q() <= HeadAt(v0, 0) + j.store.f.V()
    modifies j, j.store.storage
    ensures Going(j, v) && Content(j.store.f, v.log) == map[]
    ensures v.first == v0.first && v.tail == v0.tail + j.store.f.Q() && HeadAt(v, 0) == HeadAt(v0, 0)
    ensures PageFrom(j.store.f, v, page, v.tail)
  {
    hide AtRest, Content, Extended, Going, Freed, KindOf, HeadAt, PageFrom, Format.V, Format.C, Used, Longest,
         EntryWords, Format.Q, Format.M, Weaker, Format.Overflows, Format.MaxValueLen, Framed, Idle, Roomy, Complete,
         Contiguous, MarksOk, Parses, Tight;
    var f := j.store.f;
    GoingFacts(j, v0);
    LongestFits(f);
    NoWords(f, v0);
    ghost var u, ws := v0, [];
    u, ws := Put(j, 0, Longest(f), v0);
    v := Take(j, 0, u);
    Crossed(f, v0, ws, u, v, page);
    RemovedAll(Content(f, v0.log), 0, Longest(f));
  }

  lemma Crossed(f: Format, v0: View, ws: seq<Word>, u: View, v: View, page: nat)
    requires f.Supported() && Formed(f, v0) && Framed(f, v0) && v0.marks != [] && page == v0.first + 1
    requires (page - 1) * f.Q() < v0.tail < page * f.Q() < v0.tail + |ws|
    requires Extended(f, v0, ws, u) && Weaker(f, u, v)
    ensures v.first == v0.first && v.tail == v0.tail + |ws| && HeadAt(v, 0) == HeadAt(v0, 0)
    ensures PageFrom(f, v, page, v.tail)
  {
    hide Framed, Extended, HeadAt, PageFrom, Format.Q, Weaker, Contiguous, MarksOk, Parses;
    ExtendedTail(f, v0, ws, u);
    PagesInUse(f, v0, page);
    ExtendedOpens(f, v0, ws, u, page);
    WeakerPos(f, u, v);
    WeakerPage(f, u, v, page, u.tail);
  }

  lemma RemovedAll(m: map<nat, seq<byte>>, key: nat, value: seq<byte>)
    ensures m == map[] ==> m[key := value] - {key} == map[]
  {
  }

  /** Only the last word of a page will be used: the page starts after the longest entry, which was deleted. */
  ghost predicate Ready(f: Format, v: View, p: nat)
    requires f.Supported()
  {
    && 1 <= p <= 2 && v.first == p - 1 && p + f.Q() + 2 <= f.numPages
    && v.tail == p * f.Q() + f.Q() - 1 && PageFrom(f, v, p, v.tail)
    && (p + f.Q()) * f.Q() <= HeadAt(v, 0) + f.V() && HeadAt(v, 0) + 2 <= v.tail
  }

  /** Gets a new store there. With few pages, one of them has to be compacted first, which `prepare` does. */
  method Begin(j: Journal) returns (ghost p: nat, ghost v: View)
    requires Going(j, EmptyView()) && j.store.f.Overflows()
    modifies j, j.store.storage
    ensures Going(j, v) && Content(j.store.f, v.log) == map[] && Ready(j.store.f, v, p)
  {
    hide AtRest, Content, Going, Freed, KindOf, PageFrom, Format.V, Format.C, Used, Format.Q, Format.M,
         Format.Overflows, HeadAt;
    var f := j.store.f;
    GoingFacts(j, EmptyView());
    BlockFits(f);
    EmptyStart(f);
    v := EmptyView();
    if f.numPages >= f.Q() + 5 {
      v := PadOut(j, f.Q() - 1, 0, v);
      v := Cross(j, 1, v);
      p := 1;
    } else {
      v := PadOut(j, 2, 0, v);
      v := Cross(j, 1, v);
      ghost var u := v;
      v := PadOut(j, f.Q() - 4, 0, v);
      v := Advance(j, v);
      v := Cross(j, 2, v);
      p := 2;
    }
  }

  lemma EmptyStart(f: Format)
    requires f.Supported()
    ensures HeadAt(EmptyView(), 0) == 0 && EmptyView().first == 0 && EmptyView().tail == 0
    ensures Content(f, EmptyView().log) == map[]
  {
    EmptyContent(f, EmptyView().log);
  }

  /** Compacts the first page of a log without live entries by preparing for the whole capacity. */
  method Advance(j: Journal, ghost v0: View) returns (ghost v: View)
    requires Going(j, v0) && j.store.f.Overflows() && Content(j.store.f, v0.log) == map[] && v0.first == 0
    requires j.store.f.Q() < v0.tail <= HeadAt(v0, 0) + j.store.f.V() < v0.tail + j.store.f.C()
    modifies j, j.store.storage
    ensures Going(j, v) && Content(j.store.f, v.log) == map[]
    ensures v.first == 1 && v.tail == v0.tail + 1
    ensures forall pos: nat :: PageFrom(j.store.f, v0, 1, pos) ==> HeadAt(v, 0) == pos
  {
    hide AtRest, Content, Going, Freed, KindOf, Format.V, Format.C, Used, Format.Q, Format.M, Format.Overflows, HeadAt,
         Next, Stepped, Forecast, Overdrawn;
    var f := j.store.f;
    GoingFacts(j, v0);
    MoreThanOne(f, v0);
    NoWords(f, v0);
    NoneWithin(f, v0, HeadAt(v0, 1), v0.tail);
    AdvanceForecast(f, v0);
    v := Do(j, Prepare(f.C()), v0);
    AdvanceStepped(f, v0, v);
    DeadNextTail(f, v0);
  }

  lemma AdvanceForecast(f: Format, v: View)
    requires f.Supported() && f.Overflows() && Formed(f, v) && Idle(f, v) && |v.marks| > 1 && v.first == 0
             && Used(f, v.log) == 0
    requires v.tail <= HeadAt(v, 0) + f.V() < v.tail + f.C()
    ensures Forecast(f, v, Prepare(f.C())) == Ok(()) && !Overdrawn(f, v, Prepare(f.C()))
    ensures FreedOnce(f, v, f.C()) == (Next(f, v), Ok(()))
  {
    hide Formed, Idle, HeadAt, Format.V, Format.C, Format.M, Used, Spare, Scannable, Distance, Next, Compactable;
    TightNow(f, v, 0);
    SpareIs(f, v);
    FirstErasable(f, v);
  }

  lemma AdvanceStepped(f: Format, v: View, v': View)
    requires f.Supported() && Stepped(f, v, Prepare(f.C()), v') && FreedOnce(f, v, f.C()) == (Next(f, v), Ok(()))
    ensures v' == Next(f, v)
  {
    hide FreedOnce, Next;
  }

  // ---------------------------------------------------------------------------------------------
  // The block of live entries

  /** The log while the block is written: all live entries are in it, and it has no gap yet. */
  ghost predicate Laid(f: Format, v: View, p: nat, i: nat)
    requires f.Supported()
  {
    && p > 0 && v.first == p - 1 && PageFrom(f, v, p, p * f.Q() + f.Q() - 1)
    && (p + f.Q()) * f.Q() <= HeadAt(v, 0) + f.V() && HeadAt(v, 0) + 2 <= p * f.Q() + f.Q() - 1
    && v.tail == (p + i) * f.Q() && Within(f, v, p * f.Q() + f.Q() - 1, v.tail)
    && (forall key :: key in Content(f, v.log) ==> 1 <= key <= i)
    && Keyed(Content(f, v.log)) && MapWords(Content(f, v.log)) == 1 + (i - 1) * f.Q()
  }

  method LayBlock(j: Journal, ghost p: nat, ghost v0: View) returns (ghost v: View)
    requires Going(j, v0) && j.store.f.Overflows() && Content(j.store.f, v0.log) == map[] && Ready(j.store.f, v0, p)
    modifies j, j.store.storage
    ensures Going(j, v) && Laid(j.store.f, v, p, j.store.f.Q())
  {
    hide AtRest, Content, Extended, Going, KindOf, HeadAt, PageFrom, Format.V, Format.C, Used, Longest, EntryWords,
         Format.Q, Format.M, Format.Overflows, Format.MaxValueLen, Framed, Idle, Roomy, Complete, Contiguous, MarksOk,
         Parses, MapWords, Laid, Ready;
    var f := j.store.f;
    GoingFacts(j, v0);
    BlockFits(f);
    LongestFits(f);
    FirstRoom(f, v0, p);
    ghost var ws;
    v, ws := Put(j, 1, [], v0);
    FirstLaid(f, v0, ws, v, p);
    for i := 2 to f.Q() + 1
      invariant Going(j, v) && Laid(f, v, p, i - 1)
    {
      ghost var u := v;
      GoingFacts(j, u);
      NextRoom(f, u, p, i);
      v, ws := Put(j, i, Longest(f), u);
      NextLaid(f, u, ws, v, p, i);
    }
  }

  lemma FirstRoom(f: Format, v: View, p: nat)
    requires f.Supported() && f.Overflows() && Formed(f, v) && Idle(f, v) && Ready(f, v, p)
             && Content(f, v.log) == map[]
    ensures v.tail + 1 <= HeadAt(v, 0) + f.V() && Used(f, v.log) + 1 <= f.C()
  {
    hide Format.Q, Format.V, Format.C, Format.M, HeadAt, Used, Content, Formed, Idle, EntryWords, Longest;
    BlockFits(f);
    NoWords(f, v);
    MulSum(p, f.Q(), f.Q());
    MulMonotone(f.Q(), 1, f.Q());
    MulMonotone(f.Q(), 1, f.Q() - 1);
  }

  lemma FirstLaid(f: Format, v0: View, ws: seq<Word>, v: View, p: nat)
    requires f.Supported() && Formed(f, v0) && Idle(f, v0) && Ready(f, v0, p) && Content(f, v0.log) == map[]
    requires Extended(f, v0, ws, v) && |ws| == 1 && Content(f, v.log) == Content(f, v0.log)[1 := []]
    ensures Laid(f, v, p, 1)
  {
    hide Format.Q, Format.V, HeadAt, Content, Idle, EntryWords, Extended, Within, PageFrom, Contiguous, MarksOk, Parses,
         WordsBelow, KindOf;
    ExtendedTail(f, v0, ws, v);
    ExtendedPage(f, v0, ws, v, p, v0.tail);
    NoneWithin(f, v0, v0.tail, v.tail);
    ExtendedWithin(f, v0, ws, v, v0.tail, v.tail);
    WordsInsert(Content(f, v0.log), MAX_KEY + 1, 1, []);
    WordsEmpty(Content(f, v0.log), MAX_KEY + 1);
    assert EntryWords([]) == 1 by { CapacityIs(f); }
    MulSum(p, 1, f.Q());
  }

  lemma NextRoom(f: Format, v: View, p: nat, i: nat)
    requires f.Supported() && f.Overflows() && Formed(f, v) && Idle(f, v) && 2 <= i <= f.Q() && Laid(f, v, p, i - 1)
    ensures v.tail + f.Q() <= HeadAt(v, 0) + f.V() && Used(f, v.log) + f.Q() <= f.C() && i <= MAX_KEY
  {
    hide Format.Q, Format.V, Format.C, Format.M, HeadAt, Used, Content, Formed, Idle, EntryWords, Longest, MapWords,
         Within, PageFrom;
    BlockFits(f);
    ContentWords(f, v);
    var q := f.Q();
    MulStep(p + (i - 1), q);
    MulMonotone(q, p + i, p + q);
    MulStep(i - 1 - 1, q);
    MulMonotone(q, i - 1, q - 1);
  }

  lemma NextLaid(f: Format, v: View, ws: seq<Word>, v': View, p: nat, i: nat)
    requires f.Supported() && f.Overflows() && Formed(f, v) && 2 <= i <= f.Q() && Laid(f, v, p, i - 1) && i <= MAX_KEY
    requires Extended(f, v, ws, v') && |ws| == f.Q() && Content(f, v'.log) == Content(f, v.log)[i := Longest(f)]
    ensures Laid(f, v', p, i)
  {
    hide Format.Q, Format.V, HeadAt, Content, EntryWords, Extended, Within, PageFrom, Contiguous, MarksOk, Parses,
         WordsBelow, KindOf, Longest, Format.Overflows;
    BlockFits(f);
    LongestFits(f);
    var q := f.Q();
    var lo: nat := p * q + q - 1;
    ExtendedTail(f, v, ws, v');
    ExtendedPage(f, v, ws, v', p, lo);
    MulStep(p + (i - 1), q);
    MulStep(i - 1 - 1, q);
    MulStep(p, q);
    MulMonotone(q, p + 1, p + i - 1);
    WithinMore(f, v, lo, v.tail, v'.tail);
    ExtendedWithin(f, v, ws, v', lo, v'.tail);
    WordsInsert(Content(f, v.log), MAX_KEY + 1, i, Longest(f));
  }


  // ---------------------------------------------------------------------------------------------
  // Filling up the log

  /**
   The log after the block was written: all live entries are in the block, which ends with a page. The
   words after it are padding.
   */
  ghost predicate Filled(f: Format, v: View, p: nat)
    requires f.Supported()
  {
    var lo: nat, hi: nat := p * f.Q() + f.Q() - 1, (p + f.Q()) * f.Q();
    && p > 0 && p - 1 <= v.first <= p && PageFrom(f, v, p, lo) && Within(f, v, lo, hi)
    && (v.first == p - 1 ==> hi <= HeadAt(v, 0) + f.V() && HeadAt(v, 0) + 2 <= lo)
    && hi <= v.tail <= HeadAt(v, 0) + f.V() && (v.tail > hi ==> PageFrom(f, v, p + f.Q(), hi))
  }

  /** The map that the block holds. */
  ghost predicate Block(f: Format, m: map<nat, seq<byte>>)
    requires f.Supported()
  {
    MapWords(m) == BlockSize(f) && forall key :: key in m ==> key <= f.Q()
  }

  lemma LaidFilled(f: Format, v: View, p: nat)
    requires f.Supported() && Laid(f, v, p, f.Q())
    ensures Filled(f, v, p) && v.first == p - 1 && Block(f, Content(f, v.log))
  {
    hide Format.Q, Format.V, HeadAt, Content, PageFrom, Within, MapWords;
    MulStep(p, f.Q());
    MulStep(f.Q() - 1, f.Q());
  }

  /** Appends padding until there is no room left without compaction. */
  method FillTail(j: Journal, ghost p: nat, ghost v0: View) returns (ghost v: View)
    requires Going(j, v0) && j.store.f.Overflows() && Filled(j.store.f, v0, p)
             && Block(j.store.f, Content(j.store.f, v0.log))
    modifies j, j.store.storage
    ensures Going(j, v) && Filled(j.store.f, v, p) && Block(j.store.f, Content(j.store.f, v.log))
    ensures v.first == v0.first && v.tail == HeadAt(v, 0) + j.store.f.V()
  {
    hide Content, Going, HeadAt, Format.V, Format.Q, Format.Overflows, Filled, MapWords, PaddedOut, Framed, Roomy,
         Complete, Contiguous, MarksOk, Parses;
    var f := j.store.f;
    GoingFacts(j, v0);
    BlockFits(f);
    FilledTight(f, v0, p);
    v := PadUp(j, f.Q() + 1, v0);
    PaddedFilled(f, v0, v, p, HeadAt(v0, 0) + f.V() - v0.tail);
  }

  lemma FilledTight(f: Format, v: View, p: nat)
    requires f.Supported() && Filled(f, v, p)
    ensures v.tail <= HeadAt(v, 0) + f.V()
  {
    hide HeadAt, Format.V, Format.Q, PageFrom, Within;
  }

  method PadBlock(j: Journal, ghost v: View) returns (ghost v': View, ghost w: Word)
    requires Going(j, v) && j.store.f.Overflows() && Verdict(j.store.f, v, 1) == Ok(())
    requires Block(j.store.f, Content(j.store.f, v.log))
    modifies j, j.store.storage
    ensures Going(j, v') && Extended(j.store.f, Settle(j.store.f, v, 1), [w], v') && !KindOf(j.store.f, [w]).User?
    ensures Content(j.store.f, v'.log) == Content(j.store.f, v.log)
  {
    hide Going, Freed, Content, Extended, KindOf, Format.Q, Format.Overflows, MapWords;
    GoingFacts(j, v);
    BlockFits(j.store.f);
    v', w := Pad(j, j.store.f.Q() + 1, v);
  }

  /** Padding after the block. */
  lemma PaddedFilled(f: Format, v: View, v': View, p: nat, n: nat)
    requires f.Supported() && f.Overflows() && Formed(f, v) && Filled(f, v, p) && PaddedOut(f, v, v', n)
    requires v'.tail <= HeadAt(v', 0) + f.V()
    ensures Filled(f, v', p) && v'.first == v.first
  {
    hide Format.Q, Format.V, HeadAt, PosAt, Within, PageFrom, Contiguous, MarksOk, Parses, Format.Overflows;
    BlockFits(f);
    var q := f.Q();
    var hi: nat := (p + q) * q;
    MulStep(p + q, q);
    if v.tail == hi { PagesInUse(f, v, p + q); }
  }

  /** Compacting the page before the block, which only has dead entries. */
  lemma TurnFilled(f: Format, v: View, p: nat)
    requires f.Supported() && f.Overflows() && Formed(f, v) && Framed(f, v) && v.marks != [] && Filled(f, v, p)
             && Complete(f, v) && Roomy(f, v)
    requires v.first == p - 1 && v.tail == HeadAt(v, 0) + f.V() && p + f.Q() + 2 <= f.numPages
    ensures Freed(f, v, 1) == (Next(f, v), Ok(()))
    ensures Filled(f, Next(f, v), p) && Next(f, v).first == p && Next(f, v).tail < HeadAt(Next(f, v), 0) + f.V()
    ensures Formed(f, Next(f, v)) && Framed(f, Next(f, v)) && Next(f, v).marks != []
  {
    hide Format.Q, Format.V, HeadAt, Extended, Within, PageFrom, Framed, Contiguous, MarksOk, Parses, KindOf,
         Format.Overflows, Next, Complete, Roomy, Distance, Compactable;
    BlockFits(f);
    var q := f.Q();
    var lo: nat, hi: nat := p * q + q - 1, (p + q) * q;
    BlockAhead(f, v, p, lo, hi);
    DeadNextTail(f, v);
    DeadNextPage(f, v, p, lo);
    DeadNextWithin(f, v, lo, hi);
    NextFormed(f, v);
    FormedFramed(f, Next(f, v));
    if v.tail > hi {
      DeadNextPage(f, v, p + q, hi);
    } else {
      MulStep(p + q, q);
      PagesInUse(f, v, p + q);
      DeadNextOpens(f, v, p + q);
    }
    TightNow(f, v, 0);
    FirstErasable(f, v);
    FreedStep(f, v, 1);
    FreedStep(f, Next(f, v), 1);
  }

  lemma BlockAhead(f: Format, v: View, p: nat, lo: nat, hi: nat)
    requires f.Supported() && p > 0 && v.first == p - 1 && PageFrom(f, v, p, lo) && Within(f, v, lo, hi)
             && hi <= v.tail
    ensures |v.marks| > 1 && HeadAt(v, 1) == lo && Within(f, v, HeadAt(v, 1), v.tail)
  {
    hide HeadAt, Within;
    WithinMore(f, v, lo, hi, v.tail);
  }

  lemma FormedFramed(f: Format, v: View)
    requires Formed(f, v)
    ensures Framed(f, v) && v.marks != []
  {
    hide Framed;
  }

  /** The log whose compaction is refused. */
  lemma FilledRefused(f: Format, v: View, p: nat)
    requires f.Supported() && f.Overflows() && Formed(f, v) && Idle(f, v) && Roomy(f, v) && Filled(f, v, p)
             && Block(f, Content(f, v.log))
    requires v.first == p && v.tail == HeadAt(v, 0) + f.V() && p + f.Q() + 2 <= f.numPages
    ensures Verdict(f, v, 1) == Err(InvalidStorage)
  {
    hide Format.Q, Format.V, Format.M, Format.C, HeadAt, Within, PageFrom, Contiguous, MarksOk, Parses, KindOf, Roomy,
         Freed, Content, MapWords, FullPages, Idle, Used, CycleIndex;
    BlockFits(f);
    IdleCalm(f, v);
    ContentWords(f, v);
    var q := f.Q();
    var lo: nat, hi: nat := p * q + q - 1, (p + q) * q;
    BlockEnds(f, v, p, lo, hi);
    HeadIs(v, q);
    MarkUpTo(f, v, q, q);
    BlockFull(f, v, q, v.marks[q]);
    forall i: nat | i <= v.first + q ensures CycleIndex(f, i) < f.maxPageErases {
      FirstCycle(f, i);
    }
    FullVerdict(f, v, q, 1);
  }

  lemma FirstCycle(f: Format, i: nat)
    requires f.Supported() && i < f.numPages
    ensures CycleIndex(f, i) == 0
  {
    DivModUnique(i, f.numPages, 0, i);
  }

  lemma BlockEnds(f: Format, v: View, p: nat, lo: nat, hi: nat)
    requires f.Supported() && f.Overflows() && Formed(f, v) && Filled(f, v, p) && v.first == p
    requires lo == p * f.Q() + f.Q() - 1 && hi == (p + f.Q()) * f.Q() && v.tail == HeadAt(v, 0) + f.V()
    ensures HeadAt(v, 0) == lo && hi == lo + BlockSize(f)
    ensures |v.marks| > f.Q() + 1 && HeadAt(v, f.Q()) == hi
  {
    hide Format.Q, Format.V, Format.M, Format.C, HeadAt, Within, Contiguous, MarksOk, Parses, Format.Overflows;
    BlockFits(f);
    var q := f.Q();
    MulSum(p, q, q);
    MulSum(q - 1, 1, q);
    TailBound(f, v);
    EnoughRoom(f);
    var n := |v.marks|;
    MulSum(p, n, q);
    if n <= q + 1 { MulMonotone(q, n, q + 1); MulSum(q, 1, q); }
  }

  lemma EnoughRoom(f: Format)
    requires f.Supported() && f.Overflows()
    ensures f.V() >= f.Q() * f.Q() + 2
  {
    hide Format.Q, Format.V, Format.M, Format.C, EntryWords, Longest;
    BlockFits(f);
    CapacityIs(f);
    var n, q := f.numPages, f.Q();
    MulSum(n - 2, 1, q - 1);
    MulMonotone(q - 1, q + 2, n - 2);
    MulSum(q, 2, q - 1);
    MulSum(q, q, 1);
  }

  // ---------------------------------------------------------------------------------------------
  // Losing a store

  /**
   Operations on a new store that all succeed, after which the model accepts an operation that the store
   refuses: the compactions that it needs cannot be recorded.
   */
  method Exhaust(j: Journal) returns (ghost v: View)
    requires Going(j, EmptyView()) && j.store.f.Overflows()
    modifies j, j.store.storage
    ensures Going(j, v) && Forecast(j.store.f, v, ClearFrom(0)) == Err(InvalidStorage)
  {
    hide AtRest, Content, Going, KindOf, HeadAt, Format.V, Format.Q, Format.Overflows, Framed, Idle, Roomy, Complete,
         Contiguous, MarksOk, Parses, Filled, Freed, Block, Ready, Laid, Forecast, Extended, Next;
    var f := j.store.f;
    ghost var p;
    p, v := Begin(j);
    GoingFacts(j, v);
    FewPages(f, v, p);
    v := LayBlock(j, p, v);
    LaidFilled(f, v, p);
    v := FillTail(j, p, v);
    GoingFacts(j, v);
    TurnFilled(f, v, p);
    ghost var u, w := Next(f, v), ERASED_WORD;
    v, w := PadBlock(j, v);
    PaddedOnce(f, u, w, v);
    PaddedTail(f, u, v, 1);
    PaddedFilled(f, u, v, p, 1);
    v := FillTail(j, p, v);
    GoingFacts(j, v);
    FilledRefused(f, v, p);
    RefusedForecast(f, v);
  }

  lemma FewPages(f: Format, v: View, p: nat)
    requires f.Supported() && Ready(f, v, p)
    ensures p + f.Q() + 2 <= f.numPages
  {
    hide Format.Q, Format.V, HeadAt, PageFrom;
  }

  lemma RefusedForecast(f: Format, v: View)
    requires f.Supported() && Verdict(f, v, 1) == Err(InvalidStorage)
    ensures Forecast(f, v, ClearFrom(0)) == Err(InvalidStorage)
  {
    hide Freed, Spare;
  }

  /** Such a history, and where it ends: the store is at rest, and an operation that the model accepts is refused. */
  ghost predicate Loses(f: Format, pages: Pages, ops: seq<StoreOperation>, views: seq<View>, op: StoreOperation) {
    && f.Supported() && History(f, ops, views) && AtRest(f, pages, views[|ops|]) && !Overdrawn(f, views[|ops|], op)
    && Forecast(f, views[|ops|], op) == Err(InvalidStorage)
  }

  /** There is none in a format whose capacity is at most the words of `M + 1` pages. */
  lemma NotLost(f: Format, pages: Pages, ops: seq<StoreOperation>, views: seq<View>, op: StoreOperation)
    requires Loses(f, pages, ops, views, op)
    ensures f.Overflows()
  {
    hide AtRest, Freed, FreedOnce, Format.Overflows, Stepped, IsProper, Spare, Overdrawn;
    var v := views[|ops|];
    if |ops| > 0 { assert Succeeds(f, views[|ops| - 1], ops[|ops| - 1], v); }
    RestFacts(f, pages, v);
    if !f.Overflows() {
      VerdictFits(f, v, Room(op));
      OnceFits(f, v, Room(op));
    }
  }

  /**
   In every other format there is such a history, on every erased flash, without any interruption. The store
   is lost then: so is every recovery refused, which leaves the flash as it is.
   */
  method LoseStore(storage: BufferStorage, recoveries: nat)
    returns (r: Status, recovered: seq<Status>, ghost ops: seq<StoreOperation>, ghost views: seq<View>,
             ghost pages: Pages)
    requires storage.Valid() && storage.interruption.Disarmed? && InPhase(storage.f, storage.pages, Fresh)
    requires storage.f.Overflows()
    modifies storage
    ensures Loses(storage.f, pages, ops, views, ClearFrom(0)) && r == Err(InvalidStorage)
    ensures |recovered| == recoveries && forall i :: 0 <= i < recoveries ==> recovered[i] == Err(InvalidStorage)
    ensures storage.interruption.Disarmed?
  {
    hide AtRest, Content, Going, HeadAt, Format.Overflows, Roomy, Forecast, InPhase, Promise, Stuck, Clean, Cleanable,
         Rinsed, Effect, EmptyView, History, Overdrawn;
    var f := storage.f;
    NotStuck(f, Fresh);
    PhaseShape(f, storage.pages, Fresh);
    EmptyLog();
    var resumed;
    ghost var p;
    resumed, p := Open(storage, Fresh);
    OnlyErrors(resumed);
    var j := new Journal(resumed.value);
    StartsGoing(j);
    ghost var v := Exhaust(j);
    GoingRest(j, v);
    ops, views, pages := j.ops, j.views, storage.pages;
    ClearModest(f, v);
    r, p := j.store.Apply(ClearFrom(0), v);
    EndedPhase(f, storage.pages, Content(f, v.log), Effect(Content(f, v.log), ClearFrom(0)), r, p);
    recovered := [];
    while |recovered| < recoveries
      invariant |recovered| <= recoveries && forall i :: 0 <= i < |recovered| ==> recovered[i] == Err(InvalidStorage)
      invariant j.store.Ready() && j.store.f == f && j.store.storage == storage && InPhase(f, storage.pages, p)
      invariant p.Compressing? && Stuck(f, p) && storage.interruption.Disarmed?
    {
      var again;
      again, p := j.store.Recover(p);
      recovered := recovered + [again];
    }
  }

  lemma ClearModest(f: Format, v: View)
    requires f.Supported()
    ensures !Overdrawn(f, v, ClearFrom(0))
  {
    hide Spare, Used, Format.C;
  }
}
