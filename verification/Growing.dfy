/**
 How a log grows: entries are appended at its tail, and pages without live entries are compacted. What
 matters is where its pages start and where its live entries are.
 */
module Growing {
  import opened Arithmetic
  import opened Words
  import opened Format
  import opened Entries
  import opened Log
  import opened States
  import opened Appending
  import opened Contents
  import opened Stages
  import opened Recovering
  import opened Compaction
  import opened Migration
  import opened Phases
  import opened Capacity
  import opened Overflow

  /** The init info of a page in use points to a position. */
  ghost predicate PageFrom(f: Format, v: View, page: nat, pos: nat) {
    v.first <= page < v.first + |v.marks| && HeadAt(v, page - v.first) == pos
  }

  /** All live entries are between two positions. */
  ghost predicate Within(f: Format, v: View, lo: nat, hi: nat)
    requires f.Supported()
  {
    forall k: nat :: k < |v.log| && Kinds(f, v, k).User? ==> lo <= v.log[k].pos && End(v.log[k]) <= hi
  }

  /** Which page the tail is in, or at the end of, tells how many pages are in use. */
  lemma PagesInUse(f: Format, v: View, page: nat)
    requires Formed(f, v) && page > v.first && (page - 1) * f.Q() < v.tail <= page * f.Q()
    ensures v.first + |v.marks| == page
  {
    hide KindOf, Contiguous, Parses, Format.Q;
    var n := v.first + |v.marks|;
    if n < page { MulMonotone(f.Q(), n, page - 1); }
    if n > page { MulMonotone(f.Q(), page, n - 1); }
  }

  lemma TailBound(f: Format, v: View)
    requires Formed(f, v)
    ensures v.tail <= (v.first + |v.marks|) * f.Q()
  {
    hide KindOf, Contiguous, Parses, Format.Q;
  }

  // ---------------------------------------------------------------------------------------------
  // Appending

  lemma ExtendedTail(f: Format, v: View, ws: seq<Word>, v': View)
    requires Framed(f, v) && ws != [] && Extended(f, v, ws, v')
    ensures v'.first == v.first && v'.tail == v.tail + |ws| && |v'.marks| >= |v.marks|
    ensures forall i: nat :: i < |v.marks| ==> HeadAt(v', i) == HeadAt(v, i)
  {
    hide KindOf, Contiguous, Parses, MarksOk, Start, Append;
    var u := v.(lean := v'.lean);
    assert Framed(f, u) by { FramedLean(f, v, v'.lean); }
    AppendMarks(f, u, ws);
    AppendHeads(f, u, ws);
    WeakerPos(f, Append(f, u, ws), v');
    forall i: nat | i < |v.marks| ensures HeadAt(v', i) == HeadAt(v, i) {
      SameHead(v, u, i);
    }
  }

  /** Entries stay where they are. */
  lemma ExtendedLog(f: Format, v: View, ws: seq<Word>, v': View)
    requires Framed(f, v) && ws != [] && Extended(f, v, ws, v')
    ensures |v'.log| == |v.log| + 1 && forall k: nat :: k <= |v.log| ==> PosAt(v', k) == PosAt(v, k)
  {
    hide KindOf, Parses, MarksOk, Start;
    var u := v.(lean := v'.lean);
    AppendPos(f, u, ws);
    WeakerPos(f, Append(f, u, ws), v');
  }

  lemma SameHead(v: View, u: View, i: nat)
    requires u == v.(lean := u.lean)
    ensures HeadAt(u, i) == HeadAt(v, i)
  {
  }

  lemma FramedLean(f: Format, v: View, lean: bool)
    requires Framed(f, v)
    ensures Framed(f, v.(lean := lean))
  {
    hide KindOf, Format.Q, Format.M, Start, HeadAt, Kinds;
    var u := v.(lean := lean);
    LeanSame(f, v, lean);
    forall i: nat | i < |v.marks| ensures MarkOk(f, u, i) && NoUserBeforeMark(f, u, i) {
      assert MarkOk(f, v, i) && NoUserBeforeMark(f, v, i);
    }
  }

  lemma LeanSame(f: Format, v: View, lean: bool)
    requires f.Supported()
    ensures var u := v.(lean := lean);
            && (forall i: nat :: Start(f, u, i) == Start(f, v, i))
            && (forall i: nat :: HeadAt(u, i) == HeadAt(v, i))
            && (forall k: nat :: k < |v.log| ==> Kinds(f, u, k) == Kinds(f, v, k))
  {
    hide KindOf, Format.Q;
  }

  /** Pages stay where they are. */
  lemma ExtendedPage(f: Format, v: View, ws: seq<Word>, v': View, page: nat, pos: nat)
    requires Framed(f, v) && ws != [] && Extended(f, v, ws, v') && PageFrom(f, v, page, pos)
    ensures PageFrom(f, v', page, pos)
  {
    hide KindOf, Framed, Extended, HeadAt;
    ExtendedTail(f, v, ws, v');
  }

  /** The entry may be the first one to use the next page, or the last one to use the page before. */
  lemma ExtendedOpens(f: Format, v: View, ws: seq<Word>, v': View, page: nat)
    requires Framed(f, v) && ws != [] && Extended(f, v, ws, v')
    requires page == v.first + |v.marks| && page * f.Q() < v.tail + |ws|
    ensures PageFrom(f, v', page, if v.tail == page * f.Q() then v.tail else v.tail + |ws|)
  {
    hide KindOf, Parses, Format.Q;
    var u := v.(lean := v'.lean);
    WeakerPos(f, Append(f, u, ws), v');
  }

  /** Live entries stay where they are, and the appended entry may be one. */
  lemma ExtendedWithin(f: Format, v: View, ws: seq<Word>, v': View, lo: nat, hi: nat)
    requires f.Supported() && Extended(f, v, ws, v') && Within(f, v, lo, hi)
    requires KindOf(f, ws).User? ==> lo <= v.tail && v.tail + |ws| <= hi
    ensures Within(f, v', lo, hi)
  {
    hide KindOf, Start;
    var u := v.(lean := v'.lean);
    var w := Append(f, u, ws);
    AppendKinds(f, u, ws);
    forall k: nat | k < |v'.log| && Kinds(f, v', k).User? ensures lo <= v'.log[k].pos && End(v'.log[k]) <= hi {
      assert v'.log[k] == w.log[k];
      if k < |v.log| { assert w.log[k] == v.log[k] && Kinds(f, v, k).User?; }
    }
  }

  lemma WithinMore(f: Format, v: View, lo: nat, hi: nat, hi': nat)
    requires f.Supported() && Within(f, v, lo, hi) && hi <= hi'
    ensures Within(f, v, lo, hi')
  {
    hide KindOf;
  }

  lemma WeakerPage(f: Format, v: View, v': View, page: nat, pos: nat)
    requires f.Supported() && Weaker(f, v, v') && PageFrom(f, v, page, pos)
    ensures PageFrom(f, v', page, pos)
  {
    hide KindOf, HeadAt;
    WeakerPos(f, v, v');
  }

  /** An empty map has no live entries. */
  lemma NoneWithin(f: Format, v: View, lo: nat, hi: nat)
    requires f.Supported() && Idle(f, v) && Content(f, v.log) == map[]
    ensures Within(f, v, lo, hi)
  {
    hide Content, Idle;
    forall k: nat | k < |v.log| ensures !Kinds(f, v, k).User? {
      if Kinds(f, v, k).User? { ContentAt(f, v, k, Kinds(f, v, k).key); }
    }
  }

  // ---------------------------------------------------------------------------------------------
  // Compacting a page without live entries

  lemma {:induction false} MovedNone(f: Format, log: seq<Item>)
    requires f.Supported() && forall k: nat :: k < |log| ==> !KindOf(f, log[k].ws).User?
    ensures Moved(f, log) == []
  {
    hide KindOf;
    if log != [] { MovedNone(f, log[..|log| - 1]); }
  }

  /** Compacting a page without live entries only appends the erase entry. */
  lemma DeadNext(f: Format, v: View)
    requires Formed(f, v) && |v.marks| > 1 && Within(f, v, HeadAt(v, 1), v.tail)
    ensures Framed(f, Dropped(f, v)) && Extended(f, Dropped(f, v), [EraseWord(f, v)], Next(f, v))
  {
    hide KindOf, Parses, MarksOk, Start, EraseWord, Dropped, Moved, Append;
    GoneBound(f, v);
    DroppedFramed(f, v);
    var log := v.log[..Gone(v)];
    forall k: nat | k < |log| ensures !KindOf(f, log[k].ws).User? {
      assert HeadAt(v, 1) == PosAt(v, Gone(v));
      PosBefore(v, k, Gone(v));
      assert log[k] == v.log[k] && KindOf(f, log[k].ws) == Kinds(f, v, k);
    }
    MovedNone(f, log);
    var d, e := Dropped(f, v), EraseWord(f, v);
    assert Copies(f, v) == [[e]];
    OneTower(f, d, [e]);
    NextIs(f, v);
    EraseKind(f, v);
    PaddedKind(f, e);
    assert FirstCleared([e], 0) == [ClearBit(e, 0)];
    AppendMarks(f, d, [e]);
    SetItemWeaker(f, Append(f, d, [e]), |d.log|, [ClearBit(e, 0)]);
    assert d.(lean := Next(f, v).lean) == d by { NextLean(f, v); DroppedLean(f, v); }
  }

  lemma OneTower(f: Format, d: View, ws: seq<Word>)
    requires f.Supported()
    ensures Tower(f, d, [ws], 1) == Append(f, d, ws)
  {
    hide Append;
    assert Tower(f, d, [ws], 0) == d;
  }

  /** The pages after the first one stay where they are, and so do the live entries. */
  lemma DeadNextTail(f: Format, v: View)
    requires Formed(f, v) && |v.marks| > 1 && Within(f, v, HeadAt(v, 1), v.tail)
    ensures Next(f, v).first == v.first + 1 && Next(f, v).tail == v.tail + 1
    ensures HeadAt(Next(f, v), 0) == HeadAt(v, 1)
  {
    hide KindOf, Framed, Start, EraseWord, Dropped, Next, Extended, Within, HeadAt;
    assert f.Supported() by { FormedSupported(f, v); }
    DeadNext(f, v);
    DroppedPos(f, v);
    ExtendedTail(f, Dropped(f, v), [EraseWord(f, v)], Next(f, v));
  }

  lemma FormedSupported(f: Format, v: View)
    requires Formed(f, v)
    ensures f.Supported()
  {
  }

  lemma DeadNextPage(f: Format, v: View, page: nat, pos: nat)
    requires Formed(f, v) && |v.marks| > 1 && Within(f, v, HeadAt(v, 1), v.tail)
    requires page > v.first && PageFrom(f, v, page, pos)
    ensures PageFrom(f, Next(f, v), page, pos)
  {
    hide KindOf, Framed, Start, EraseWord, Dropped, Next, Extended, Within, HeadAt;
    FormedSupported(f, v);
    DeadNext(f, v);
    DroppedPos(f, v);
    assert PageFrom(f, Dropped(f, v), page, pos);
    ExtendedPage(f, Dropped(f, v), [EraseWord(f, v)], Next(f, v), page, pos);
  }

  lemma DeadNextWithin(f: Format, v: View, lo: nat, hi: nat)
    requires Formed(f, v) && |v.marks| > 1 && Within(f, v, HeadAt(v, 1), v.tail) && Within(f, v, lo, hi)
    ensures Within(f, Next(f, v), lo, hi)
  {
    hide KindOf, Contiguous, MarksOk, Parses, Start, EraseWord, Dropped, Next, Extended, HeadAt;
    DeadNext(f, v);
    DroppedPos(f, v);
    EraseKind(f, v);
    var d := Dropped(f, v);
    forall k: nat | k < |d.log| && Kinds(f, d, k).User? ensures lo <= d.log[k].pos && End(d.log[k]) <= hi {
      assert d.log[k] == v.log[k + Gone(v)] && Kinds(f, v, k + Gone(v)).User?;
    }
    ExtendedWithin(f, d, [EraseWord(f, v)], Next(f, v), lo, hi);
  }

  /** When the tail is at the start of a page, that page starts there once it is used. */
  lemma DeadNextOpens(f: Format, v: View, page: nat)
    requires Formed(f, v) && |v.marks| > 1 && Within(f, v, HeadAt(v, 1), v.tail)
    requires page == v.first + |v.marks| && v.tail == page * f.Q()
    ensures PageFrom(f, Next(f, v), page, v.tail)
  {
    hide KindOf, Framed, Start, EraseWord, Dropped, Next, Extended, Within, HeadAt, Format.Q;
    FormedSupported(f, v);
    DeadNext(f, v);
    DroppedPos(f, v);
    ExtendedOpens(f, Dropped(f, v), [EraseWord(f, v)], Next(f, v), page);
  }

  // ---------------------------------------------------------------------------------------------
  // A block of live entries

  /** Live entries take at most the words between two positions, and less if some entry there is dead. */
  lemma {:induction false} LiveAtMost(f: Format, v: View, a: nat, n: nat, k: nat)
    requires Formed(f, v) && a <= n <= |v.log|
    ensures Used(f, v.log[..n]) + PosAt(v, a)
            <= PosAt(v, n) + Used(f, v.log[..a]) - if a <= k < n && !Kinds(f, v, k).User? then |v.log[k].ws| else 0
  {
    hide KindOf, MarksOk, Parses, Used;
    if a < n {
      LiveAtMost(f, v, a, n - 1, k);
      UsedStep(f, v, n - 1);
      PosBefore(v, n - 1, n);
      PosBefore(v, a, n - 1);
    }
  }

  /** When live entries fill all words between two positions, no entry there is dead. */
  lemma NoneDead(f: Format, v: View, a: nat, b: nat)
    requires Formed(f, v) && a <= b <= |v.log| && Within(f, v, PosAt(v, a), PosAt(v, b))
    requires Used(f, v.log) == PosAt(v, b) - PosAt(v, a)
    ensures forall k: nat :: a <= k < b ==> Kinds(f, v, k).User?
  {
    hide KindOf, MarksOk, Parses, Used;
    LiveBetween(f, v, a, b);
    forall k: nat | a <= k < b ensures Kinds(f, v, k).User? {
      LiveAtMost(f, v, a, b, k);
      assert v.log[k].ws != [];
    }
  }

  lemma LiveBetween(f: Format, v: View, a: nat, b: nat)
    requires Formed(f, v) && a <= b <= |v.log| && Within(f, v, PosAt(v, a), PosAt(v, b))
    ensures Used(f, v.log[..a]) == 0 && Used(f, v.log[..b]) == Used(f, v.log)
  {
    hide KindOf, MarksOk, Parses, Used;
    forall k: nat | k < |v.log| && Kinds(f, v, k).User? ensures a <= k < b {
      assert v.log[k].ws != [];
      PosBefore(v, k, a);
      PosBefore(v, b, k);
    }
    forall k: nat | k < a ensures !KindOf(f, v.log[..a][k].ws).User? {
      assert v.log[..a][k] == v.log[k] && Kinds(f, v, k) == KindOf(f, v.log[k].ws);
    }
    UsedNone(f, v.log[..a]);
    forall k: nat | k < |v.log| - b ensures !KindOf(f, v.log[b..][k].ws).User? {
      assert v.log[b..][k] == v.log[b + k] && Kinds(f, v, b + k) == KindOf(f, v.log[b + k].ws);
    }
    UsedNone(f, v.log[b..]);
    UsedPrefix(f, v.log, b);
  }

  /** A log that starts with a block of live entries has full pages as far as the block goes. */
  lemma BlockFull(f: Format, v: View, j: nat, b: nat)
    requires Formed(f, v) && j < |v.marks| && b <= |v.log| && Within(f, v, HeadAt(v, 0), PosAt(v, b))
    requires HeadAt(v, 0) <= HeadAt(v, j) <= PosAt(v, b) && Used(f, v.log) == PosAt(v, b) - HeadAt(v, 0)
    ensures FullPages(f, v, j) && v.marks[j] <= b && forall k: nat :: k < b ==> Kinds(f, v, k).User?
  {
    hide KindOf, Parses, Used, Start;
    HeadIsFirst(f, v);
    HeadIs(v, j);
    MarkUpTo(f, v, j, j);
    PosBefore(v, v.marks[j], b);
    NoneDead(f, v, 0, b);
    forall i: nat | i <= j ensures HeadAt(v, 0) + UsedBefore(f, v, i) == HeadAt(v, i) {
      MarkUpTo(f, v, i, j);
      HeadIs(v, i);
      AllLive(f, v, v.marks[i]);
    }
  }

  lemma MarkUpTo(f: Format, v: View, i: nat, j: nat)
    requires Formed(f, v) && i <= j < |v.marks|
    ensures v.marks[i] <= v.marks[j] <= |v.log|
  {
    hide KindOf, Parses, Start, HeadAt;
    assert MarkOk(f, v, i) && MarkOk(f, v, j);
    if i < j {
      MarkOrder(f, v, i, j);
      HeadIs(v, i);
      HeadIs(v, j);
      PosBefore(v, v.marks[i], v.marks[j]);
    }
  }

  lemma {:induction false} AllLive(f: Format, v: View, n: nat)
    requires Formed(f, v) && n <= |v.log| && forall k: nat :: k < n ==> Kinds(f, v, k).User?
    ensures PosAt(v, 0) + Used(f, v.log[..n]) == PosAt(v, n)
  {
    hide KindOf, MarksOk, Parses, Used;
    if n > 0 {
      AllLive(f, v, n - 1);
      UsedStep(f, v, n - 1);
      PosBefore(v, n - 1, n);
    } else {
      UsedStart(f, v);
    }
  }

  // ---------------------------------------------------------------------------------------------
  // Where compaction moves entries

  /** The entries after the first page stay where they are. */
  lemma NextItems(f: Format, v: View)
    requires Formed(f, v) && |v.marks| > 1
    ensures Gone(v) <= |v.log| && |Next(f, v).log| > |v.log| - Gone(v)
    ensures forall k: nat :: k < |v.log| - Gone(v) ==> Next(f, v).log[k] == v.log[k + Gone(v)]
  {
    hide KindOf, Contiguous, MarksOk, Parses, Start, EraseWord, Copies, Dropped, Tower;
    GoneBound(f, v);
    DroppedPos(f, v);
    NextIs(f, v);
    var d, es := Dropped(f, v), Copies(f, v);
    TowerGrows(f, d, es, 0, |es|);
    TowerNone(f, d, es);
    var x := Compacted(f, v);
    assert x.log[..|d.log|] == d.log;
    forall k: nat | k < |d.log| ensures Next(f, v).log[k] == v.log[k + Gone(v)] {
      assert x.log[k] == x.log[..|d.log|][k];
    }
  }

  lemma TowerNone(f: Format, d: View, es: seq<seq<Word>>)
    requires f.Supported()
    ensures Tower(f, d, es, 0) == d
  {
    hide Append;
  }

  /** The last live entry of the first page is copied just before the erase entry. */
  lemma NextLast(f: Format, v: View)
    requires Formed(f, v) && |v.marks| > 1 && 0 < Gone(v) <= |v.log| && Kinds(f, v, Gone(v) - 1).User?
    ensures var n := |Next(f, v).log|;
            && n >= 2 && Next(f, v).log[n - 2].ws == v.log[Gone(v) - 1].ws
            && End(Next(f, v).log[n - 2]) + 1 == Next(f, v).tail
  {
    hide KindOf, Contiguous, MarksOk, Parses, Start, EraseWord, Dropped, Append, Copies, Copied;
    var n := |Copies(f, v)| - 1;
    CopiesLast(f, v);
    NextLog(f, v);
    CopiedStep(f, v, n - 1);
    var t := Copied(f, v, n - 1);
    AppendMarks(f, t, Copies(f, v)[n - 1]);
    NextTail(f, v);
  }

  lemma CopiesLast(f: Format, v: View)
    requires f.Supported() && 0 < Gone(v) <= |v.log| && Kinds(f, v, Gone(v) - 1).User?
    ensures |Copies(f, v)| >= 2 && Copies(f, v)[|Copies(f, v)| - 2] == v.log[Gone(v) - 1].ws
  {
    hide KindOf, EraseWord;
    var n := Gone(v);
    assert v.log[..n][..n - 1] == v.log[..n - 1];
  }

  lemma NextTail(f: Format, v: View)
    requires Formed(f, v)
    ensures Next(f, v).tail == Copied(f, v, |Copies(f, v)| - 1).tail + 1
  {
    hide KindOf, Contiguous, MarksOk, Parses, Start, EraseWord, Dropped, Append, Copies, Tower;
    var n := |Copies(f, v)| - 1;
    CopiedStep(f, v, n);
    CopyLast(f, v);
    AppendMarks(f, Copied(f, v, n), [EraseWord(f, v)]);
    NextKeeps(f, v);
  }
}
