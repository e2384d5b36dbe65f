/** Appending entries to the log, completely or not. */
module Appending {
  import opened Wrappers
  import opened Words
  import opened Format
  import opened Bytes
  import opened Entries
  import opened Flash
  import opened Log
  import opened States

  /** The view once some words have been written at its tail. */
  function Append(f: Format, v: View, ws: seq<Word>): View
    requires f.Supported()
  {
    View(
      v.first,
      v.log + [Item(v.tail, ws)],
      v.tail + |ws|,
      if v.tail == Start(f, v, |v.marks|) then v.marks + [|v.log|]
      else if v.tail + |ws| > Start(f, v, |v.marks|) then v.marks + [|v.log| + 1]
      else v.marks,
      v.lean)
  }

  /** Every entry is complete. */
  ghost predicate Complete(f: Format, v: View)
    requires f.Supported()
  {
    forall k: nat :: k < |v.log| ==> !Kinds(f, v, k).TornUser? && !Kinds(f, v, k).TornEntry?
  }

  ghost predicate Appendable(f: Format, ws: seq<Word>)
    requires f.Supported()
  {
    1 <= |ws| <= f.M() + 1 && !KindOf(f, ws).Bad?
  }

  lemma AppendPos(f: Format, v: View, ws: seq<Word>)
    requires f.Supported() && Contiguous(v) && ws != []
    ensures Contiguous(Append(f, v, ws))
    ensures forall k: nat :: k <= |v.log| ==> PosAt(Append(f, v, ws), k) == PosAt(v, k)
    ensures forall i: nat :: Start(f, Append(f, v, ws), i) == Start(f, v, i)
  {
    hide Start;
    assert forall i: nat :: Start(f, Append(f, v, ws), i) == Start(f, v,
        i) by { assert Append(f, v, ws).first == v.first; StartSame(f, v, Append(f, v, ws)); }
  }

  lemma StartSame(f: Format, v: View, v': View)
    requires f.Supported() && v'.first == v.first
    ensures forall i: nat :: Start(f, v', i) == Start(f, v, i)
  {
  }

  lemma AppendHeads(f: Format, v: View, ws: seq<Word>)
    requires Framed(f, v) && ws != []
    ensures forall i: nat :: i < |v.marks| ==> HeadAt(Append(f, v, ws), i) == HeadAt(v, i)
    ensures forall i: nat :: i < |v.marks| ==> InitWord(f, Append(f, v, ws), i) == InitWord(f, v, i)
  {
    hide Start, KindOf, BuildInit;
    AppendPos(f, v, ws);
    var v' := Append(f, v, ws);
    forall i: nat | i < |v.marks| ensures HeadAt(v', i) == HeadAt(v, i) {
      assert MarkOk(f, v, i);
      assert v'.marks[i] == v.marks[i];
    }
  }

  lemma AppendMark(f: Format, v: View, ws: seq<Word>, i: nat)
    requires Framed(f, v) && Appendable(f, ws) && i < |v.marks|
    ensures MarkOk(f, Append(f, v, ws), i) && NoUserBeforeMark(f, Append(f, v, ws), i)
  {
    hide Start, KindOf, Format.M;
    AppendPos(f, v, ws);
    AppendHeads(f, v, ws);
    var v' := Append(f, v, ws);
    assert MarkOk(f, v, i) && NoUserBeforeMark(f, v, i);
    forall k: nat | k < v'.marks[i] && k < |v'.log| && Kinds(f, v', k).User? ensures v'.log[k].pos < Start(f, v', i) {
      assert k < |v.log| && v'.log[k] == v.log[k] && Kinds(f, v, k).User?;
    }
  }

  /** The mark of a page opened by the appended entry. */
  lemma AppendNewMark(f: Format, v: View, ws: seq<Word>)
    requires Framed(f, v) && Appendable(f, ws) && |Append(f, v, ws).marks| > |v.marks|
    ensures MarkOk(f, Append(f, v, ws), |v.marks|) && NoUserBeforeMark(f, Append(f, v, ws), |v.marks|)
    ensures OpensPage(f, Append(f, v, ws))
    ensures Start(f, v, |v.marks|) < v.tail + |ws| <= Start(f, v, |v.marks| + 1)
  {
    hide Start, KindOf, Format.M, Format.Q, Parses;
    AppendPos(f, v, ws);
    StartStep(f, v, |v.marks|);
    var v' := Append(f, v, ws);
    var n := |v.marks|;
    assert v.tail <= Start(f, v, n);
    forall k: nat | k < v'.marks[n] && k < |v'.log| && Kinds(f, v', k).User? ensures v'.log[k].pos < Start(f, v', n) {
      if k < |v.log| { assert End(v.log[k]) <= v.tail; }
    }
  }

  lemma AppendParses(f: Format, v: View, ws: seq<Word>)
    requires Framed(f, v) && Complete(f, v) && Appendable(f, ws)
    ensures Parses(f, Append(f, v, ws))
  {
    hide Start, KindOf, Format.M, Format.Q, MarksOk, Contiguous;
    var v' := Append(f, v, ws);
    forall k: nat | k < |v'.log|
      ensures !Kinds(f, v', k).Bad? && |v'.log[k].ws| <= f.M() + 1
      ensures Kinds(f, v', k).TornUser? || Kinds(f, v', k).TornEntry? ==> k == |v'.log| - 1
    {
      if k < |v.log| { assert v'.log[k] == v.log[k] && !Kinds(f, v, k).Bad?; }
    }
  }

  lemma AppendFormed(f: Format, v: View, ws: seq<Word>)
    requires Framed(f, v) && Complete(f, v) && Appendable(f, ws)
    ensures Formed(f, Append(f, v, ws))
  {
    hide Start, KindOf, Format.M, Format.Q, Contiguous, MarkOk, NoUserBeforeMark, Parses, OpensPage;
    AppendPos(f, v, ws);
    AppendParses(f, v, ws);
    var v' := Append(f, v, ws);
    forall i: nat | i < |v'.marks| ensures MarkOk(f, v', i) && NoUserBeforeMark(f, v', i) {
      if i < |v.marks| { AppendMark(f, v, ws, i); } else { AppendNewMark(f, v, ws); }
    }
    if |v'.marks| > |v.marks| { AppendNewMark(f, v, ws); }
  }

  /** Words written at the tail of what a window holds extend the log. */
  lemma MatchesAppend(f: Format, s: Window, s': Window, v: View, ws: seq<Word>, off: nat, n: nat)
    requires Framed(f, v) && Complete(f, v) && Appendable(f, ws)
    requires Matches(f, s, v, off, n, true) && v.tail + |ws| <= Start(f, v, n)
    requires SameExcept(s, s', v.tail, |ws|) && Holds(s', v.tail, ws)
    ensures Formed(f, Append(f, v, ws))
    ensures Matches(f, s', Append(f, v, ws), off, n, |Append(f, v, ws).marks| == |v.marks|)
  {
    hide Start, KindOf, Contiguous, MarksOk, Parses, InitWord, HoldsLog, HoldsInits, Complete, ErasedBetween, Holds;
    AppendFormed(f, v, ws);
    var v' := Append(f, v, ws);
    StartSame(f, v, v');
    AppendHoldsLog(f, s, s', v, ws);
    AppendErased(f, s, s', v, ws, n);
    AppendHoldsInits(f, s, s', v, ws, off, n);
  }

  /** Words written at the tail of a steady state extend the log. */
  lemma SteadyAppend(f: Format, pages: Pages, pages': Pages, v: View, ws: seq<Word>)
    requires Steady(f, pages, v, true) && Shape(f, pages') && Complete(f, v) && Appendable(f, ws)
    requires v.tail + |ws| <= Start(f, v, f.numPages - 1)
    requires SameExcept(Snapshot(f, pages, v.first), Snapshot(f, pages', v.first), v.tail, |ws|)
    requires Holds(Snapshot(f, pages', v.first), v.tail, ws)
    ensures Steady(f, pages', Append(f, v, ws), |Append(f, v, ws).marks| == |v.marks|)
  {
    hide Snapshot, Start, KindOf, Contiguous, MarksOk, Parses, Alive, InitWord, HoldsLog, HoldsInits, Complete,
         ErasedBetween, Holds;
    var v' := Append(f, v, ws);
    StartSame(f, v, v');
    StartOrder(f, v, f.numPages - 1, f.numPages);
    var s, s' := Snapshot(f, pages, v.first), Snapshot(f, pages', v.first);
    MatchesAppend(f, s, s', v, ws, 0, f.numPages);
    AliveSame(f, v, v');
    AppendHeads(f, v, ws);
    assert PageInit(s', 0, 0) == PageInit(s, 0, 0);
  }

  lemma AppendHoldsLog(f: Format, s: Window, s': Window, v: View, ws: seq<Word>)
    requires Framed(f, v) && HoldsLog(s, v)
    requires SameExcept(s, s', v.tail, |ws|) && Holds(s', v.tail, ws)
    ensures HoldsLog(s', Append(f, v, ws))
  {
    hide Start, MarksOk, Parses;
    var v' := Append(f, v, ws);
    forall k: nat | k < |v'.log| ensures Holds(s', v'.log[k].pos, v'.log[k].ws) {
      if k < |v.log| {
        assert Holds(s, v.log[k].pos, v.log[k].ws);
        assert End(v.log[k]) <= v.tail;
      }
    }
  }

  lemma AppendErased(f: Format, s: Window, s': Window, v: View, ws: seq<Word>, n: nat)
    requires f.Supported() && ErasedBetween(s, v.tail, Start(f, v, n))
    requires SameExcept(s, s', v.tail, |ws|)
    ensures ErasedBetween(s', v.tail + |ws|, Start(f, v, n))
  {
    hide Start;
  }

  lemma AppendHoldsInits(f: Format, s: Window, s': Window, v: View, ws: seq<Word>, off: nat, n: nat)
    requires Framed(f, v) && Appendable(f, ws) && HoldsInits(f, s, v, off, n, true)
    requires s'.inits == s.inits && v.tail + |ws| <= Start(f, v, n)
    ensures HoldsInits(f, s', Append(f, v, ws), off, n, |Append(f, v, ws).marks| == |v.marks|)
    ensures |Append(f, v, ws).marks| > |v.marks| ==> |v.marks| < n && PageInit(s', off, |v.marks|) == ERASED_WORD
  {
    hide Start, KindOf, Contiguous, Parses, MarkOk, NoUserBeforeMark, Alive, InitWord;
    AppendHeads(f, v, ws);
    var v' := Append(f, v, ws);
    assert forall i: nat :: PageInit(s', off, i) == PageInit(s, off, i);
    if |v'.marks| > |v.marks| {
      AppendNewMark(f, v, ws);
      if |v.marks| >= n { StartOrder(f, v, n, |v.marks|); }
      CoversErased(InitWord(f, v', |v.marks|));
    }
  }

  lemma CoversErased(w: Word)
    ensures Covers(ERASED_WORD, w)
  {
  }

  // ---------------------------------------------------------------------------------------------
  // Interrupted appends

  /** The number of words up to the last one that is not erased. */
  function Extent(s: Window, pos: nat, n: nat): (m: nat)
    requires InWindow(s, pos, n)
    ensures m <= n
    ensures m > 0 ==> At(s, pos + m - 1) != ERASED_WORD
    ensures forall q: nat :: pos + m <= q < pos + n ==> At(s, q) == ERASED_WORD
  {
    if n == 0 || At(s, pos + n - 1) != ERASED_WORD then n else Extent(s, pos, n - 1)
  }

  function WordsAt(s: Window, pos: nat, n: nat): (ws: seq<Word>)
    requires InWindow(s, pos, n)
    ensures |ws| == n && Holds(s, pos, ws)
    ensures forall i: nat :: i < n ==> ws[i] == At(s, pos + i)
  {
    seq<Word>(n, i requires 0 <= i < n => At(s, pos + i))
  }

  /** What is left at the tail by an interrupted write of some words. */
  function Leftover(s: Window, pos: nat, n: nat): (ts: seq<Word>)
    requires InWindow(s, pos, n)
    ensures |ts| <= n && Holds(s, pos, ts)
    ensures ts != [] ==> ts[|ts| - 1] != ERASED_WORD
  {
    WordsAt(s, pos, Extent(s, pos, n))
  }

  /** The words from a position on may lack some of the zeros of the given words. */
  ghost predicate Unfinished(s: Window, pos: nat, ws: seq<Word>) {
    InWindow(s, pos, |ws|) && forall q: nat :: pos <= q < pos + |ws| ==> Covers(At(s, q), ws[q - pos])
  }

  lemma LeftoverCovers(s: Window, pos: nat, ws: seq<Word>)
    requires Unfinished(s, pos, ws)
    ensures CoversAll(Leftover(s, pos, |ws|), ws)
  {
    var ts := Leftover(s, pos, |ws|);
    forall i | 0 <= i < |ts| ensures Covers(ts[i], ws[i]) {
      assert ts[i] == At(s, pos + i);
      var q: nat := pos + i;
      assert Covers(At(s, q), ws[q - pos]);
    }
  }

  /** Between erased words, only what is left over differs from what was there before. */
  lemma LeftoverSame(s: Window, s': Window, pos: nat, n: nat)
    requires InWindow(s, pos, n) && SameExcept(s, s', pos, n) && ErasedBetween(s, pos, pos + n)
    ensures SameExcept(s, s', pos, |Leftover(s', pos, n)|)
    ensures Leftover(s', pos, n) == [] ==> s' == s
  {
    var m := Extent(s', pos, n);
    forall q: nat | s.base <= q < s.base + |s.mem| && !(pos <= q < pos + m) ensures At(s', q) == At(s, q) {
    }
    if m == 0 {
      forall i | 0 <= i < |s.mem| ensures s'.mem[i] == s.mem[i] {
        var q: nat := s.base + i;
        assert At(s', q) == At(s, q);
      }
      assert s'.mem == s.mem;
    }
  }

  /** The view after an interrupted append: what is left over, if anything, is its last entry. */
  function Leave(f: Format, v: View, ts: seq<Word>): View
    requires f.Supported()
  {
    if ts == [] then v else Append(f, v, ts)
  }

  /** An interrupted append leaves a steady state whose last entry is what is left over. */
  lemma SteadyLeave(f: Format, pages: Pages, pages': Pages, v: View, n: nat)
    requires Steady(f, pages, v, true) && Shape(f, pages') && Complete(f, v)
    requires v.tail + n <= Start(f, v, f.numPages - 1)
    requires InWindow(Snapshot(f, pages', v.first), v.tail, n)
    requires SameExcept(Snapshot(f, pages, v.first), Snapshot(f, pages', v.first), v.tail, n)
    requires var ts := Leftover(Snapshot(f, pages', v.first), v.tail, n); ts != [] ==> Appendable(f, ts)
    ensures var v' := Leave(f, v, Leftover(Snapshot(f, pages', v.first), v.tail, n));
            Steady(f, pages', v', |v'.marks| == |v.marks|)
  {
    hide Snapshot, Start, KindOf, Leftover, Append, Complete, HoldsInits, HoldsLog, Formed, Alive;
    var s, s' := Snapshot(f, pages, v.first), Snapshot(f, pages', v.first);
    StartOrder(f, v, f.numPages - 1, f.numPages);
    LeftoverSame(s, s', v.tail, n);
    var ts := Leftover(s', v.tail, n);
    if ts != [] {
      SteadyAppend(f, pages, pages', v, ts);
    } else {
      SteadySame(f, pages, pages', v, true);
    }
  }

  lemma SteadySame(f: Format, pages: Pages, pages': Pages, v: View, tidy: bool)
    requires Steady(f, pages, v, tidy) && Shape(f, pages')
    requires Snapshot(f, pages', v.first) == Snapshot(f, pages, v.first)
    ensures Steady(f, pages', v, tidy)
  {
    hide Snapshot, Formed, HoldsLog, HoldsInits, Alive, Start;
  }

  /** The tail of a steady state may be written. */
  lemma TailWritable(f: Format, pages: Pages, v: View, tidy: bool, ws: seq<Word>)
    requires Steady(f, pages, v, tidy) && v.tail + |ws| <= Start(f, v, f.numPages - 1)
    ensures Shape(f, pages) && Writable(Snapshot(f, pages, v.first), v.tail, ws)
    ensures ErasedBetween(Snapshot(f, pages, v.first), v.tail, v.tail + |ws|)
  {
    hide Snapshot, Start, Formed, HoldsLog, HoldsInits, Alive;
    StartOrder(f, v, f.numPages - 1, f.numPages);
    var s := Snapshot(f, pages, v.first);
    forall q: nat | v.tail <= q < v.tail + |ws| ensures Covers(At(s, q), ws[q - v.tail]) {
      CoversErased(ws[q - v.tail]);
    }
  }

  lemma TornIsUnfinished(s: Window, s': Window, pos: nat, ws: seq<Word>)
    requires TornWritten(s, s', pos, ws) && Writable(s, pos, ws)
    ensures Unfinished(s', pos, ws)
  {
    forall q: nat | pos <= q < pos + |ws| ensures Covers(At(s', q), ws[q - pos]) {
      TornBetween(At(s', q), At(s, q), ws[q - pos]);
    }
  }

  // ---------------------------------------------------------------------------------------------
  // The two kinds of appends

  /** What an interrupted append of an internal entry leaves. */
  ghost predicate LeavesInternal(f: Format, v: View, v': View, e: InternalEntry)
    requires f.Supported()
  {
    || v' == v
    || (exists t: Word ::
          && v' == Append(f, v, [t])
          && (KindOf(f, [t]).TornEntry?
              || (BuildInternal(e).Ok? && t == BuildInternal(e).value && KindOf(f, [t]) == Internal(e))))
  }

  lemma InternalLeft(f: Format, pages: Pages, pages': Pages, v: View, e: InternalEntry) returns (v': View)
    requires Steady(f, pages, v, true) && Shape(f, pages') && Complete(f, v)
    requires v.tail + 1 <= Start(f, v, f.numPages - 1)
    requires InternalInRange(f, e) && BuildInternal(e).Ok?
    requires TornWritten(Snapshot(f, pages, v.first), Snapshot(f, pages', v.first), v.tail, [BuildInternal(e).value])
    ensures LeavesInternal(f, v, v', e)
    ensures Steady(f, pages', v', |v'.marks| == |v.marks|)
  {
    hide Snapshot, Start, KindOf, Leftover, Append, Complete, Steady, BuildInternal, Format.M;
    var w := BuildInternal(e).value;
    TailWritable(f, pages, v, true, [w]);
    var s, s' := Snapshot(f, pages, v.first), Snapshot(f, pages', v.first);
    TornIsUnfinished(s, s', v.tail, [w]);
    LeftoverCovers(s', v.tail, [w]);
    var ts := Leftover(s', v.tail, 1);
    if ts != [] {
      assert ts == [ts[0]];
      TornInternalKind(f, e, ts[0]);
    }
    SteadyLeave(f, pages, pages', v, 1);
    v' := Leave(f, v, ts);
    if ts != [] { assert v' == Append(f, v, [ts[0]]); }
  }

  /** What an interrupted append of a user entry leaves. */
  ghost predicate LeavesUser(f: Format, v: View, v': View, ws: seq<Word>)
    requires f.Supported()
  {
    || v' == v
    || v' == Append(f, v, ws)
    || (exists ts: seq<Word> ::
          v' == Append(f, v, ts) && |ts| <= |ws| && Appendable(f, ts)
            && (KindOf(f, ts).TornEntry? || KindOf(f, ts).TornUser?))
  }

  ghost predicate ForUser(f: Format, key: nat, value: seq<byte>, ws: seq<Word>)
    requires f.Supported()
  {
    && key <= MAX_KEY && |value| <= f.MaxValueLen() && BuildUser(key, value) == Ok(ws)
    && |ws| == 1 + BytesToWords(|value|) && |ws| <= f.M() + 1 && KindOf(f, ws) == User(key)
  }

  /** Interrupting the write of all words but the last of a user entry. */
  lemma UserLeftFirst(f: Format, pages: Pages, pages': Pages, v: View, key: nat, value: seq<byte>, ws: seq<Word>)
    returns (v': View)
    requires Steady(f, pages, v, true) && Shape(f, pages') && Complete(f, v)
    requires ForUser(f, key, value, ws)
    requires v.tail + |ws| <= Start(f, v, f.numPages - 1)
    requires TornWritten(Snapshot(f, pages, v.first), Snapshot(f, pages', v.first), v.tail, ws[..|ws| - 1])
    ensures LeavesUser(f, v, v', ws)
    ensures Steady(f, pages', v', |v'.marks| == |v.marks|)
  {
    hide Snapshot, Start, KindOf, Leftover, Append, Complete, Steady, BuildUser, Format.M;
    var part := ws[..|ws| - 1];
    TailWritable(f, pages, v, true, part);
    var s, s' := Snapshot(f, pages, v.first), Snapshot(f, pages', v.first);
    TornIsUnfinished(s, s', v.tail, part);
    LeftoverCovers(s', v.tail, part);
    var ts := Leftover(s', v.tail, |part|);
    assert CoversAll(ts, ws) by {
      forall i | 0 <= i < |ts| ensures Covers(ts[i], ws[i]) { assert part[i] == ws[i]; }
    }
    if ts != [] {
      TornUserFirstPhase(f, key, value, ts);
    }
    SteadyLeave(f, pages, pages', v, |part|);
    v' := Leave(f, v, ts);
  }

  /** Interrupting the write of the last word of a user entry. */
  lemma UserLeftSecond(f: Format, pages: Pages, pages1: Pages, pages': Pages, v: View, key: nat, value: seq<byte>,
                       ws: seq<Word>) returns (v': View)
    requires Steady(f, pages, v, true) && Shape(f, pages1) && Shape(f, pages') && Complete(f, v)
    requires ForUser(f, key, value, ws)
    requires v.tail + |ws| <= Start(f, v, f.numPages - 1)
    requires Written(Snapshot(f, pages, v.first), Snapshot(f, pages1, v.first), v.tail, ws[..|ws| - 1])
    requires TornWritten(Snapshot(f, pages1, v.first), Snapshot(f, pages', v.first), v.tail + |ws| - 1, [ws[|ws| - 1]])
    ensures LeavesUser(f, v, v', ws)
    ensures Steady(f, pages', v', |v'.marks| == |v.marks|)
  {
    hide Snapshot, Start, KindOf, Leftover, Append, Complete, Steady, BuildUser, Format.M;
    var n := |ws| - 1;
    TailWritable(f, pages, v, true, ws);
    var s, s1, s' := Snapshot(f, pages, v.first), Snapshot(f, pages1, v.first), Snapshot(f, pages', v.first);
    SecondUnfinished(s, s1, s', v.tail, ws);
    LeftoverCovers(s', v.tail, ws);
    var ts := Leftover(s', v.tail, |ws|);
    SecondKind(f, s', v.tail, key, value, ws, ts);
    SteadyLeave(f, pages, pages', v, |ws|);
    v' := Leave(f, v, ts);
  }

  lemma SecondUnfinished(s: Window, s1: Window, s': Window, pos: nat, ws: seq<Word>)
    requires ws != [] && Writable(s, pos, ws)
    requires Written(s, s1, pos, ws[..|ws| - 1])
    requires TornWritten(s1, s', pos + |ws| - 1, [ws[|ws| - 1]])
    ensures SameExcept(s, s', pos, |ws|) && Unfinished(s', pos, ws)
    ensures Holds(s', pos, ws[..|ws| - 1])
  {
    var n := |ws| - 1;
    var p: nat := pos + n;
    assert At(s1, p) == At(s, p);
    TornBetween(At(s', p), At(s1, p), ws[n]);
    forall q: nat | pos <= q < pos + n ensures At(s', q) == ws[q - pos] {
      assert At(s', q) == At(s1, q) == ws[..n][q - pos];
    }
  }

  lemma SecondKind(f: Format, s: Window, pos: nat, key: nat, value: seq<byte>, ws: seq<Word>, ts: seq<Word>)
    requires f.Supported() && ForUser(f, key, value, ws)
    requires InWindow(s, pos, |ws|) && ts == Leftover(s, pos, |ws|) && CoversAll(ts, ws)
             && Holds(s, pos, ws[..|ws| - 1])
    ensures ts != [] ==> Appendable(f, ts) && (ts == ws || KindOf(f, ts).TornEntry? || KindOf(f, ts).TornUser?)
  {
    hide KindOf, Leftover, BuildUser, Format.M;
    if ts == [] {
    } else if |ts| < |ws| || |ws| == 1 {
      TornUserFirstPhase(f, key, value, ts);
    } else {
      var n := |ws| - 1;
      assert ts == ws[n := ts[n]] by {
        forall i | 0 <= i < n ensures ts[i] == ws[i] {
          var q: nat := pos + i;
          assert At(s, q) == ts[q - pos] && At(s, q) == ws[..n][q - pos];
        }
      }
      TornUserSecondPhase(f, key, value, ts[n]);
      if ts[n] == ws[n] { assert ts == ws; }
    }
  }
}
