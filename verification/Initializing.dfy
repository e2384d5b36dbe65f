/** What writing the init info of a page changes. */
module Initializing {
  import opened Words
  import opened Format
  import opened Flash
  import opened Log
  import opened States
  import opened Storage

  /** Whether `init_page` finds that the init info of the page of an entry is complete. */
  ghost predicate Finished(f: Format, pages: Pages, w: nat, v: View, off: nat, tidy: bool, k: nat)
    requires Shape(f, pages)
  {
    tidy || k + 1 < |v.log| || (v.marks != [] && Initialized(f, Snapshot(f, pages, w), v, off, |v.marks| - 1))
  }

  /** `InitTarget` in terms of the flash words to be written. */
  lemma InitTargetIs(f: Format, pages: Pages, w: nat, v: View, off: nat, n: nat, tidy: bool, k: nat)
    requires Inited(f, pages, w, v, off, n, tidy) && k < |v.log|
    requires tidy || OpensPage(f, v)
    ensures f.Supported() && Shape(f, pages)
    ensures tidy || v.marks != []
    ensures var newFirst := NewFirst(f, v.log[k].pos, End(v.log[k]) - 1);
            if newFirst.None? then Finished(f, pages, w, v, off, tidy, k)
            else
              var page := PageOf(f, newFirst.value);
              var p := ParseInit(f, InfoOf(f, pages, page, 0));
              && p.Ok? && page < f.numPages
              && (p.value.Valid? <==> Finished(f, pages, w, v, off, tidy, k))
              && (!p.value.Valid? ==>
                    var info := InitInfo(CycleIndex(f, VirtPage(f, newFirst.value)), WordOf(f, newFirst.value));
                    && page == PageIndex(f, v.first + |v.marks| - 1)
                    && BuildInit(info).Ok? && BuildInit(info).value == InitWord(f, v, |v.marks| - 1)
                    && Covers(Slice(f, pages, page, 0, 1)[0], BuildInit(info).value))
  {
    hide ParseInit, InfoOf, PageOf, NewFirst, BuildInit, CycleIndex, VirtPage, WordOf, Inited, InitWord, Initialized,
         Snapshot, PageIndex;
    InitTarget(f, pages, w, v, off, n, tidy, k);
    if v.marks != [] { InitSlice(f, pages, w, v, off, n, tidy); }
    if !tidy { OpensMarks(f, v); }
  }

  lemma OpensMarks(f: Format, v: View)
    requires f.Supported() && OpensPage(f, v)
    ensures v.marks != []
  {
  }

  /** What a window becomes when the init info of the last page in use is written, completely or not. */
  lemma InitWritten(f: Format, pages: Pages, pages': Pages, w: nat, v: View, off: nat, n: nat, tidy: bool, page: nat,
                    word: Word, ok: bool)
    returns (u: Word)
    requires Inited(f, pages, w, v, off, n, tidy) && Shape(f, pages') && v.marks != []
    requires page == PageIndex(f, v.first + |v.marks| - 1) && word == InitWord(f, v, |v.marks| - 1)
    requires DiffersOnlyIn(f, pages, pages', page, 0, 1)
    requires Covers(Slice(f, pages, page, 0, 1)[0], word)
    requires if ok then Slice(f, pages', page, 0, 1) == [word]
             else TornAll(Slice(f, pages', page, 0, 1), Slice(f, pages, page, 0, 1), [word])
    ensures Covers(u, word) && (ok ==> u == word)
    ensures Snapshot(f, pages', w) == WithInit(Snapshot(f, pages, w), off + |v.marks| - 1, u)
  {
    hide Snapshot, InitWord, Formed, Alive, PageIndex, Format.Q, Format.Supported;
    InitSlice(f, pages, w, v, off, n, tidy);
    var i: nat := off + (|v.marks| - 1);
    assert w + i == v.first + |v.marks| - 1;
    InfoChange(f, pages, pages', w, i, 0);
    u := pages'[page][0];
    assert Slice(f, pages', page, 0, 1)[0] == u;
    assert Slice(f, pages, page, 0, 1)[0] == pages[page][0];
    if !ok {
      TornBetween(u, pages[page][0], word);
    }
  }

  /** When the init info is complete, writing it again would change nothing. */
  lemma FinishedKept(f: Format, pages: Pages, w: nat, v: View, off: nat, n: nat, tidy: bool, k: nat)
    requires Inited(f, pages, w, v, off, n, tidy) && k < |v.log|
    ensures Finished(f, pages, w, v, off, tidy, k) && !tidy && k == |v.log| - 1 ==>
              && v.marks != [] && Covers(InitWord(f, v, |v.marks| - 1), InitWord(f, v, |v.marks| - 1))
              && Snapshot(f, pages, w) == WithInit(Snapshot(f, pages, w), off + |v.marks| - 1,
                                                   InitWord(f, v, |v.marks| - 1))
    ensures Finished(f, pages, w, v, off, tidy, k) <==>
              tidy || k < |v.log| - 1 || (v.marks != [] && Initialized(f, Snapshot(f, pages, w), v, off, |v.marks| - 1))
  {
    hide Snapshot, InitWord, Formed, Alive;
    var s := Snapshot(f, pages, w);
    if v.marks != [] {
      var i := off + |v.marks| - 1;
      assert s.inits[i := s.inits[i]] == s.inits;
    }
  }
}
