/**
 The storage format of the persistent store: the sizes derived from the storage configuration, the
 words that describe pages and entries, and how those words are parsed back.
 */
module Format {
  import opened Arithmetic
  import opened Wrappers
  import opened Words

  datatype StoreError = InvalidArgument | NoCapacity | NoLifetime | StorageError | InvalidStorage

  const MAX_ERASE_CYCLE: nat := 65535
  const MAX_PAGE_INDEX: nat := 63
  const MAX_KEY: nat := 4095
  const MAX_VALUE_LEN: nat := 1023
  const MAX_UPDATES: nat := 31

  function DivCeil(x: nat, m: nat): nat
    requires m > 0
  {
    (x + m - 1) / m
  }

  function Min(x: nat, y: nat): nat {
    if x <= y then x else y
  }

  /** The minimum number of words to hold a number of bytes. */
  function BytesToWords(bytes: nat): nat {
    DivCeil(bytes, 4)
  }

  /** A storage configuration: page size in bytes, number of pages, erase cycles per page. */
  datatype Format = Format(pageSize: nat, numPages: nat, maxPageErases: nat) {
    /** The storages the store supports. */
    predicate Supported() {
      && pageSize % 4 == 0
      && 8 * 4 <= pageSize <= 4096
      && 3 <= numPages <= MAX_PAGE_INDEX + 1
      && maxPageErases <= MAX_ERASE_CYCLE
    }

    /** How many words of content a page has: all but the init and compact info. */
    function Q(): (q: nat)
      requires Supported()
      ensures 6 <= q <= 1022
    {
      pageSize / 4 - 2
    }

    function MaxValueLen(): nat
      requires Supported()
    {
      Min((Q() - 1) * 4, MAX_VALUE_LEN)
    }

    /** How far into a page the last entry of the page before may reach, at most. */
    function M(): (m: nat)
      requires Supported()
      ensures 5 <= m <= 256 && m < Q()
    {
      BytesToWords(MaxValueLen())
    }

    /** How long the log may be before pages have to be compacted. */
    function V(): nat
      requires Supported()
    {
      VirtSizeLowerBound();
      (numPages - 1) * (Q() - 1) - M()
    }

    /** How many words user entries may take in all. */
    function C(): nat
      requires Supported()
    {
      VirtSizeLowerBound();
      V() - numPages
    }

    /**
     Whether compacting many pages in a row may lead to a log that is longer than what a compact info
     may record.
     */
    predicate Overflows()
      requires Supported()
    {
      maxPageErases > 0 && C() > (M() + 1) * (Q() - 1)
    }

    /** How much longer than the virtual capacity a log may become. */
    function Drift(): (d: nat)
      requires Supported()
      ensures d <= numPages - 2
    {
      if C() <= (M() + 1) * (Q() - 1) then Min(M(), numPages - 2) else numPages - 2
    }

    lemma SizeBounds()
      requires Supported()
      ensures 6 <= Q() <= 1022
      ensures 5 <= M() <= 256
      ensures M() == Min(Q() - 1, 256)
    {
    }

    /** The virtual capacity always leaves room for the reserved words. */
    lemma VirtSizeLowerBound()
      requires Supported()
      ensures (numPages - 1) * (Q() - 1) - M() >= (numPages - 2) * (Q() - 1) >= 5 * (numPages - 2) >= numPages
    {
      SizeBounds();
      var a, b := numPages - 2, Q() - 1;
      MulStep(a, b);
      MulMonotone(a, 5, b);
    }
  }

  // ---------------------------------------------------------------------------------------------
  // Words

  datatype WordState<+T> = Erased | Partial | Valid(value: T)

  /** Information of an initialized page. */
  datatype InitInfo = InitInfo(cycle: nat, prefix: nat)

  datatype Header = Header(flipped: bool, length: nat, key: nat, checksum: nat) {
    /** Checks a user entry given its last word, if its value is not empty. */
    predicate Check(footer: Option<Word>) {
      (if footer.Some? then Zeros(footer.value) else 0) == checksum
    }
  }

  datatype InternalEntry =
    | Erase(page: nat)
    | Clear(minKey: nat)
    | Marker(count: nat)
    | Remove(key: nat)

  datatype ParsedWord =
    | PaddingWord(length: nat)
    | HeaderWord(header: Header)
    | InternalWord(internal: InternalEntry)

  const ID_PADDING: Bits := [false]
  const ID_HEADER: Bits := [true, false]
  const ID_ERASE: Bits := [true, true, false, false, false]
  const ID_CLEAR: Bits := [true, true, false, false, true]
  const ID_MARKER: Bits := [true, true, false, true, false]
  const ID_REMOVE: Bits := [true, true, false, true, true]

  const WORD_CHECKSUM: nat := 27
  const HEADER_CHECKSUM: nat := 26

  function OrInvalid<T>(o: Option<T>): Result<T, StoreError> {
    if o.Some? then Ok(o.value) else Err(InvalidStorage)
  }

  /** Sets the identifier at the start of a word. */
  function SetId(w: Word, id: Bits): Option<Word>
    requires |id| <= 32
  {
    var r := And(w[..|id|], id) + w[|id|..];
    if id <= r then Some(r) else None
  }

  lemma NotId(w: Word, id: Bits, i: nat)
    requires i < |id| <= 32 && w[i] != id[i]
    ensures !(id <= w)
  {
  }

  function BuildInit(init: InitInfo): Result<Word, StoreError> {
    var w1 :- OrInvalid(SetField(ERASED_WORD, 0, 16, init.cycle));
    var w2 :- OrInvalid(SetField(w1, 16, 9, init.prefix));
    OrInvalid(SetChecksum(w2, WORD_CHECKSUM, 0))
  }

  function ParseInit(f: Format, w: Word): Result<WordState<InitInfo>, StoreError>
    requires f.Supported()
  {
    if w == ERASED_WORD then Ok(Erased)
    else
      var checksum :- OrInvalid(GetChecksum(w, WORD_CHECKSUM));
      if checksum != 0 then Ok(Partial)
      else
        var cycle := GetField(w, 0, 16);
        var prefix := GetField(w, 16, 9);
        if cycle > f.maxPageErases || prefix > f.M() then Err(InvalidStorage)
        else Ok(Valid(InitInfo(cycle, prefix)))
  }

  /** The compact info holds the distance in words between head and tail at compaction. */
  function BuildCompact(tail: nat): Result<Word, StoreError> {
    var w1 :- OrInvalid(SetField(ERASED_WORD, 0, 16, tail));
    OrInvalid(SetChecksum(w1, WORD_CHECKSUM, 0))
  }

  function ParseCompact(f: Format, w: Word): Result<WordState<nat>, StoreError>
    requires f.Supported()
  {
    if w == ERASED_WORD then Ok(Erased)
    else
      var checksum :- OrInvalid(GetChecksum(w, WORD_CHECKSUM));
      if checksum != 0 then Ok(Partial)
      else
        var tail := GetField(w, 0, 16);
        if tail > f.V() + f.M() then Err(InvalidStorage)
        else Ok(Valid(tail))
  }

  function InternalId(e: InternalEntry): (id: Bits)
    ensures |id| == 5
  {
    match e
    case Erase(_) => ID_ERASE
    case Clear(_) => ID_CLEAR
    case Marker(_) => ID_MARKER
    case Remove(_) => ID_REMOVE
  }

  /** The length in bits of the only field of an internal entry. */
  function InternalLen(e: InternalEntry): (n: nat)
    ensures n <= 12
  {
    match e
    case Erase(_) => 6
    case Clear(_) => 12
    case Marker(_) => 5
    case Remove(_) => 12
  }

  function InternalValue(e: InternalEntry): nat {
    match e
    case Erase(page) => page
    case Clear(minKey) => minKey
    case Marker(count) => count
    case Remove(key) => key
  }

  function BuildInternal(e: InternalEntry): Result<Word, StoreError> {
    var w1 :- OrInvalid(SetId(ERASED_WORD, InternalId(e)));
    var w2 :- OrInvalid(SetField(w1, 5, InternalLen(e), InternalValue(e)));
    OrInvalid(SetChecksum(w2, WORD_CHECKSUM, 0))
  }

  predicate InternalInRange(f: Format, e: InternalEntry) {
    match e
    case Erase(page) => page < f.numPages
    case Clear(minKey) => minKey <= MAX_KEY
    case Marker(count) => count <= MAX_UPDATES
    case Remove(key) => key <= MAX_KEY
  }

  function ParseInternal(f: Format, w: Word, e: InternalEntry): Result<WordState<ParsedWord>, StoreError> {
    var checksum :- OrInvalid(GetChecksum(w, WORD_CHECKSUM));
    if checksum != 0 then Ok(Partial)
    else if !InternalInRange(f, e) then Err(InvalidStorage)
    else Ok(Valid(InternalWord(e)))
  }

  /** Parses the first word of an entry. */
  function ParseWord(f: Format, w: Word): Result<WordState<ParsedWord>, StoreError>
    requires f.Supported()
  {
    if ID_PADDING <= w then Ok(Valid(PaddingWord(0)))
    else if ID_HEADER <= w then
      var length := GetField(w, 4, 10);
      if !w[2] then
        if length > f.MaxValueLen() then Err(InvalidStorage)
        else Ok(Valid(PaddingWord(BytesToWords(length))))
      else
        var checksum :- OrInvalid(GetChecksum(w, HEADER_CHECKSUM));
        Ok(Valid(HeaderWord(Header(!w[3], length, GetField(w, 14, 12), checksum))))
    else if ID_ERASE <= w then ParseInternal(f, w, Erase(GetField(w, 5, 6)))
    else if ID_CLEAR <= w then ParseInternal(f, w, Clear(GetField(w, 5, 12)))
    else if ID_MARKER <= w then ParseInternal(f, w, Marker(GetField(w, 5, 5)))
    else if ID_REMOVE <= w then ParseInternal(f, w, Remove(GetField(w, 5, 12)))
    else if w == ERASED_WORD then Ok(Erased)
    else Ok(Partial)
  }

  /** The header of a user entry; `zeros` is the number of zeros in the last word of the value. */
  function BuildHeader(key: nat, length: nat, flipped: bool, zeros: nat): Result<Word, StoreError> {
    var w1 :- OrInvalid(SetId(ERASED_WORD, ID_HEADER));
    var w2 := if flipped then ClearBit(w1, 3) else w1;
    var w3 :- OrInvalid(SetField(w2, 4, 10, length));
    var w4 :- OrInvalid(SetField(w3, 14, 12, key));
    OrInvalid(SetChecksum(w4, HEADER_CHECKSUM, zeros))
  }

  function ClearBit(w: Word, i: nat): Word
    requires i < 32
  {
    w[i := false]
  }

  /** Sets the padding bit of the first word of an entry. */
  function SetPadding(w: Word): Word {
    ClearBit(w, 0)
  }

  /** Sets the deleted bit of the first word of a user entry. */
  function SetDeleted(w: Word): Word {
    ClearBit(w, 2)
  }

  // ---------------------------------------------------------------------------------------------
  // Built words read back, and every tearing of them is recognized

  lemma Pow2Values()
    ensures Pow2(5) == 32 && Pow2(6) == 64 && Pow2(9) == 512 && Pow2(10) == 1024 && Pow2(12) == 4096
            && Pow2(16) == 65536
  {
    assert Pow2(4) == 16 && Pow2(8) == 256;
    assert Pow2(12) == 4096;
    assert Pow2(14) == 16384;
  }

  lemma InitReads(init: InitInfo)
    requires init.cycle <= MAX_ERASE_CYCLE && init.prefix <= 256
    ensures BuildInit(init).Ok?
    ensures var w := BuildInit(init).value;
            && w != ERASED_WORD
            && GetChecksum(w, WORD_CHECKSUM) == Some(0)
            && GetField(w, 0, 16) == init.cycle
            && GetField(w, 16, 9) == init.prefix
  {
    hide Num, ToBits, Pow2, Zeros, SetField, SetChecksum;
    Pow2Values();
    var w0 := ERASED_WORD;
    SetFieldOnOnes(w0, 0, 16, init.cycle);
    var w1 := w0[..0] + ToBits(init.cycle, 16) + w0[16..];
    SetFieldOnOnes(w1, 16, 9, init.prefix);
    var w2 := w1[..16] + ToBits(init.prefix, 9) + w1[25..];
    assert forall i :: 27 <= i < 32 ==> w2[i] == w1[i] == w0[i];
    SealReads(w2);
    var w := BuildInit(init).value;
    assert w[0..16] == w2[..27][0..16] == ToBits(init.cycle, 16) == w1[0..16];
    assert w[16..25] == w2[..27][16..25] == ToBits(init.prefix, 9);
  }

  /** Setting the checksum of a word keeps its first 27 bits and leaves at least one zero. */
  lemma SealReads(w: Word)
    requires forall i :: 27 <= i < 32 ==> w[i]
    ensures SetChecksum(w, WORD_CHECKSUM, 0).Some?
    ensures var r := SetChecksum(w, WORD_CHECKSUM, 0).value;
            r != ERASED_WORD && r[..27] == w[..27] && GetChecksum(r, WORD_CHECKSUM) == Some(0)
  {
    Pow2Values();
    ZerosBound(w[..27]);
    SetChecksumReads(w, 27, 0);
    var r := SetChecksum(w, 27, 0).value;
    NumToBits(Zeros(w[..27]), 5);
    assert r[27..32] == ToBits(Zeros(w[..27]), 5);
    NumOnes(ERASED_WORD[27..32]);
  }

  /** Every word between the erased word and a page's init info is erased, partial or that info. */
  lemma TornInit(f: Format, init: InitInfo, u: Word)
    requires f.Supported() && init.cycle <= f.maxPageErases && init.prefix <= f.M()
    requires BuildInit(init).Ok? && Covers(u, BuildInit(init).value)
    ensures ParseInit(f, u) ==
            if u == ERASED_WORD then Ok(Erased)
            else if u == BuildInit(init).value then Ok(Valid(init))
            else Ok(Partial)
    ensures BuildInit(init).value != ERASED_WORD
  {
    f.SizeBounds();
    InitReads(init);
    ChecksumDetectsTearing(u, BuildInit(init).value, WORD_CHECKSUM);
  }

  lemma CompactReads(tail: nat)
    requires tail < 65536
    ensures BuildCompact(tail).Ok?
    ensures var w := BuildCompact(tail).value;
            && w != ERASED_WORD
            && GetChecksum(w, WORD_CHECKSUM) == Some(0)
            && GetField(w, 0, 16) == tail
  {
    hide Num, ToBits, Pow2, Zeros, SetField, SetChecksum;
    Pow2Values();
    var w0 := ERASED_WORD;
    SetFieldOnOnes(w0, 0, 16, tail);
    var w1 := w0[..0] + ToBits(tail, 16) + w0[16..];
    SealReads(w1);
    var w := BuildCompact(tail).value;
    assert w[0..16] == w1[..27][0..16] == w1[0..16];
  }

  /** Every word between the erased word and a compact info is erased, partial or that info. */
  lemma TornCompact(f: Format, tail: nat, u: Word)
    requires f.Supported() && tail < 65536
    requires BuildCompact(tail).Ok? && Covers(u, BuildCompact(tail).value)
    ensures ParseCompact(f, u) ==
            if u == ERASED_WORD then Ok(Erased)
            else if u != BuildCompact(tail).value then Ok(WordState.Partial)
            else if tail <= f.V() + f.M() then Ok(Valid(tail))
            else Err(InvalidStorage)
    ensures BuildCompact(tail).value != ERASED_WORD
  {
    CompactReads(tail);
    ChecksumDetectsTearing(u, BuildCompact(tail).value, WORD_CHECKSUM);
  }

  lemma SetIdOnErased(id: Bits)
    requires |id| <= 32
    ensures SetId(ERASED_WORD, id) == Some(id + ERASED_WORD[|id|..])
  {
    assert And(ERASED_WORD[..|id|], id) == id;
  }

  lemma InternalReads(e: InternalEntry)
    requires InternalValue(e) < Pow2(InternalLen(e))
    ensures BuildInternal(e).Ok?
    ensures var w := BuildInternal(e).value;
            && w != ERASED_WORD
            && GetChecksum(w, WORD_CHECKSUM) == Some(0)
            && InternalId(e) <= w
            && GetField(w, 5, InternalLen(e)) == InternalValue(e)
  {
    hide Num, ToBits, Pow2, Zeros, SetField, SetChecksum, SetId;
    var id, n, v := InternalId(e), InternalLen(e), InternalValue(e);
    var w0 := ERASED_WORD;
    SetIdOnErased(id);
    var w1: Word := id + w0[5..];
    SetFieldOnOnes(w1, 5, n, v);
    var w2: Word := w1[..5] + ToBits(v, n) + w1[5 + n..];
    assert forall i :: 27 <= i < 32 ==> w2[i] == w1[i] == w0[i];
    SealReads(w2);
    var w := BuildInternal(e).value;
    var p := w2[..27];
    assert w2[..5] == w1[..5] == id;
    assert p[..5] == w2[..5] && w[..5] == p[..5];
    assert w[5..5 + n] == p[5..5 + n] && p[5..5 + n] == w2[5..5 + n];
  }

  lemma InternalRangeFits(f: Format, e: InternalEntry)
    requires f.Supported() && InternalInRange(f, e)
    ensures InternalValue(e) < Pow2(InternalLen(e))
  {
    Pow2Values();
  }

  /** An identifier carried by a word that starts with two ones decides how the word is parsed. */
  lemma ParseByChecksum(f: Format, u: Word)
    requires f.Supported() && u[0] && u[1]
    requires GetChecksum(u, WORD_CHECKSUM).Some?
    ensures GetChecksum(u, WORD_CHECKSUM) != Some(0) && u != ERASED_WORD ==> ParseWord(f, u) == Ok(Partial)
    ensures u == ERASED_WORD ==> ParseWord(f, u) == Ok(Erased)
  {
    NotId(u, ID_PADDING, 0);
    NotId(u, ID_HEADER, 1);
    if u == ERASED_WORD {
      assert u[2];
      NotId(u, ID_ERASE, 2);
      NotId(u, ID_CLEAR, 2);
      NotId(u, ID_MARKER, 2);
      NotId(u, ID_REMOVE, 2);
    }
  }

  lemma InternalParses(f: Format, e: InternalEntry)
    requires f.Supported() && InternalInRange(f, e)
    ensures BuildInternal(e).Ok?
    ensures var w := BuildInternal(e).value;
            w[0] && w[1] && ParseWord(f, w) == Ok(Valid(InternalWord(e)))
  {
    hide Num, Pow2, Zeros, BuildInternal;
    InternalRangeFits(f, e);
    InternalReads(e);
    var w := BuildInternal(e).value;
    assert w[..5] == InternalId(e);
    assert w[0] == w[..5][0] && w[1] == w[..5][1] && w[2] == w[..5][2] && w[3] == w[..5][3] && w[4] == w[..5][4];
    NotId(w, ID_PADDING, 0);
    NotId(w, ID_HEADER, 1);
  }

  /**
   Every word between the erased word and an internal entry is erased, partial or that very entry,
   even when the torn word happens to carry the identifier of another kind of entry.
   */
  lemma TornInternal(f: Format, e: InternalEntry, u: Word)
    requires f.Supported() && InternalInRange(f, e)
    requires BuildInternal(e).Ok? && Covers(u, BuildInternal(e).value)
    ensures ParseWord(f, u) ==
            if u == ERASED_WORD then Ok(Erased)
            else if u == BuildInternal(e).value then Ok(Valid(InternalWord(e)))
            else Ok(Partial)
    ensures BuildInternal(e).value != ERASED_WORD
  {
    InternalRangeFits(f, e);
    InternalReads(e);
    InternalParses(f, e);
    var w := BuildInternal(e).value;
    assert u[0] && u[1];
    ChecksumDetectsTearing(u, w, WORD_CHECKSUM);
    ParseByChecksum(f, u);
  }

  /** The header before its checksum is set. */
  function HeaderBody(key: nat, length: nat, flipped: bool): (w: Word) {
    [true, false, true, !flipped] + ToBits(length, 10) + ToBits(key, 12) + Fill(true, 6)
  }

  lemma HeaderBodyIsBuilt(key: nat, length: nat, flipped: bool, zeros: nat)
    requires key <= MAX_KEY && length <= MAX_VALUE_LEN
    ensures BuildHeader(key, length, flipped, zeros)
         == OrInvalid(SetChecksum(HeaderBody(key, length, flipped), HEADER_CHECKSUM, zeros))
  {
    hide Num, ToBits, Pow2, Zeros, SetField, SetChecksum, SetId;
    Pow2Values();
    SetIdOnErased(ID_HEADER);
    var w1: Word := ID_HEADER + ERASED_WORD[2..];
    var w2: Word := if flipped then ClearBit(w1, 3) else w1;
    assert w2 == [true, false, true, !flipped] + Fill(true, 28);
    SetFieldOnOnes(w2, 4, 10, length);
    var w3: Word := [true, false, true, !flipped] + ToBits(length, 10) + Fill(true, 18);
    assert w3 == w2[..4] + ToBits(length, 10) + w2[14..];
    SetFieldOnOnes(w3, 14, 12, key);
    assert w3[..14] + ToBits(key, 12) + w3[26..] == HeaderBody(key, length, flipped);
  }

  lemma HeaderBodyReads(key: nat, length: nat, flipped: bool)
    requires key <= MAX_KEY && length <= MAX_VALUE_LEN
    ensures var w := HeaderBody(key, length, flipped);
            && w[0] && !w[1] && w[2] && w[3] == !flipped
            && GetField(w, 4, 10) == length
            && GetField(w, 14, 12) == key
            && forall i :: 26 <= i < 32 ==> w[i]
  {
    Pow2Values();
    NumToBits(length, 10);
    NumToBits(key, 12);
    var w := HeaderBody(key, length, flipped);
    assert w[4..14] == ToBits(length, 10);
    assert w[14..26] == ToBits(key, 12);
  }

  lemma HeaderReads(key: nat, length: nat, flipped: bool, zeros: nat)
    requires key <= MAX_KEY && length <= MAX_VALUE_LEN && zeros <= 32
    ensures BuildHeader(key, length, flipped, zeros).Ok?
    ensures var w := BuildHeader(key, length, flipped, zeros).value;
            && w[0] && !w[1] && w[2] && w[3] == !flipped
            && GetField(w, 4, 10) == length
            && GetField(w, 14, 12) == key
            && GetChecksum(w, HEADER_CHECKSUM) == Some(zeros)
  {
    hide Num, ToBits, Pow2, Zeros, SetField, HeaderBody;
    Pow2Values();
    var b := HeaderBody(key, length, flipped);
    HeaderBodyIsBuilt(key, length, flipped, zeros);
    HeaderBodyReads(key, length, flipped);
    HeaderZeros(b);
    SetChecksumReads(b, 26, zeros);
    var w := BuildHeader(key, length, flipped, zeros).value;
    assert w[..26] == b[..26];
    assert forall i :: 0 <= i < 4 ==> w[i] == w[..26][i] == b[i];
    assert w[4..14] == w[..26][4..14] == b[4..14];
    assert w[14..26] == w[..26][14..26] == b[14..26];
  }

  /** The zeros of a header fit its checksum with the 32 zeros that its footer may have. */
  lemma HeaderZeros(w: Word)
    requires w[0] && w[2]
    ensures Zeros(w[..26]) + 32 < 64
  {
    ZerosBound(w[..26]);
    assert w[..26] == w[..3] + w[3..26];
    ZerosConcat(w[..3], w[3..26]);
    ZerosBound(w[3..26]);
    assert Zeros(w[..3]) <= 1 by {
      assert w[..3] == [w[0]] + ([w[1]] + [w[2]]);
      ZerosConcat([w[0]], [w[1]] + [w[2]]);
      ZerosConcat([w[1]], [w[2]]);
      assert Zeros([w[0]]) == 0 && Zeros([w[2]]) == 0;
    }
  }

  /** A built header is parsed as that header. */
  lemma HeaderParses(f: Format, key: nat, length: nat, flipped: bool, zeros: nat)
    requires f.Supported() && key <= MAX_KEY && length <= MAX_VALUE_LEN && zeros <= 32
    ensures BuildHeader(key, length, flipped, zeros).Ok?
    ensures ParseWord(f, BuildHeader(key, length, flipped, zeros).value)
         == Ok(Valid(HeaderWord(Header(flipped, length, key, zeros))))
  {
    hide Num, ToBits, Pow2, Zeros, BuildHeader;
    HeaderReads(key, length, flipped, zeros);
    var w := BuildHeader(key, length, flipped, zeros).value;
    NotId(w, ID_PADDING, 0);
    assert w[..2] == ID_HEADER;
  }

  /**
   Every word between the erased word and the header of a user entry is erased, partial, or a header
   whose checksum increment is at least the intended one, exactly that one only for the intended
   header, and whose length is at least the intended one.
   */
  lemma TornHeaderWord(f: Format, w: Word, u: Word)
    requires f.Supported() && Covers(u, w)
    requires ParseWord(f, w).Ok? && ParseWord(f, w).value.Valid? && ParseWord(f, w).value.value.HeaderWord?
    ensures var h, p := ParseWord(f, w).value.value.header, ParseWord(f, u);
            && p.Ok?
            && (p.value.Erased? <==> u == ERASED_WORD)
            && (p.value.Valid? ==> p.value.value.HeaderWord?)
            && (p.value.Valid? ==>
                  var h' := p.value.value.header;
                  h'.length >= h.length && h'.checksum >= h.checksum && h'.key <= MAX_KEY
                  && (h'.checksum == h.checksum <==> u == w))
  {
    hide Num, ToBits, Pow2, Zeros;
    assert w[..2] == ID_HEADER && w[0] == w[..2][0];
    assert u[0] && u[2];
    ChecksumDetectsTearing(u, w, HEADER_CHECKSUM);
    CoversSlice(u, w, 4, 14);
    NumMonotone(u[4..14], w[4..14]);
    NumBound(u[14..26]);
    Pow2Values();
    NotId(u, ID_PADDING, 0);
    NotId(u, ID_ERASE, 2);
    NotId(u, ID_CLEAR, 2);
    NotId(u, ID_MARKER, 2);
    NotId(u, ID_REMOVE, 2);
    if u[1] {
      NotId(u, ID_HEADER, 1);
    } else {
      assert u[..2] == ID_HEADER;
    }
  }

  /** The same for a header that was built. */
  lemma TornHeader(f: Format, key: nat, length: nat, flipped: bool, zeros: nat, u: Word)
    requires f.Supported() && key <= MAX_KEY && length <= MAX_VALUE_LEN && zeros <= 32
    requires BuildHeader(key, length, flipped, zeros).Ok?
    requires Covers(u, BuildHeader(key, length, flipped, zeros).value)
    ensures var p := ParseWord(f, u);
            && p.Ok?
            && (p.value.Erased? <==> u == ERASED_WORD)
            && (p.value.Valid? ==> p.value.value.HeaderWord?)
            && (p.value.Valid? ==>
                  var h := p.value.value.header;
                  h.length >= length && h.checksum >= zeros && h.key <= MAX_KEY
                  && (h.checksum == zeros <==> u == BuildHeader(key, length, flipped, zeros).value))
            && (u == BuildHeader(key, length, flipped, zeros).value ==>
                  p == Ok(Valid(HeaderWord(Header(flipped, length, key, zeros)))))
  {
    hide ParseWord, BuildHeader;
    HeaderParses(f, key, length, flipped, zeros);
    TornHeaderWord(f, BuildHeader(key, length, flipped, zeros).value, u);
  }

  /** A padded word parses as one word of padding, whatever it held. */
  lemma PaddingParses(f: Format, w: Word)
    requires f.Supported()
    ensures ParseWord(f, SetPadding(w)) == Ok(Valid(PaddingWord(0)))
    ensures ParseWord(f, ZERO_WORD) == Ok(Valid(PaddingWord(0)))
    ensures !w[0] ==> ParseWord(f, w) == Ok(Valid(PaddingWord(0)))
  {
    assert SetPadding(w)[..1] == ID_PADDING;
    assert ZERO_WORD[..1] == ID_PADDING;
    assert !w[0] ==> w[..1] == ID_PADDING;
  }

  /** Deleting a user entry turns it into padding of the same extent. */
  lemma DeletedParses(f: Format, w: Word)
    requires f.Supported()
    requires ParseWord(f, w).Ok? && ParseWord(f, w).value.Valid? && ParseWord(f, w).value.value.HeaderWord?
    requires ParseWord(f, w).value.value.header.length <= f.MaxValueLen()
    ensures ParseWord(f, SetDeleted(w)) ==
            Ok(Valid(PaddingWord(BytesToWords(ParseWord(f, w).value.value.header.length))))
  {
    var d := SetDeleted(w);
    assert w[..2] == ID_HEADER;
    assert d[..2] == w[..2];
    assert d[4..14] == w[4..14];
    NotId(d, ID_PADDING, 0);
  }
}
