# The persistent store, the codec and the protocols of a security key

OpenSK is the firmware of a FIDO2 security key. This project models the parts of it that keep state or
transform data, and proves what they are meant to guarantee.

- The **persistent store** is a map from keys to values over flash pages. It writes a log of entries into a
  window of pages, compacts the first page of the window when it needs room, and recovers whatever an
  interruption leaves. `Words`, `Format` and `Entries` describe words with checksums, the formats and the
  entries; `Flash`, `Log`, `Parsing`, `States` and `Storage` the pages, the log that they hold and the flash
  operations, which may be interrupted and count how often they write and erase; `Appending`, `Contents`,
  `Stages`, `Transactions`, `StoreUpdates`, `SortedKeys`, `Wiping` and `Initializing` what the operations do to
  the log; `Recovering`, `Compaction`, `Migration`, `Phases`, `Searching` and `Booting` what interruptions leave
  and how it is recovered; `Capacity` the room and when compaction makes enough of it; `Endurance` and
  `Lifetime` how the flash wears out; `Model` the map that the store refines; `Store` the store itself,
  `Driver` whole runs of it and `Checking` the comparison with the model. `Overflow` and `Growing` follow a log
  through compactions; `Scenarios`, `Overfull`, `Overlooked` and `Unwiped` are runs that show what the store may
  come to.
- The **CBOR codec** (`CborValues`, `CborWriter`, `CborReader`, `CborMaps`) writes and reads values canonically.
- The **cryptography** is AES-256 (`Field`, `Blocks`, `Cipher`, `Aes`, `KeySchedule`), block chaining (`Cbc`),
  SHA-256 (`Sha`) and its message authentication (`Hmac`).
- The **authenticator** uses them for credential IDs (`Credentials`), the PIN (`Pin`), the slots of its
  credentials (`Residents`), the enumeration of assertions (`Assertions`) and the packets of its messages
  (`Hid`); `Ctap` holds what these share.

## How the store is described

A *view* is what the flash holds: the first page of the window, the entries with their positions and words, the
tail, and for each page in use the entry that its init info points to. `Steady` relates a view to the flash.
`AtRest` adds that no operation is under way. Every method of the store takes the view as a ghost argument and
says which view it leaves. When an operation is interrupted, the flash is in a *phase* (`InPhase`), and
`Promise` is the map that the phase stands for; a phase is left by an operation, a compaction or a recovery that
is interrupted in turn. Crash atomicity is that every interrupted operation promises the map before or after it,
and that every recovery, complete or not, keeps the promise.

The flash is a `BufferStorage` whose next operations may be armed to be interrupted. The predicate
`Undisturbed` in every contract says that nothing is interrupted that is not armed. So the results are exact:
without interruption, an operation on any store at rest returns `Forecast`, which checks the capacity as a scan of
the log sees it and then follows the compactions one by one. `Model.ForeseenAgrees` compares this with the model:
the results are the same, but for failures of the flash, exactly if the operation is not `Overdrawn`, that is,
accepted although it needs more words than the capacity has. A view is *lean* as long as that never happened. No
log within the virtual capacity allows it, and transactions and clears keep a log within the virtual capacity.

## What the proofs show about the code

- **Compaction may lose a store.** Compacting a page without wasted words makes the distance between head and
  tail one word longer, and `compact` records distances that `parse_compact`
  (`libraries/persistent_store/src/format.rs:356-368`) then refuses, because they are more than `V + M`. In every
  format with `C > (M + 1) * (Q - 1)` and at least one erase cycle, for instance with pages of 32 bytes and 11 to
  64 of them, a store on an erased flash gets there by insertions, removals and clears, with one `prepare` if there
  are only `Q + 4` pages; nothing is interrupted, and the model accepts all of them (`Overfull.LoseStore`).
  From then on every recovery returns `InvalidStorage` and leaves the flash as it is. In all other formats no
  history gets there (`Overfull.NotLost`), nor any run, with or without interruptions, unless an operation is
  overdrawn (`Driver.Run`, `Driver.InterruptedRun`).
- **Scans stop at the virtual capacity.** `capacity`, `find`, `iter` and what uses them only look up to `head + V`.
  The used capacity is exact if and only if every live entry starts before that (`Store.Store.GetCapacity`), and
  `find` returns a value if and only if the entry for its key does (`Store.Store.Find`). This holds for logs within
  the virtual capacity, after any transaction or clear that makes room, and after one compaction
  (`Capacity.NextScannable`), but not after two calls of `prepare` in a row, nor after an interruption inside the
  loop of `reserve` or `clear` that compacts pages. `Overlooked.Overlook` is such a run: a key that was inserted is
  not found. The undercounted capacity also lets an insertion through that the model refuses. Once more words are
  used than the capacity has and a scan sees them, `remaining` (`libraries/persistent_store/src/store.rs:112-114`)
  wraps around in 32 bits, and then every operation is accepted as far as the capacity goes.
- **A rollback does not wipe padding.** Recovery wipes all deleted values that it comes across, but
  `recover_transaction` skips padding after the marker of a transaction that it rolls back
  (`libraries/persistent_store/src/store.rs:529-545`). `Wiping.Rinsed`, in the contract of
  `Store.Store.RecoverOperation`, says exactly when a deleted value stays in the flash. It takes two interruptions:
  from a clean log within the virtual capacity, one complete recovery after one interruption leaves it clean
  (`Driver.PartialApply`); `Unwiped.LeaveUnwiped` interrupts the rollback of a transaction once more, after which a
  complete recovery leaves the value, and only the next one wipes it.
- **`NoLifetime` may come late.** `reserve` may compact some pages before it finds one without erase cycles left.
  The map is the same, and the result is still exactly as forecast.
- **A creation order may come twice**, but only after 2^64 credentials (`Residents.NextIsNew`).
- The internal errors of the store that no flash written by it leads to (in `is_write_needed`, `compact_copy`,
  `parse_entry`) and those of the slot search are unreachable; this is part of the contracts.

## Model

| member | source | states |
|---|---|---|
| `Words.ChecksumDetectsTearing` | libraries/persistent_store/src/lib.rs:297-335 | Any word between the erased word and a word with a checksum reads an increment that is at least that of the word, and equal to it only for the word itself. |
| `Format.Format.VirtSizeLowerBound` | libraries/persistent_store/src/format.rs:266-279 | The subtractions in the virtual size and in the total capacity never go below zero: there is at least one word for each page, in every supported format. |
| `Format.InitReads` | libraries/persistent_store/src/format.rs:338-344 | The init info of every cycle and prefix in range is built; the word holds both in their fields and has a checksum of zero. |
| `Format.TornInit` | libraries/persistent_store/src/format.rs:322-335 | Every word between the erased word and an init info parses as erased, as torn, or as exactly that info. |
| `Format.CompactReads` | libraries/persistent_store/src/format.rs:371-376 | Every distance below 65536 is built; the word holds the distance in its field and has a checksum of zero. |
| `Format.TornCompact` | libraries/persistent_store/src/format.rs:356-368 | Every word between the erased word and a compact info parses as erased only if it is the erased word, as torn if it is not complete, and otherwise as that distance, which is refused if it is more than `V + M`. |
| `Phases.CompactReadBack` | libraries/persistent_store/src/format.rs:356-368 | The compact info of a page being compacted is read back as the distance that it recorded if that is at most `V + M`, and is refused otherwise. |
| `Format.InternalReads` | libraries/persistent_store/src/format.rs:379-401 | Every internal entry in range is built; the word holds its identifier and value in their fields and has a checksum of zero. |
| `Format.TornInternal` | libraries/persistent_store/src/format.rs:379-459 | Every word between the erased word and an internal entry parses as erased, as torn, or as exactly that entry, whatever identifier it happens to carry. |
| `Format.TornHeader` | libraries/persistent_store/src/format.rs:404-482 | Every word between the erased word and the header of a user entry parses as erased only if it is the erased word, and otherwise as torn or as a header whose length and checksum are at least those of that header, the checksum being the same for that header only. |
| `Entries.BuildUserReads` | libraries/persistent_store/src/format.rs:462-482 | The words of every entry in range are one more than those of the value; they parse as that entry, and the value is read back byte for byte, including one whose last word is all ones. |
| `Entries.TornUserFirstPhase` | libraries/persistent_store/src/store.rs:373-389 | What an interrupted write of all words but the last leaves, up to its last word that is not erased, is a torn entry, unless it is the complete entry. |
| `Entries.TornUserSecondPhase` | libraries/persistent_store/src/store.rs:373-389 | What an interrupted write of the last word leaves is a partial user entry, unless it is the complete entry. |
| `Storage.BufferStorage.Tick` | libraries/persistent_store/src/buffer.rs:461-473 | The operation after the armed delay is interrupted, and no other. |
| `Storage.BufferStorage.Write` | libraries/persistent_store/src/buffer.rs:310-329 | Exactly the given words are written and each changed word is counted once; an interrupted write changes any subset of the bits that it was to change. A write is interrupted only when that is armed. |
| `Storage.BufferStorage.Erase` | libraries/persistent_store/src/buffer.rs:331-343 | All words of the page are erased, its word counters start again and its erasure is counted; an interrupted erasure sets any subset of the bits. |
| `Storage.BufferStorage.StorageWriteSlice` | libraries/persistent_store/src/store.rs:1009-1031 | The words are written, or nothing happens at all when they are already there. |
| `Store.Store.WriteSlice` | libraries/persistent_store/src/store.rs:993-1003 | The words are written across at most two pages; an interruption leaves each of them torn on its way. |
| `Store.Store.ReadSlice` | libraries/persistent_store/src/store.rs:957-968 | Reads the words of the virtual storage across at most two pages. |
| `Store.Store.GetExtremumPageHead` | libraries/persistent_store/src/store.rs:832-846 | Returns the least or greatest position that a valid init info points to. |
| `Store.Store.Head` | libraries/persistent_store/src/store.rs:856-858 | Returns the position where the log starts. |
| `Store.Store.Tail` | libraries/persistent_store/src/store.rs:861-870 | Returns the position where the log ends. |
| `States.StandingParse` | libraries/persistent_store/src/store.rs:875-912 | On the flash of a store, parsing goes through the entries of the log one by one and stops at its tail. |
| `Store.Store.InitPage` | libraries/persistent_store/src/store.rs:783-804 | Writes the init info of the page that an entry is the first to use, and nothing else; once it is there, nothing changes. |
| `Store.Store.SetPadding` | libraries/persistent_store/src/store.rs:807-812 | A one-word entry becomes padding, or nothing changes. |
| `Store.Store.SetDeleted` | libraries/persistent_store/src/store.rs:815-820 | A user entry becomes padding of the same extent, or nothing changes. |
| `Store.Store.WipeEntry` | libraries/persistent_store/src/store.rs:823-826 | All words of an entry after the first become zero; an interruption leaves the entry what it was. |
| `Store.Store.DeletePos` | libraries/persistent_store/src/store.rs:771-775 | A user entry is deleted and wiped; an interruption leaves it or leaves padding of the same extent. |
| `Store.Store.DeleteKeys` | libraries/persistent_store/src/store.rs:754-768 | Exactly the user entries for the keys, up to a position, are deleted and wiped; an interruption leaves some of them. |
| `Store.Store.InsertInit` | libraries/persistent_store/src/store.rs:639-643 | Deletes the former entry for the key; the map stays the same, however it is interrupted. |
| `Store.Store.ClearDelete` | libraries/persistent_store/src/store.rs:730-751 | Completes a clear; the map that the log stands for stays the same, however it is interrupted. |
| `Store.Store.TransactionApply` | libraries/persistent_store/src/store.rs:710-727 | Completes a committed transaction; the map that the log stands for stays the same, however it is interrupted. |
| `Store.Store.Insert` | libraries/persistent_store/src/store.rs:373-389 | On every store at rest: the map gets the value. Errors leave it as it is; an interruption leaves it before or after. Without interruption the result is exactly the forecast one: `NoCapacity` exactly when the entry needs more words than a scan sees remaining. After the compactions that are needed, the log is the one before with the entry appended and the former entry deleted; deleted values stay wiped, or are wiped by the next recovery, and the wear stays as it should be. |
| `Store.Store.RemoveKey` | libraries/persistent_store/src/store.rs:394-400 | The same for a removal, which needs no room: entries become padding, and nothing else changes. |
| `Store.Store.ApplyTransaction` | libraries/persistent_store/src/store.rs:253-302 | On every store at rest: all updates are applied to the map or none is, with the exact result, and the same guarantees as an insertion. |
| `Store.Store.TransactionValid` | libraries/persistent_store/src/format.rs:526-547 | Returns the sorted keys of the updates exactly when there are at most 31, each is valid and no two are for the same key. |
| `Store.Store.Clear` | libraries/persistent_store/src/store.rs:307-323 | All keys from the threshold on are removed from the map or none is, with the same guarantees; it never lacks capacity. |
| `Store.Store.PrepareFor` | libraries/persistent_store/src/store.rs:329-337 | On every store at rest: the map stays the same, and one page is compacted exactly when the words are not immediately available. Returns `NoCapacity` exactly when they are more than a scan sees remaining. |
| `Store.Store.Apply` | libraries/persistent_store/src/store.rs:1091-1112 | On every store at rest, every operation ends in its effect on the map or, on an error, in the map before; an interruption leaves a state that stands for one of both, which one recovery leaves wiped if the log was. Without interruption the result is the forecast one. |
| `Store.Store.GetCapacity` | libraries/persistent_store/src/store.rs:217-232 | The used capacity is the words of the live entries that start before `head + V`, which are all used words if and only if every live entry does. |
| `Store.Store.Find` | libraries/persistent_store/src/store.rs:351-356 | On every store at rest: returns the value of the key in the map if its entry starts before `head + V`, and nothing otherwise. |
| `Store.StoreIter.Next` | libraries/persistent_store/src/store.rs:1199-1220 | Returns the next user entry of the log and skips none. |
| `Compaction.CompactionFits` | libraries/persistent_store/src/lib.rs:203-250 | The copies of a compaction and its erase entry fit before the page being compacted comes again. |
| `Contents.TightIsRoomy` | libraries/persistent_store/src/lib.rs:203-250 | For a log within the virtual capacity that uses at most the total capacity, the tail stays within its window over the next `N - 1` compactions: `t + |h_i| - |h| + i <= (I + i + N - 1) * Q` for each of them. |
| `Compaction.CompactedRoomy` | libraries/persistent_store/src/lib.rs:203-250 | These bounds are kept by a compaction. |
| `Capacity.EnoughCompactions` | libraries/persistent_store/src/lib.rs:252-288 | Once all pages of the initial window are compacted, the remaining capacity and one more word are immediately available. |
| `Store.Store.CompactFor` | libraries/persistent_store/src/store.rs:628-636 | Compacts pages until the words are immediately available, and the map is the same; within the capacity, after at most `N - 1` compactions. The only other results, without interruption, are the one for a page without erase cycles left and the one for a distance that is refused, exactly as forecast. |
| `Store.Store.Reserve` | libraries/persistent_store/src/store.rs:628-636 | Returns `NoCapacity` exactly when the words are more than a scan sees remaining; otherwise makes room, as forecast. |
| `Store.Store.Compact` | libraries/persistent_store/src/store.rs:646-658 | The first page is erased and its live entries are at the end of the log; the map is the same. Returns `NoLifetime` exactly when the page has no erase cycle left. An interruption leaves a state that stands for the same map. |
| `Store.Store.CompactCopy` | libraries/persistent_store/src/store.rs:661-693 | Completes a compaction from any point of its copying; fails at once, and changes nothing, exactly when the recorded distance is refused. |
| `Store.Store.CompactErase` | libraries/persistent_store/src/store.rs:696-707 | Completes a compaction from its erase entry on, however much of the page is erased. |
| `Store.Store.RecoverInitialize` | libraries/persistent_store/src/store.rs:432-446 | Initializes a flash that is erased but for a torn first init info, and never one that is in use. |
| `Store.Store.RecoverErase` | libraries/persistent_store/src/store.rs:449-463 | Completes a compaction whose erase entry is written, and finds that there is one exactly then. |
| `Store.Store.RecoverCompaction` | libraries/persistent_store/src/store.rs:466-473 | Completes or starts again a compaction; returns `InvalidStorage` exactly when its distance is refused, and then again each time, with the flash unchanged. |
| `Store.Store.RecoverOperation` | libraries/persistent_store/src/store.rs:476-514 | Completes or rolls back the interrupted operation: the store is at rest with the map that the log stood for. Says exactly which deleted values are wiped. |
| `Store.Store.RecoverTransaction` | libraries/persistent_store/src/store.rs:517-558 | Applies a transaction whose updates are all written, and rolls back any other. |
| `Store.Store.Recover` | libraries/persistent_store/src/store.rs:342-348 | From every state that any interruption leaves, including that of a recovery: the store is at rest with the map that the state stands for. Without interruption it only fails, with `InvalidStorage`, when the recorded distance of a compaction is refused. |
| `Model.StoreModel.Apply` | libraries/persistent_store/src/model.rs:71-77 | The model changes its map as the specification function says, and keeps it within the capacity. |
| `Model.StoreModel.GetCapacity` | libraries/persistent_store/src/model.rs:80-89 | The used capacity is the sum of the words of all entries. |
| `Model.ContentWords` | libraries/persistent_store/src/driver.rs:510-518 | The words of the live entries of a log are those of its map, so that both capacities are the same. |
| `Model.ForeseenAgrees` | libraries/persistent_store/src/driver.rs:348-359 | Within the capacity, the result of an operation is that of the model, or a failure of the flash, if and only if the operation is not accepted beyond the capacity. |
| `Model.NotOverdrawn` | libraries/persistent_store/src/store.rs:628-636 | Nothing beyond the capacity is accepted as long as a scan sees all live entries. |
| `Driver.Open` | libraries/persistent_store/src/store.rs:197-207 | Opening a flash gives a store at rest with the map that the flash stands for; an erased flash gives the empty store. |
| `Driver.PartialApply` | libraries/persistent_store/src/driver.rs:362-407 | Crash atomicity on every store at rest: an operation that may be interrupted at any point, then recovered with any number of interruptions, leaves the map before or after it, and a store at rest unless the distance of a compaction is refused. The log is within the virtual capacity if it was where the operation stopped, and otherwise longer by at most a bound. After one interruption, a log that was clean and within the virtual capacity is clean again. |
| `Driver.Run` | libraries/persistent_store/src/driver.rs:348-359 | In every run without interruption, from any store at rest: each result is exactly as forecast from the log, and that of the model if and only if the operation is not accepted beyond the capacity; the map is that of the operations that succeeded. Transactions and clears from a log within the virtual capacity stay there and agree with the model. Deleted values stay wiped. `InvalidStorage` takes a format that overflows or an operation beyond the capacity. |
| `Driver.PowerCycles` | libraries/persistent_store/src/driver.rs:262-268 | From an erased flash and over any number of sessions with power cycles between them: the map is that of the operations that succeeded, all deleted values are wiped, and the flash is worn exactly as the log tells. Sessions of transactions and clears agree with the model. |
| `Driver.InterruptedRun` | libraries/persistent_store/src/driver.rs:271-407 | From an erased flash and over any number of operations, each interrupted at any point or not and recovered with any number of interruptions: every operation took effect or not, one that succeeds did and one that is refused did not, and the map is that of the ones that did. Results without interruption are exactly as forecast. The log is never longer than the virtual capacity by more than a bound, and stays within it when no page has to be compacted. The run ends early only with a distance that is refused, which takes a format that overflows or an operation beyond the capacity. |
| `Checking.CheckModel` | libraries/persistent_store/src/driver.rs:487-520 | On every store at rest: going through the entries and comparing each with the model, then the capacities, finds no difference if and only if the model holds the part of the map whose entries start before `head + V`, which is the whole map if and only if all of them do. |
| `Lifetime.CheckStorage` | libraries/persistent_store/src/driver.rs:523-590 | In every run without interruption: each page was erased once for each of its cycles and never more often than allowed, its init info was written once if it is in use, its compact info is unwritten, no word was written more than twice since its page was erased, and none at all from the tail on. |
| `Overfull.LoseStore` | libraries/persistent_store/src/store.rs:646-707 | In every format with erase cycles and `C > (M + 1) * (Q - 1)`, a history of operations on an erased flash, which all succeed without any interruption, leads to a store at rest that refuses an operation with `InvalidStorage` although the model accepts it; from then on every recovery is refused too. |
| `Overfull.NotLost` | libraries/persistent_store/src/store.rs:646-707 | In no other format is there such a history. |
| `Overlooked.Overlook` | libraries/persistent_store/src/store.rs:217-232 | In every format with `3 * Q < C <= 4096` and erase cycles: a history of operations on an erased flash, which all succeed without any interruption, after which a key of the map is not found, and an insertion that the model refuses for lack of capacity is not refused for that. |
| `Unwiped.LeaveUnwiped` | libraries/persistent_store/src/store.rs:529-545 | In every format with `C >= 4`: from the state where a transaction on a new store stopped before its second update, and the state where its rollback then stopped after marking the first update as deleted, a complete recovery leaves the deleted value in the flash, and the next one wipes it. |
| `CborValues.CompareTotal` | libraries/cbor/src/values.rs:100-114 | The key order is a strict total order: exactly one of less, equal and greater holds, and equal keys are the same. |
| `CborValues.CompareTransitive` | libraries/cbor/src/values.rs:100-114 | The key order is transitive. |
| `CborMaps.OrderIsCanonical` | libraries/cbor/src/values.rs:100-114 | A key is less than another exactly when its encoding is less in bytewise lexicographic order (section 4.2.1 of RFC 8949). |
| `CborWriter.Writer.AppendStart` | libraries/cbor/src/writer.rs:75-89 | Appends the start of an item: its type and its size in the fewest bytes. |
| `CborWriter.Writer.EncodeCbor` | libraries/cbor/src/writer.rs:34-73 | Appends the encoding of the value, and tells whether it is nested within the limit. |
| `CborWriter.Write` | libraries/cbor/src/writer.rs:18-21 | Appends the encoding of the value. |
| `CborReader.WrittenReads` | libraries/cbor/src/reader.rs:59-213 | Every well-formed value within the nesting limit is read back from its encoding followed by any bytes, which are left over. |
| `CborReader.ReadWrites` | libraries/cbor/src/reader.rs:59-213 | Whatever is read is a well-formed value whose encoding is exactly the bytes that were consumed. |
| `CborReader.ReadIffWritten` | libraries/cbor/src/reader.rs:37-44 | A byte string is accepted as a value exactly when the writer writes that value as that byte string. |
| `CborReader.Read` | libraries/cbor/src/reader.rs:37-44 | The reader, run with its loops over the remaining bytes, accepts exactly what the writer writes. |
| `CborMaps.Peekable.PeekValue` | libraries/cbor/src/macros.rs:102-124 | Returns the value of the key in the map and moves past the keys that are not greater. |
| `CborMaps.Destructure` | libraries/cbor/src/macros.rs:64-100 | For increasing keys, the single pass gives each key what a lookup in the map gives it. |
| `Field.Product9` | libraries/crypto/src/aes256.rs:221-223 | `mul9` is the product with 9 in the field of section 4.2 of FIPS 197, for every byte. |
| `Field.Product14` | libraries/crypto/src/aes256.rs:236-238 | `mul14` is the product with 14 in the field, for every byte. |
| `Field.Product13` | libraries/crypto/src/aes256.rs:231-233 | `mul13` is the product with 13 in the field, for every byte. |
| `Field.Product11` | libraries/crypto/src/aes256.rs:226-228 | `mul11` is the product with 11 in the field, for every byte. |
| `Aes.MixColumns` | libraries/crypto/src/aes256.rs:207-218 | Rewrites the block into its mixed columns, as products in the field. |
| `Aes.InvMixColumns` | libraries/crypto/src/aes256.rs:240-251 | Rewrites the block into its unmixed columns, as products in the field. |
| `Aes.ShiftRows` | libraries/crypto/src/aes256.rs:163-178 | Rewrites the block with its rows rotated. |
| `Aes.InvShiftRows` | libraries/crypto/src/aes256.rs:180-195 | Rewrites the block with its rows rotated back. |
| `Cipher.MixInverse` | libraries/crypto/src/aes256.rs:207-251 | Mixing and unmixing columns undo each other. |
| `Cipher.InvMixLinear` | libraries/crypto/src/aes256.rs:240-251 | Unmixing columns is linear. |
| `KeySchedule.RconIsPower` | libraries/crypto/src/aes256.rs:31-58 | The table of round constants holds the powers of two in the field, starting from 1. |
| `KeySchedule.EncryptionKey.constructor` | libraries/crypto/src/aes256.rs:33-56 | The round keys are those of the key expansion of section 5.2 of FIPS 197. |
| `KeySchedule.DecryptionKey.constructor` | libraries/crypto/src/aes256.rs:72-84 | The decryption round keys are the encryption ones in reverse, unmixed but for the first and the last. |
| `KeySchedule.EncryptionKey.EncryptBlock` | libraries/crypto/src/aes256.rs:61-67 | Rewrites the block into its encryption. |
| `KeySchedule.DecryptionKey.DecryptBlock` | libraries/crypto/src/aes256.rs:89-95 | Rewrites the block into its decryption by the equivalent inverse cipher. |
| `Cipher.DecryptIsInvCipher` | libraries/crypto/src/aes256.rs:69-96 | The equivalent inverse cipher with the transformed keys is the inverse cipher (section 5.3.5 of FIPS 197). |
| `Cipher.DecryptEncrypt` | libraries/crypto/src/aes256.rs:59-96 | Decryption undoes encryption, for all round keys and blocks. |
| `Cipher.EncryptDecrypt` | libraries/crypto/src/aes256.rs:59-96 | Encryption undoes decryption, for all round keys and blocks. |
| `Cbc.DecryptedEncrypted` | libraries/crypto/src/cbc.rs:18-39 | For every block cipher with an inverse, chained decryption undoes chained encryption over any number of blocks. |
| `Cbc.EncryptedDecrypted` | libraries/crypto/src/cbc.rs:18-39 | The same the other way round. |
| `Cbc.CbcEncrypt` | libraries/crypto/src/cbc.rs:18-27 | Rewrites all blocks in place into their chained encryption. |
| `Cbc.CbcDecrypt` | libraries/crypto/src/cbc.rs:29-39 | Rewrites all blocks in place into their chained decryption. |
| `Sha.HashBlockInPlace` | libraries/crypto/src/sha256.rs:104-148 | Rewrites the state as section 6.2.2 of FIPS 180-4 says. |
| `Sha.Sha256.Update` | libraries/crypto/src/sha256.rs:37-65 | The message grows by the contents, whatever is in the buffer after it. |
| `Sha.Sha256.Finalize` | libraries/crypto/src/sha256.rs:67-97 | Returns the hash of the message: the fold over the blocks of the padded message. |
| `Sha.HashPieces` | libraries/crypto/src/sha256.rs:37-97 | However a message is cut into pieces, its hash is that of the whole message. |
| `Sha.PaddingIsStandard` | libraries/crypto/src/sha256.rs:67-97 | For messages under 2^61 bytes, the padding is that of section 5.1.1 of FIPS 180-4: a one bit, the fewest zero bits, and the length in bits. |
| `Hmac.Authenticate` | libraries/crypto/src/hmac.rs:40-62 | Returns the code of RFC 2104, also for keys longer than a block. |
| `Hmac.Verify` | libraries/crypto/src/hmac.rs:22-28 | Accepts exactly the code of the message. |
| `Hmac.VerifyFirst` | libraries/crypto/src/hmac.rs:32-38 | Accepts exactly the first 16 bytes of the code. |
| `Credentials.EncryptKeyHandle` | src/ctap/mod.rs:230-257 | Returns the credential ID of 112 bytes for the private key and the relying party, or an error if the stored master keys are malformed. |
| `Credentials.DecryptCredentialSource` | src/ctap/mod.rs:262-312 | Returns the credential of an ID for a relying party, if it is authentic and for it. |
| `Credentials.OpenedCredentialId` | src/ctap/mod.rs:230-312 | An ID gives the private key back to its relying party, and nothing to any other. |
| `Credentials.OpenedExactly` | src/ctap/mod.rs:230-312 | The IDs that are accepted for a relying party are exactly those that are made for it. |
| `Pin.PersistentStore.DecrPinRetries` | src/ctap/storage.rs:336-343 | One retry less is stored, but never less than none. |
| `Pin.PinProtocol.VerifyPinHashEnc` | src/ctap/pin_protocol_v1.rs:200-240 | Succeeds only for the PIN hash; a retry is used before the comparison, all are given back by a success, and the result tells exactly why it fails. |
| `Pin.PinProtocol.CheckAndStoreNewPin` | src/ctap/pin_protocol_v1.rs:136-156 | Stores the hash of a PIN of 4 to 63 bytes, and of no other. |
| `Pin.PinProtocol.ProcessSetPin` | src/ctap/pin_protocol_v1.rs:282-297 | Sets the PIN of an authentic request when there is none, and only then. |
| `Pin.PinProtocol.ProcessChangePin` | src/ctap/pin_protocol_v1.rs:299-320 | Replaces the PIN and the token for who knows the PIN, and not without retries. |
| `Pin.PinProtocol.ProcessGetPinToken` | src/ctap/pin_protocol_v1.rs:322-359 | Encrypts the token for who knows the PIN, and not without retries. |
| `Pin.PinProtocol.ProcessSubcommand` | src/ctap/pin_protocol_v1.rs:470-564 | Answers each command as specified, keeps the accounting of attempts, and stays blocked without retries. |
| `Pin.SetPinAndGetToken` | src/ctap/pin_protocol_v1.rs:282-356 | A platform that sets a PIN on an authenticator without one gets its token with that PIN. |
| `Pin.Run` | src/ctap/pin_protocol_v1.rs:200-359 | Over every run of commands, failing writes and power cuts: at most 8 comparisons fail in a row, at most 3 between two power cuts, failures since the last success and remaining retries are at most 8, and without retries no command that needs the PIN ever succeeds again. |
| `Pin.FailuresAreLast` | src/ctap/storage.rs:327-348 | The failures counted are exactly the attempts after the last success. |
| `Residents.CredentialStore.NewCreationOrder` | src/ctap/storage.rs:249-255 | Returns one more than the greatest creation order, in 64 bits, and 1 when there is none. |
| `Residents.NextIsNew` | src/ctap/storage.rs:249-255 | The next creation order is a new one exactly unless both the last order of 64 bits and 0 are taken. |
| `Residents.CredentialStore.StoreCredential` | src/ctap/storage.rs:155-202 | Replaces the credential of the same user, or takes the first free slot; turns down a new user exactly when all 150 slots are taken; reports entries that cannot be its own, and then changes nothing. |
| `Residents.CredentialStore.FilterCredential` | src/ctap/storage.rs:207-226 | Returns exactly the credentials of the relying party that may be used, each once. |
| `Residents.Run` | src/ctap/storage.rs:155-202 | In every run of new credentials and resets, with failing writes, slots and creation orders are distinct, there is one credential for each user at most, the internal errors are never returned, and only a new user is turned down, by a full store that stays the same. |
| `Assertions.CtapState.ProcessGetAssertion` | src/ctap/mod.rs:704-819 | Gets the assertion of the most recent applicable credential and keeps the others, or says why not; when the request is turned down, no enumeration is pending. |
| `Assertions.CtapState.ProcessGetNextAssertion` | src/ctap/mod.rs:821-839 | Gets the assertion of the most recent credential that is left, while that is allowed. |
| `Assertions.CtapState.ProcessCommand` | src/ctap/mod.rs:314-387 | Commands other than those of an enumeration, and asking for information, end it; so does a new request for an assertion, which leaves another one pending only if it is not turned down. |
| `Assertions.RankingUnique` | src/ctap/mod.rs:776-790 | There is one order of the applicable credentials only. |
| `Assertions.Enumerate` | src/ctap/mod.rs:704-839 | After a successful assertion of the first of n credentials, the next commands get the other n - 1 once each, from the most recent to the first, over the same data and counter, and then none, however often information is asked for in between. A request that is turned down leaves no enumeration pending. |
| `Assertions.RunAndEnumerate` | src/ctap/mod.rs:704-839 | The same for the credentials that any run of new credentials and resets leads to, with failing writes. |
| `Assertions.EndEnumeration` | src/ctap/mod.rs:333-347 | After the time is over, or any other command, no next assertion is given until a new enumeration starts. |
| `Hid.MessageSplitter.Next` | src/ctap/hid/send.rs:97-126 | Returns the first packet with channel, command and length, then the continuation packets numbered from 0, then nothing. |
| `Hid.MessageSplitter.ConsumeData` | src/ctap/hid/send.rs:75-91 | Fills the packet with the data, and with zeros after it. |
| `Hid.SplitMessage` | src/ctap/hid/send.rs:52-127 | Every message of up to 7609 bytes is split into packets that read as one start and continuations in order, whose data is the payload and zeros after it, with no packet more than needed; longer ones are refused. |

## Left out

- Store.Store.GetCapacity: the remaining capacity wraps around in 32 bits, as a release build does; a build with overflow checks panics there instead.
- Driver.PartialApply: powering on again recovers the same store object, where the original builds a new one from the same flash.
- Overlooked.Overlook: formats with a smaller capacity, or one with more words than there are keys, are not part of it.
- Storage.BufferStorage.Write: an interrupted operation is torn at once, while the original keeps it and corrupts it later; the flash is not used in between.
- Store.Store.DeleteKeys: looks a key up in the sorted keys by membership where the original uses binary search.
- Store.StoreIter.Next: the handles returned are read at once; checking old handles (`remove_handle`, `check_handle`) is not modelled.
- Model.StoreModel.Apply: a hash map is a map, and its sum goes through it in any order.
- Lifetime.CheckStorage: is for runs that are never interrupted, because the counters of the original do not count torn writes either.
- Sha.Sha256.Update: the length is a number; the original wraps it around at the size of a `usize`.
- Pin.Run: a reset of the authenticator, after which accounting starts anew, is not an event.
- Residents.Run: a run has fewer than 2^64 - 1 events, so that creation orders do not wrap around.
- Credentials.DecryptCredentialSource: the credential only has its ID and private key; the other fields are constants.
- Assertions.CtapState.ProcessGetAssertion: the checks of the PIN parameters and of user presence come as results, an allow list comes as the first credential that it allows, and signatures and the output of the hmac-secret extension are uninterpreted functions.
- Assertions.CtapState.ProcessCommand: the PIN commands, vendor commands and the encoding of responses are not part of it; the time limit of a stateful command is an event.
- Pin.PinProtocol.ProcessSubcommand: what two keys agree on is an uninterpreted function, randomness comes as an argument, reading the persistent store does not fail, and the subcommands of the feature `with_ctap2_1` are not modelled.
- Residents.CredentialStore.StoreCredential: the serialization of credentials is not modelled.
- Words are sequences of 32 bits; `format/bitfield.rs` is not part of this model, its fields and checksums are taken from their uses.
- A hash map of updates, a `BTreeMap` of a CBOR map and sorted vectors are maps and sorted sequences.
- `lifetime`, `inspect_value` and `init_with_cycle` of the store, and the storage of the board behind system calls.
- Elliptic curves, random numbers, constant time, and the AES instructions of some processors.
- Assembling received packets, channel allocation, timeouts and the CTAP1 and APDU layers.
- Registration of credentials beyond their slots and IDs, attestation, and vendor commands.
- Field by field conversions between CBOR values and parameters.
