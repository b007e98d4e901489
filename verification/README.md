# xdebug-fst: a verified model of DesignDB, its query index and the response comparator

This project models, in Dafny, three cores of the repository and proves what they promise.

**Binary DesignDB v1.** A converter interns strings into one pool, lays out nine 8-byte-aligned
sections, groups driver, load and port records per signal by a *starts* array and sorts a name
index. A reader maps the bytes, validates them, and then answers every query by raw 64-bit address
arithmetic and binary search. A parity checker reads the same bytes a second time with code of its
own. The specification is the abstract design (`DesignModel`): what the XDD library reports and
what every reader must give back. The main results are:

* validation accepts exactly the well-formed files, for arbitrary bytes, reads only inside the
  file, and computes no address that wraps (`Validator`, `Layout`); what well-formed means is stated
  once more on the bytes alone, every offset, size and range a number (`FileFormat`);
* on every accepted file the groups partition the record sections, the sections are disjoint, the
  name index is a permutation with strictly increasing names, and no string is missing (`Accepted`);
* for every design the library can report, the converter's file is accepted exactly when the design
  is acceptable, and then denotes that design (`Converter.Convert`, `EndToEnd`);
* binary search is the linear scan, and `resolve` on a converted file is the first spelling of the
  query found by linear scan of the signal names (`Resolver`, `ConvertedNames`);
* the two readers agree: the parity snapshot succeeds exactly when every string is UTF-8, and then
  lists a design and an index whose encodings are what the C++ reader presents (`ParityTheorem`,
  `ParityCheck`).

**DesignQueryIndex.** One pass builds four reverse indexes. Each lookup is proved equal to a scan of
everything the backend reports, and over an accepted file each of the four answers is stated in
terms of the file's records (`QueryIndex`, `Selectors`, `BinaryQueries`).

**Public-response comparator.** JSON Pointers and runs of deletions, structural comparison,
four-state SystemVerilog literals, times, canonicalisation, and when two documents compare equal
once canonical (`PointerText`, `Pointers`, `Deletions`, `Ignored`, `JsonCompare`, `SvLiteral`,
`LiteralValue`, `TimeValue`, `Canonicalizer`, `CanonicalMeaning`, `CanonicalFixed`,
`CanonicalStats`, `CanonicalText`, `CanonicalCompare`).

Objects that the sources update in place are classes with `Valid()` invariants
(`StringPool.Strings`, `Backend.BinaryDesignBackend`, `QueryIndex.DesignQueryIndex`,
`CanonicalStats.Stats`); loops are methods with invariants, each proved against a specification
function; pure code is functions and lemmas. `Folding` holds the one proof idiom that is not about
the system.

Properties that hold only under a condition, with the exact condition proved:

* `resolve` gives a signal back for its own name unless the name is empty (`ConvertedNames.NamesResolve`);
* "TOP.r" and "top.r" resolve alike if and only if no entry is named "TOP.r" (`ConvertedNames.RootsAlike`);
* an accepted time is exact if and only if it has at most 28 significant digits
  (`TimeValue.TimeExactIffShort`); beyond that different times can become equal
  (`TimeValue.LongTimesCollide`);
* a time unit spelled with the long s (U+017F) matches the case-insensitive pattern but names no
  unit, so it is an error rather than plain text (`TimeValue.UnitLongS`, `TimeValue.LongSRefused`);
* pointers deleted one after another succeed and remove the values they named at the start if and
  only if no earlier one shifts a later one, each names a value below the root, and none lies at or
  below an earlier one (`Ignored.RunRemovesNamed`; `Ignored.ShiftedExample` and
  `Ignored.NestedExample` are inputs that fail);
* documents that are not alike leaf by leaf can still compare equal in one way: an object spelled as
  the canonical form of a time or a literal (`CanonicalCompare.CanonicalAlike`, with the documents of
  `CanonicalCompare.SpelledTimeCollides`).

Check everything with `dafny verify dfyconfig.toml`.

## Model

| member | source | states |
|---|---|---|
| `Layout.Address` | src/backend/binary_design_backend.cpp:123-125 | the 64-bit address of a field of a record of a fitting section equals the mathematical one: no sum or product wraps |
| `Layout.Load32` | src/backend/binary_design_backend.cpp:138-141 | a 32-bit field read through its 64-bit address is the field of the record in the abstract table, and the read is inside the file |
| `Layout.LoadStart` | src/backend/binary_design_backend.cpp:281-283 | an entry of a starts array read through its 64-bit address is the abstract entry |
| `Validator.StringAt` | src/backend/binary_design_backend.cpp:87-94 | a string is read from a 64-bit address in the mapping, over a range that neither wraps nor leaves the file, and is the pool's string at that offset |
| `Validator.ValidSection` | src/backend/binary_design_backend.cpp:21-31 | the division-based test with 64-bit arithmetic holds exactly when offset plus count times width lies in the file, over unbounded integers |
| `Validator.ValidatePlacement` | src/backend/binary_design_backend.cpp:123-136 | the placement loop accepts exactly when every section is 8-aligned and starts at or after the end of the one before |
| `Validator.ValidateShape` | src/backend/binary_design_backend.cpp:96-136 | header, sizes, counts and placement are accepted exactly for files of the right shape |
| `Validator.ValidateSignals` | src/backend/binary_design_backend.cpp:138-145 | the signal loop accepts exactly when every record's strings exist and its direction is 0 to 3 |
| `Validator.ValidateNames` | src/backend/binary_design_backend.cpp:146-157 | the loop with `prior` and `indexed_signals` accepts exactly when entries are readable, in range, strictly increasing and name each signal at most once |
| `Validator.ValidateStarts` | src/backend/binary_design_backend.cpp:158-167 | a starts array is accepted exactly when it begins at 0, ends at the record count and never decreases |
| `Validator.ValidateGroups` | src/backend/binary_design_backend.cpp:169-205 | the owner-counter loop accepts exactly when each record is well formed and owned by the signal whose group it is in |
| `Validator.Validate` | src/backend/binary_design_backend.cpp:96-207 | for every byte sequence the verdict is exactly the declarative acceptance predicate, with every read inside the file |
| `Accepted.SectionsDisjoint` | src/backend/binary_design_backend.cpp:123-136 | any two sections of an accepted file, and the header, are disjoint, in order and inside the file |
| `Accepted.GroupPartition` | src/backend/binary_design_backend.cpp:158-205 | in every accepted file the groups of signals 0 to n-1 concatenate to the record section, each record is in its owner's group, and starts[s] counts the records owned below s |
| `Accepted.IndexPermutation` | src/backend/binary_design_backend.cpp:146-157 | an acceptable name index lists every signal exactly once under strictly increasing names |
| `Accepted.StringsPresent` | src/backend/binary_design_backend.cpp:257-274 | no string of a valid signal of an accepted file is missing, and the denoted signal is what the record says |
| `FileFormat.ShapeMeans` | src/backend/binary_design_backend.cpp:96-136 | the tests of header, sections and counts hold exactly when the bytes at the offsets of the format hold its numbers: magic, versions, byte-order tag, sizes 24, 8, 28, 8, 20, 8, 12, 8 and 1, counts, alignment and order |
| `FileFormat.AcceptsMeans` | src/backend/binary_design_backend.cpp:96-207 | for arbitrary bytes, acceptance holds exactly when the bytes have that shape, every string exists, directions are 0 to 3, names increase byte by byte and name each signal once, and every group is in range: -1 or a signal for a driver's source, a signal for a load or port |
| `FileFormat.AcceptedEnds` | src/backend/binary_design_backend.cpp:169-205 | in an accepted file a driver's source is in -1 to n-1, a load's consumer and a port's other end in 0 to n-1 |
| `FileFormat.SignalBytes` | src/backend/binary_design_format.h:41-48 | the fields of a signal record are the words at offsets 0, 4, 8, 12, 16 and 20 of its 24 bytes |
| `FileFormat.NameBytes` | src/backend/binary_design_format.h:50-53 | the fields of an index entry are the words at offsets 0 and 4 of its 8 bytes |
| `FileFormat.DriverBytes` | src/backend/binary_design_format.h:55-63 | the fields of a driver record are the seven words of its 28 bytes, in order |
| `FileFormat.LoadBytes` | src/backend/binary_design_format.h:65-71 | the fields of a load record are the five words of its 20 bytes, in order |
| `FileFormat.PortBytes` | src/backend/binary_design_format.h:73-77 | the fields of a port record are the three words of its 12 bytes, in order |
| `FileFormat.DriverStartBytes` | src/backend/binary_design_format.h:14-30 | an entry of the driver starts is the 64-bit number at its place in section 3 |
| `FileFormat.LoadStartBytes` | src/backend/binary_design_format.h:14-30 | the same for loads and section 5 |
| `FileFormat.PortStartBytes` | src/backend/binary_design_format.h:14-30 | the same for ports and section 7 |
| `FileFormat.PoolBytes` | src/backend/binary_design_format.h:14-30 | the string pool is the bytes of section 8 |
| `Bytes.LexMeans` | src/backend/binary_design_backend.cpp:146-157 | the order on names is decided where two first part: one ends, or holds the smaller number |
| `Groups.StartCountsOwners` | src/backend/binary_design_backend.cpp:158-181 | in grouped records an entry of the starts array is the number of records with a smaller owner |
| `Groups.GroupUnique` | src/backend/binary_design_backend.cpp:173-181 | no record lies in two groups |
| `Resolver.Exact` | src/backend/binary_design_backend.cpp:221-232 | the binary search terminates and returns what a linear scan of the index returns |
| `Resolver.LookupUnique` | src/backend/binary_design_backend.cpp:221-232 | an entry with a given name is unique, and is the one the search returns |
| `Resolver.Resolve` | src/backend/binary_design_backend.cpp:218-255 | the entry of the first spelling of the query that the index holds, in the order the branches try them, with the spellings given byte by byte; -1 for no, an empty or an unknown name |
| `Resolver.ResolvedMeans` | src/backend/binary_design_backend.cpp:234-254 | the spellings are the query itself; after "TOP." the rest with "top.", alone and with "top.top."; after "top." the rest alone and with "top.top."; otherwise "top." before the query |
| `Resolver.ResolvedUnrooted` | src/backend/binary_design_backend.cpp:242-244 | a query with neither root resolves to the entry named so if there is one, else to the one named with "top." before it, else to nothing |
| `Backend.BinaryDesignBackend.Open` | src/backend/binary_design_backend.cpp:37-75 | open succeeds exactly on accepted contents and otherwise leaves the backend closed |
| `Backend.BinaryDesignBackend.Close` | src/backend/binary_design_backend.cpp:77-85 | a closed backend maps nothing |
| `Backend.BinaryDesignBackend.ValidSignal` | src/backend/binary_design_backend.cpp:209-212 | any int is valid exactly when it is below the number of signals of the design |
| `Backend.BinaryDesignBackend.SignalCount` | src/backend/binary_design_backend.cpp:214-216 | the number of signals of the design, within INT32_MAX |
| `Backend.BinaryDesignBackend.SignalName` | src/backend/binary_design_backend.cpp:257-259 | for any int, the denoted signal's name, or none outside the design; never missing for a valid signal |
| `Backend.BinaryDesignBackend.SignalType` | src/backend/binary_design_backend.cpp:260-262 | as for the name |
| `Backend.BinaryDesignBackend.SignalWidth` | src/backend/binary_design_backend.cpp:263-265 | the denoted width, 0 outside the design |
| `Backend.BinaryDesignBackend.SignalFile` | src/backend/binary_design_backend.cpp:266-268 | as for the name |
| `Backend.BinaryDesignBackend.SignalLine` | src/backend/binary_design_backend.cpp:269-271 | the denoted line, 0 outside the design |
| `Backend.BinaryDesignBackend.SignalDirection` | src/backend/binary_design_backend.cpp:272-274 | the denoted direction, always 0 to 3 |
| `Backend.BinaryDesignBackend.Resolve` | src/backend/binary_design_backend.cpp:218-255 | the entry of the first spelling of the query that the mapped file's index holds, -1 when closed |
| `Backend.BinaryDesignBackend.GroupedRange` | src/backend/binary_design_backend.cpp:276-285 | for any int, found exactly for a valid signal, and then a range inside the record section |
| `Backend.BinaryDesignBackend.RecordCount` | src/backend/binary_design_backend.cpp:287-291 | the number of records of the signal's group, 0 outside the design |
| `Backend.BinaryDesignBackend.TraceDriver` | src/backend/binary_design_backend.cpp:293-312 | for any int, exactly the denoted drivers in order, field by field |
| `Backend.BinaryDesignBackend.TraceLoad` | src/backend/binary_design_backend.cpp:320-333 | for any int, exactly the denoted loads in order, field by field |
| `Backend.BinaryDesignBackend.PortConnections` | src/backend/binary_design_backend.cpp:341-353 | for any int, exactly the denoted port connections in order, each owned by the signal asked for |
| `Utf8.OrderPreserved` | tools/convert_xdd_so_to_binary.py:166-167 | byte order of UTF-8 encodings is code point order, both directions (section 1 of RFC 3629) |
| `Utf8.EncodeTable` | tools/convert_xdd_so_to_binary.py:38-48 | the octets of each scalar value (section 3 of RFC 3629) |
| `Utf8.DecodeIffEncoded` | tools/check_design_db_parity.py:99-106 | strict decoding accepts exactly the encodings and inverts them |
| `StringPool.Strings.Intern` | tools/convert_xdd_so_to_binary.py:38-48 | fails exactly when the pool would exceed the 32-bit limit and then changes nothing; a repeat reuses its offset; a new string is appended; every earlier offset is kept |
| `StringPool.InternKeeps` | tools/convert_xdd_so_to_binary.py:38-48 | interning keeps the pool invariant: every offset holds its own string, distinct strings have distinct offsets |
| `StringPool.PoolReads` | src/backend/binary_design_backend.cpp:87-94 | every offset ever returned fits in 32 bits and reads back its string up to the first NUL |
| `StringPool.Strings.InternAll` | tools/convert_xdd_so_to_binary.py:124-127 | interning the texts of one record gives the final pool's offsets of those texts |
| `Packing.PlaceBlobs` | tools/convert_xdd_so_to_binary.py:85-94 | the loop yields the offsets, the total size and the body, padding included, of the recursive definition |
| `Packing.BodyHolds` | tools/convert_xdd_so_to_binary.py:88-94 | the body holds every blob at its recorded offset, whatever is appended later |
| `Packing.PackSections` | tools/convert_xdd_so_to_binary.py:84-99 | succeeds exactly for nine blobs whose sizes and counts fit 64 bits; every blob is recovered at its offset, the header is valid and its file size is the length |
| `Packing.BlobsOrdered` | tools/convert_xdd_so_to_binary.py:88-94 | offsets are 8-aligned, ordered and disjoint with gaps below 8 bytes |
| `NameSort.SortNames` | tools/convert_xdd_so_to_binary.py:166-167 | the sorted pairs are ordered by code point and pair each signal with its own name exactly once |
| `NameSort.StrictIffDistinct` | tools/convert_xdd_so_to_binary.py:166-167 | the sorted names are strictly increasing exactly when the names are distinct |
| `WriterImage.WrittenStarts` | tools/convert_xdd_so_to_binary.py:132-165 | the written starts array always satisfies the reader's test |
| `WriterImage.WrittenGroup` | tools/convert_xdd_so_to_binary.py:132-162 | the group the reader slices out for a signal is the records written for it, in order |
| `RoundTrip.SortedNamesOk` | src/backend/binary_design_backend.cpp:146-157 | sorting by code point passes the reader's byte-wise order check exactly when names are distinct |
| `RoundTrip.WrittenTable` | src/backend/binary_design_backend.cpp:169-205 | a written table is accepted exactly when every other end is in range, from -1 for drivers and from 0 for loads and ports |
| `RoundTrip.WrittenImageOk` | src/backend/binary_design_backend.cpp:138-205 | the written image is acceptable exactly when the design is: directions 0 to 3, distinct names, driver sources -1 or a signal, load and port ends signals, and at most 2^31-1 records of each kind |
| `RoundTrip.SourcelessAcceptable` | src/backend/binary_design_backend.cpp:178-178 | taking the source away from any driver of an acceptable design leaves it acceptable |
| `RoundTrip.WrittenImageDenotes` | src/backend/binary_design_backend.cpp:257-353 | the written image denotes the UTF-8 encoding of the design: every name, type, file, width, line, direction, driver, load and port, in order |
| `WriterFile.ParsePacked` | src/backend/binary_design_backend.cpp:96-136 | the bytes of a packed image parse back to that image, and have the right shape exactly when the counts fit |
| `Converter.AppendRecords` | tools/convert_xdd_so_to_binary.py:133-145 | the inner record loop appends exactly the packed records of the signal and the texts it interned |
| `Converter.AppendSignals` | tools/convert_xdd_so_to_binary.py:121-162 | the loop over signals keeps the blobs equal to the packed form of the signals so far |
| `Converter.AppendNames` | tools/convert_xdd_so_to_binary.py:166-167 | the name blob is the packed sorted index |
| `Converter.Gather` | tools/convert_xdd_so_to_binary.py:110-176 | the nine blobs are the packed form of the design's image; fails exactly on a full pool |
| `Converter.Convert` | tools/convert_xdd_so_to_binary.py:102-188 | for every reportable design: pool error exactly when the pool is too big; otherwise the file is accepted exactly when the design is acceptable and then denotes it |
| `Converter.ConvertedRoundTrip` | tools/convert_xdd_so_to_binary.py:102-177 | any file the converter can produce for a design is accepted exactly when the design is acceptable, and then denotes it |
| `ConvertedNames.ResolveIsScan` | src/backend/binary_design_backend.cpp:218-255 | on converted files resolve is the first spelling of the query found by linear scan of the signal names |
| `ConvertedNames.NamesResolve` | src/backend/binary_design_backend.cpp:218-236 | on converted files every signal with a non-empty name resolves to itself |
| `ConvertedNames.RootsAlike` | src/backend/binary_design_backend.cpp:237-254 | on any acceptable index TOP.r and top.r resolve alike exactly when no entry is named TOP.r |
| `EndToEnd.EmptyFile` | src/backend/binary_design_backend.cpp:96-207 | acceptance can be met: the empty design has a file and it is accepted |
| `EndToEnd.ConvertAndOpen` | src/backend/binary_design_backend.cpp:37-75 | conversion and reopening succeed exactly for an acceptable design whose strings fit the pool, and the reader then presents exactly its encoding, nothing otherwise |
| `EndToEnd.ConvertAndResolve` | src/backend/binary_design_backend.cpp:218-255 | after conversion and reopening, resolve answers with the first spelling of the query found by linear scan of the design's names, -1 for an empty query or a refused design |
| `EndToEnd.ConvertAndSnapshot` | tools/check_design_db_parity.py:89-137 | the parity snapshot of a converted design succeeds and lists that design, its sorted names, each name resolved to its own signal, and the probe name resolved by linear scan |
| `ParityReader.Resolve` | tools/check_design_db_parity.py:122-133 | the inner search loop computes the recursive bisection |
| `ParityReader.ReadGroups` | tools/check_design_db_parity.py:139-173 | the nested loops list the groups signal by signal or stop at the first misplaced record or bad string |
| `ParityReader.BinarySnapshot` | tools/check_design_db_parity.py:89-176 | succeeds exactly when the header matches and every part reads; the result is those parts and the search's own answers |
| `ParityAgreement.SignalAgrees` | tools/check_design_db_parity.py:108-113 | on an accepted file a signal read by the snapshot is the decoding of the signal the C++ reader presents |
| `ParityAgreement.GroupAgrees` | tools/check_design_db_parity.py:146-173 | on an accepted file a group read by the snapshot is the decoding of the records the C++ accessor returns |
| `ParityTheorem.SnapshotMeans` | tools/check_design_db_parity.py:89-176 | on an accepted file the snapshot lists a design and an index exactly when the C++ reader presents their encodings |
| `ParityCheck.SnapshotSucceeds` | tools/check_design_db_parity.py:89-176 | on an accepted file no error is raised exactly when every string is UTF-8 |
| `ParityCheck.BisectIsLookup` | tools/check_design_db_parity.py:122-133 | searching by code point order finds what the C++ reader finds for the bytes |
| `ParityCheck.ConvertedSnapshot` | tools/check_design_db_parity.py:179-186 | the snapshot of a converted design lists that design and its sorted names |
| `ParityCheck.ConvertedBisect` | tools/check_design_db_parity.py:122-137 | on a converted design the snapshot's own search is the linear scan of the signal names, for every text |
| `Selectors.ScopeSplits` | src/backend/design_query_index.cpp:15-18 | the scope is what precedes the last dot (byte 46), empty without one |
| `Selectors.SelectorExact` | src/backend/design_query_index.cpp:20-37 | the parser succeeds exactly on base[digits] with non-empty base and a number up to 2^63-1, and returns its parts |
| `Selectors.SelectorInvertsPrinting` | src/backend/design_query_index.cpp:20-37 | parsing inverts decimal printing over the whole range and refuses everything above it |
| `QueryIndex.ScanConnections` | src/backend/design_query_index.cpp:63-79 | one signal's connections add it once under each other end, and join both ends of each complete connection |
| `QueryIndex.SortLists` | src/backend/design_query_index.cpp:81-87 | every list becomes strictly ascending with the same members |
| `Ascending.SortUnique` | src/backend/design_query_index.cpp:83-84 | sort then unique keeps the members and orders them strictly |
| `QueryIndex.DesignQueryIndex.constructor` | src/backend/design_query_index.cpp:43-95 | after the pass every index equals a scan of the backend, and the counters count signals and port records |
| `QueryIndex.DesignQueryIndex.AddSignal` | src/backend/design_query_index.cpp:47-80 | one round extends all four indexes from n signals to n+1 |
| `QueryIndex.DesignQueryIndex.ConnectedSignals` | src/backend/design_query_index.cpp:97-100 | strictly increasing, and contains exactly the signals joined to the given one by a complete connection of a signal of direction 1, 2 or 3 |
| `QueryIndex.DesignQueryIndex.PortsConnectedTo` | src/backend/design_query_index.cpp:102-107 | strictly ascending, and contains exactly the signals of the direction, one of 1 to 3, with a connection to the given one, each once |
| `QueryIndex.DesignQueryIndex.PortsInScope` | src/backend/design_query_index.cpp:109-114 | strictly ascending, and contains exactly the signals of the direction, one of 1 to 3, in the scope |
| `QueryIndex.DesignQueryIndex.LastMaterializedSelector` | src/backend/design_query_index.cpp:116-122 | succeeds exactly when some signal is named base[N], and returns the maximum such N |
| `QueryIndex.LastSelectorIsMaximum` | src/backend/design_query_index.cpp:56-62 | the running update keeps the maximum over the signals scanned |
| `QueryIndex.ConnectedBothWays` | src/backend/design_query_index.cpp:74-79 | connection is symmetric for every backend |
| `QueryIndex.SameAnswers` | src/backend/design_query_index.cpp:97-122 | every answer is determined by the backend alone, not by the order in which maps were filled or walked |
| `BinaryQueries.IndexBackend` | src/backend/design_query_index.cpp:43-80 | an index over a binary backend is the index of the design it presents |
| `BinaryQueries.FilePortTo` | src/backend/design_query_index.cpp:47-73 | over an accepted file a port is listed exactly when its signal has that direction, one of 1 to 3, and some port record of it leads to the signal, however many there are |
| `BinaryQueries.FileLinked` | src/backend/design_query_index.cpp:63-87 | over an accepted file two signals are connected exactly when a port record of one with direction 1, 2 or 3 leads to the other |
| `BinaryQueries.FilePortsConnectedTo` | src/backend/design_query_index.cpp:102-107 | a file opened, indexed and asked: strictly ascending, exactly the signals of the direction, one of 1 to 3, with a port record to the signal |
| `BinaryQueries.FileConnectedSignals` | src/backend/design_query_index.cpp:97-100 | likewise: exactly the signals a port record of a signal of direction 1, 2 or 3 joins to the given one, either way round |
| `BinaryQueries.FilePortsInScope` | src/backend/design_query_index.cpp:109-114 | likewise: exactly the signals of the direction, one of 1 to 3, whose recorded name lies directly in the scope |
| `BinaryQueries.FileLastSelector` | src/backend/design_query_index.cpp:116-122 | likewise: the largest N with a signal recorded as base[N], none exactly when there is no such signal |
| `PointerText.UnescapeEscape` | tools/compare_public_action_responses.py:195-196 | escaping writes each tilde as ~0 and each slash as ~1, and unescaping inverts it for every string, despite the successive replacements (section 4 of RFC 6901) |
| `PointerText.ChildAppends` | tools/compare_public_action_responses.py:199-201 | a child pointer has exactly the parent's tokens and one more; a malformed pointer stays malformed |
| `PointerText.TokensOfPointer` | tools/compare_public_action_responses.py:139-147 | splitting and unescaping recovers every path of tokens |
| `PointerText.PointersDiffer` | tools/compare_public_action_responses.py:199-201 | pointers built from different paths are different |
| `Json.IndexInjective` | tools/compare_public_action_responses.py:155-161 | no two tokens select the same array element |
| `Pointers.PointerGet` | tools/compare_public_action_responses.py:165-169 | the loop returns the value the tokens lead to, or the first error |
| `Pointers.LocateFails` | tools/compare_public_action_responses.py:150-169 | a read fails exactly when some token leads nowhere in the value the tokens before it lead to, with the error for a missing key or element, a malformed index or a scalar |
| `Pointers.PointerParent` | tools/compare_public_action_responses.py:172-179 | the loop returns the container of the last token and its key, and refuses the root |
| `Pointers.PointerSet` | tools/compare_public_action_responses.py:182-184 | the edit through a pointer is the edit at its tokens, and a malformed pointer is an error |
| `Pointers.PointerDelete` | tools/compare_public_action_responses.py:187-192 | the deletion through a pointer is the deletion at its tokens, and a malformed pointer is an error |
| `Pointers.SetThenGet` | tools/compare_public_action_responses.py:182-184 | a set succeeds exactly below the root where the pointer leads somewhere; a get then reads the new value at and below the pointer, the edited container above it, and the old value or error elsewhere |
| `Pointers.DeleteThenGet` | tools/compare_public_action_responses.py:187-192 | a deleted field is gone, later array elements move down by one, containers above hold the edited parent, and all else reads as before |
| `Deletions.DeleteOrigin` | tools/compare_public_action_responses.py:187-192 | deleting a pointer from an already reduced document takes out of the whole document exactly the value the pointer leads to now |
| `Ignored.OriginSurvives` | tools/compare_public_action_responses.py:459-462 | what is left was there, at or below no removed path, and is the value that was there without what is removed below it |
| `Ignored.ValueLeft` | tools/compare_public_action_responses.py:459-462 | where nothing is removed at or below it, the very value that was there is left |
| `Ignored.Survivor` | tools/compare_public_action_responses.py:459-462 | every value at or below no removed path is left |
| `Ignored.DeleteIgnored` | tools/compare_public_action_responses.py:459-462 | the loop that reads and deletes each ignored pointer is the run of deletions, with its first error |
| `Ignored.PointersArePaths` | tools/compare_public_action_responses.py:459-462 | a run over pointers succeeds exactly when all are well formed and the run over their tokens does, with the same result |
| `Ignored.RunRemoves` | tools/compare_public_action_responses.py:459-462 | a successful run removes exactly the values its pointers lead to in turn |
| `Ignored.RunRemovesNamed` | tools/compare_public_action_responses.py:459-462 | a run succeeds and removes exactly the values the pointers named at the start if and only if no earlier pointer shifts a later one, each names a value below the root, and none lies at or below an earlier one |
| `Ignored.SteadyLocates` | tools/compare_public_action_responses.py:459-462 | a pointer nothing shifts leads somewhere after removals exactly when it did before and is not at or below a removed path |
| `Ignored.RunSucceeds` | tools/compare_public_action_responses.py:459-462 | where nothing is shifted a run succeeds exactly when each pointer names a value below the root and none lies at or below an earlier one |
| `Ignored.IgnoredRemovesNamed` | tools/compare_public_action_responses.py:459-462 | the same for the pointers as written, with a malformed one among the failures |
| `Ignored.ShiftedExample` | tools/compare_public_action_responses.py:459-462 | deleting /0 and then /1 of a three-element array removes the first and the last element |
| `Ignored.NestedExample` | tools/compare_public_action_responses.py:459-462 | deleting /a and then /a/b fails although nothing is shifted and both lead somewhere at the start |
| `JsonCompare.CompareJson` | tools/compare_public_action_responses.py:403-428 | the recursion with its loops lists the specified differences in order |
| `JsonCompare.CompareExact` | tools/compare_public_action_responses.py:403-428 | a difference is reported exactly when both documents, followed in step along its path, disagree there as it says |
| `JsonCompare.CompareEmpty` | tools/compare_public_action_responses.py:403-428 | nothing is reported exactly when the documents are equal, types included |
| `JsonCompare.CompareOrdered` | tools/compare_public_action_responses.py:403-428 | differences come in document order: keys by code point, items by position, a list's length before its items; so no path is reported twice |
| `JsonCompare.JudgeConfirmed` | tools/compare_public_action_responses.py:403-428 | each kind of difference is confirmed by reading both documents at the reported path, types compared by what the values are |
| `JsonCompare.ReadsAlike` | tools/compare_public_action_responses.py:403-428 | a path with no difference above, at or below it reads alike in both documents, errors included |
| `JsonCompare.CompareDocuments` | tools/compare_public_action_responses.py:403-428 | from the root: empty exactly for equal documents, in document order with all pointers distinct, every difference confirmed at its pointer, every disagreement listed |
| `SvLiteral.MatchExact` | tools/compare_public_action_responses.py:34-37 | matching accepts exactly the well-formed spellings and returns their parts |
| `LiteralValue.WellFormedMeans` | tools/compare_public_action_responses.py:34-37 | the pattern of a literal, by its characters |
| `LiteralValue.LiteralShape` | tools/compare_public_action_responses.py:225-267 | every accepted literal has a positive width and exactly that many bits over 0, 1, X and Z |
| `LiteralValue.LiteralOutcome` | tools/compare_public_action_responses.py:225-267 | a well-formed literal is refused exactly for a zero width or a digit its base does not admit: 0-1, 0-7 and 0-9a-f with x, z and ? for b, o and h; decimal digits or one x, z or ? for d |
| `LiteralValue.KnownBits` | tools/compare_public_action_responses.py:233-260 | known digits in base 2, 8, 10 or 16 for b, o, d or h, upper case or lower, give the binary form of their number modulo 2^width |
| `LiteralValue.LiteralsAgree` | tools/compare_public_action_responses.py:225-267 | two accepted literals with known digits become equal exactly when width, sign and number modulo 2^width agree, whatever the bases |
| `LiteralValue.UnderscoreIgnored` | tools/compare_public_action_responses.py:233-233 | an underscore anywhere among the digits changes nothing, acceptance included |
| `LiteralValue.ExpandAllSplit` | tools/compare_public_action_responses.py:218-222 | each digit expands where it stands to its own bits: x to X, z and ? to Z, a known digit to its value |
| `LiteralValue.DigitExpands` | tools/compare_public_action_responses.py:218-222 | a digit becomes as many bits as asked, all X or all Z for an unknown one and its value otherwise |
| `LiteralValue.GroupsByLetter` | tools/compare_public_action_responses.py:250-260 | a binary, octal or hexadecimal literal has 1, 3 or 4 bits per digit, extended or cut to its width |
| `LiteralValue.UnknownDecimal` | tools/compare_public_action_responses.py:238-240 | a decimal literal of one unknown digit has X or Z in every bit |
| `LiteralValue.PowerExtends` | tools/compare_public_action_responses.py:257-260 | too few bits are extended by a leading X or Z (`?` as Z) or by zeros, too many are cut on the left (section 5.7.1 of IEEE Std 1800-2017) |
| `TimeValue.MatchExact` | tools/compare_public_action_responses.py:29-33 | matching accepts exactly the well-formed times and returns their parts |
| `TimeValue.WellFormedMeans` | tools/compare_public_action_responses.py:29-33 | the pattern of a time, by its characters and their codes |
| `TimeValue.UnitMeans` | tools/compare_public_action_responses.py:38-50 | every unit the pattern matches has its scale: 10^15 for s, 10^12 for m and ms, 10^9 for u and us, 10^6 for n and ns, 10^3 for p and ps, 1 for f and fs, in either case |
| `TimeValue.TimeExact` | tools/compare_public_action_responses.py:204-215 | a time of at most 28 significant digits becomes n femtoseconds exactly when the signed decimal number times the scale of its unit is n, and is refused exactly when there is no such n |
| `TimeValue.TimeExactIffShort` | tools/compare_public_action_responses.py:208-215 | an accepted time is exact exactly when it has at most 28 significant digits |
| `TimeValue.TimesAgree` | tools/compare_public_action_responses.py:204-215 | two such times in any units become equal exactly when they denote the same whole number of femtoseconds |
| `TimeValue.UnitTime` | tools/compare_public_action_responses.py:204-215 | a whole number of at most 28 significant digits before any unit becomes that number times the scale |
| `TimeValue.AdjacentUnits` | tools/compare_public_action_responses.py:204-215 | m of a unit and 1000 m of the next smaller become the same time |
| `TimeValue.NanoIsThousandPico` | tools/compare_public_action_responses.py:204-215 | m ns and 1000 m ps both become 1000000 m femtoseconds |
| `TimeValue.UnitLongS` | tools/compare_public_action_responses.py:38-50 | of the units the pattern matches, the lowered unit is missing from the table exactly when it holds the long s |
| `TimeValue.LongSRefused` | tools/compare_public_action_responses.py:208-211 | the unit lookup fails exactly for a unit spelled with the long s |
| `TimeValue.PlainTimeExact` | tools/compare_public_action_responses.py:208-215 | a plain number of femtoseconds survives exactly when it has at most 28 significant digits |
| `TimeValue.LongTimesCollide` | tools/compare_public_action_responses.py:208-215 | two different numbers of femtoseconds, 10^28 and 10^28 + 1, become the same time |
| `DecimalContext.RoundedExact` | tools/compare_public_action_responses.py:209-209 | a product in the default decimal context is kept exactly when it has at most 28 significant digits |
| `DecimalContext.RoundedNearest` | tools/compare_public_action_responses.py:209-209 | a product is rounded to the nearest number of 28 digits, a tie to the even one |
| `DecimalContext.LimitIsPower` | tools/compare_public_action_responses.py:209-209 | the limit is ten to the 28 |
| `CanonicalStats.Canonicalize` | tools/compare_public_action_responses.py:270-307 | the recursion returns the canonical form or fails, and the counters grow by what the document held to convert |
| `CanonicalText.StringBecomes` | tools/compare_public_action_responses.py:283-306 | a string under a field becomes what the field's name asks for: a time, a literal, raw bits in upper case without underscores, or itself; a value of a record whose kind, or type without one, is string or event keeps its text; a kind that is a list or object is an error |
| `CanonicalText.DocumentText` | tools/compare_public_action_responses.py:270-307 | in the canonical form of a document every string of every record, in nested lists or not, has become that, and strings outside records are left alone |
| `CanonicalText.DocumentRaises` | tools/compare_public_action_responses.py:270-307 | canonicalising raises an error exactly when some string of some record has no form |
| `CanonicalText.TimeNames` | tools/compare_public_action_responses.py:51-71 | the time fields are ten names and everything that ends in _time |
| `CanonicalText.LogicNames` | tools/compare_public_action_responses.py:72-84 | the literal fields are eleven names and the raw-bit fields bits, x_mask and z_mask |
| `CanonicalText.NamesApart` | tools/compare_public_action_responses.py:51-84 | no field asks for two forms |
| `Canonicalizer.ShowIntReads` | tools/compare_public_action_responses.py:215-215 | the text of a number of femtoseconds is its decimal digits, after a minus sign exactly for a negative one |
| `CanonicalFixed.LabelKept` | tools/compare_public_action_responses.py:283-288 | a record keeps the kind or type that decides whether its value is text |
| `CanonicalFixed.DocumentIdempotent` | tools/compare_public_action_responses.py:270-307 | canonicalising an accepted document again changes nothing |
| `CanonicalMeaning.TimeTextsAgree` | tools/compare_public_action_responses.py:289-296 | in a time field two accepted times of at most 28 significant digits become equal exactly when they denote the same whole number of femtoseconds, across units |
| `CanonicalMeaning.LiteralTextsAgree` | tools/compare_public_action_responses.py:297-301 | in a logic field two accepted literals with known digits become equal exactly when width, sign and number modulo 2^width agree, across bases |
| `CanonicalCompare.TimeMeans` | tools/compare_public_action_responses.py:289-296 | in a time field a time of at most 28 significant digits means exactly the femtoseconds it denotes |
| `CanonicalCompare.LiteralMeans` | tools/compare_public_action_responses.py:297-301 | in a logic field an accepted literal with known digits means its number modulo 2^width, at its width and with its sign |
| `CanonicalCompare.CanonicalAlike` | tools/compare_public_action_responses.py:270-307 | two accepted values have the same canonical form exactly when they have the same shape and leaves of the same meaning, or one is an object spelled as the other's converted string |
| `CanonicalCompare.DocumentsAlike` | tools/compare_public_action_responses.py:403-428 | two accepted documents show no difference once canonical exactly when they are alike as they were spelled |
| `CanonicalCompare.SpelledTimeCollides` | tools/compare_public_action_responses.py:403-428 | for every number of femtoseconds of at most 28 significant digits, a document with the time and one with its canonical form spelled out differ, are accepted, and compare without a difference |
| `CanonicalStats.CanonicalQuiet` | tools/compare_public_action_responses.py:289-301 | a canonical document holds no time and no literal that a further pass would convert |

## Left out

- Opening, mapping and closing files, and the calls into the XDD library: the model starts from a byte sequence and from the design the library reports. A negative count reported by the library is not modelled.
- `src/backend/design_query_index.cpp` `estimated_bytes_`: it depends on container capacities.
- Backend.BinaryDesignBackend.Open: takes file contents below 2^63 bytes, the range of `off_t`.
- Converter.Convert: the assumption on its argument is what C ints and C strings can express; texts are sequences of Unicode scalar values, so a library text that is not UTF-8, on which `_text` raises, is not modelled, nor is the summary the function returns.
- ParityReader.BinarySnapshot: which of several errors is raised first is not modelled, since each part is read to its end in turn here and drivers, loads and ports are interleaved in the original.
- EndToEnd.ConvertAndSnapshot: the answers of the library's own `xdd_resolve`, against which the check compares, are foreign code and not modelled.
- QueryIndex.DesignQueryIndex.constructor: takes what the backend reports as a value, read once per signal; a backend that answers differently when asked twice is not modelled. Vectors and hash maps are sequences and maps.
- Pointers.SetThenGet: edits are modelled on values, the edited parent replacing the old one where it stands; sharing of one container between two places of a document is not captured. The same holds for Pointers.DeleteThenGet.
- JsonCompare.CompareDocuments: documents hold no floating-point numbers and no lone surrogates.
- CanonicalStats.Canonicalize: fields are visited in key order, not insertion order, so which error is raised first, and the counters after an error, are not modelled.
- LiteralValue.LiteralShape: Python's limit on the number of digits converted between text and integers is not modelled; the same holds for array indices in pointers.
- TimeValue.TimeExact: that limit, on the number of femtoseconds written out, is not modelled; nor are the exponent limits of the decimal context, reached by numbers of about a million digits.
- Ignored.DeleteIgnored: the counter of ignored fields is not modelled.
- Plan and bundle validation, requirements, rewrites and report writing of the comparator: field-presence checks that add only easy members.
- The waveform backends, the engine, the server and the packaging, benchmark and audit tools: not part of this model.
