# vcompare core, modelled in Dafny

vcompare is a Qt/VTK viewer that compares micromagnetic simulation results,
given as Tecplot FEPOINT/TETRAHEDRON files, side by side. This project models
the parts of it that are pure logic and proves properties of them:

- **Canonical simplex identity** (`simplex.dfy`, `utilities.dfy`). This covers
  `Connect2/3/4` tuples of `unsigned int` vertex indices and the compare-swap
  sorting networks that every canonical hash, order and equality runs first.
  It also covers `hash_combine` over 64-bit `size_t`, with `std::hash` as a
  function parameter.
- **Tecplot loader** (`grammar.dfy`, `tecplot.dfy`, `streams.dfy`,
  `decimal.dfy`, `results.dfy`):
  - the line patterns of `TecplotLoader`, as recognisers over strings;
  - the `header` scan;
  - the two `load` state machines, as folds over the lines of a file;
  - the count checks in source order, and the reshaping into output arrays;
  - the exception kinds.

  Floating-point values are an opaque type `F`: the loader only moves them.
  The two float-row matchers (six numbers and three numbers) are parameters,
  because their values come from `strtod`.
- **Start/end markers and file names** (`names.dfy`). This covers
  `StartEndPair`: both constructors, `updateStartEndPair`, the `*AsDatFile`
  and `*AsTecFile` names, and the `extract*FileNameData` patterns. It also
  covers the `FieldDataHasher` key, which a run's log file and its field file
  share, and the largest marker index `getMaxStartEndNameIndex`.
- **Restart logs** (`energy.dfy`). This covers the line scan of the
  `EnergyEvaluations` constructor, where the first of six patterns found in a
  line decides. It also covers `lastEnergy` and the `EnergyEvaluationsLookup`
  map.
- **Field names and navigation** (`paths.dfy`, `navigation.dfy`). This covers
  `tail`, `nameIndex`, `split` and `displayName` of `VectorField`. It also
  covers the bookkeeping of `VectorFieldSet`: the sorted name list, the
  name-to-index map, the current name, the two display flags, and the
  `display`/`next`/`previous`/`first`/`last`/`toggle` steps. A step of the
  set whose C++ counterpart has undefined behaviour yields `None`; this
  includes `currentDisplayName` while no field is current. The path helper
  `displayName` instead requires a non-empty name (see "## Left out").

A few behaviours of the code are easy to misread:

- The plain zone pattern (src/TecplotLoader.cpp:36-39) has no comma between
  the quoted title and `N=`, so it rejects `ZONE T="a", N=…`
  (`Grammar.ZoneLineRejectsFused`). Only the fused zone-and-FEM pattern
  (src/TecplotLoader.cpp:46-51) allows a comma there.
- `TecplotFileParseException::what()` (src/TecplotLoader.h:102-106) builds a
  message with a prefix, then returns only the call-site code it was given
  (`Tecplot.LoadError.What`).
- The multi-zone `load` resizes copies of the field vectors
  (src/TecplotLoader.cpp:354-356). A caller whose field vectors are short then
  gets `std::out_of_range` from `fields.at(k).at(i)`, not filled fields; see
  Findings.

## Model

| member | source | states |
|---|---|---|
| Utilities.CombineFromZero | src/Utilities.h:13-18 | From seed 0, one combine gives `h(v) + 0x9e3779b9`, modulo 2^64. |
| Utilities.CombineAllSnoc | src/Data.h:231-236 | Combining a tuple folds `hash_combine` left to right: the last component is combined last. |
| Utilities.CombineAllThroughHasher | src/Utilities.h:13-18 | A value is read only through its hasher. Two sequences whose elements hash alike, position by position, give the same seed. |
| Simplex.CompareSwap | src/Data.h:22-28 | The result is ordered and is the input pair or its swap. An ordered pair is left as it is. |
| Simplex.Canonical2 | src/Data.h:46-61 | The one-comparator network yields a sorted permutation of the pair, and leaves a sorted pair unchanged. |
| Simplex.Canonical3 | src/Data.h:117-137 | The comparators (0,1),(0,2),(1,2) yield a sorted permutation of the triple, and leave a sorted triple unchanged. |
| Simplex.Canonical4 | src/Data.h:215-239 | The comparators (0,2),(1,3),(0,1),(2,3),(1,2) yield a sorted permutation of the quadruple, and leave a sorted one unchanged. |
| Simplex.SortedUnique | src/Data.h:293-314 | Two sorted arrangements of the same multiset are equal. |
| Simplex.SameCanonical2 | src/Data.h:88-101 | Two edges have the same canonical form iff they hold the same indices, repeats counted. |
| Simplex.SameCanonical3 | src/Data.h:178-196 | Two triangles have the same canonical form iff they hold the same indices, repeats counted. |
| Simplex.SameCanonical4 | src/Data.h:293-314 | Two tetrahedra have the same canonical form iff they hold the same indices, repeats counted. |
| Simplex.CanonicalEqual2 | src/Data.h:88-101 | Canonical equality of edges is multiset equality of their indices. |
| Simplex.CanonicalEqual3 | src/Data.h:178-196 | Canonical equality of triangles is multiset equality of their indices. |
| Simplex.CanonicalEqual4 | src/Data.h:293-314 | Canonical equality of tetrahedra is multiset equality of their indices, so it ignores the order of either argument. |
| Simplex.CanonicalLess2 | src/Data.h:63-86 | The canonical order of edges is lexicographic `<` on the sorted components. |
| Simplex.CanonicalLess3 | src/Data.h:138-176 | The canonical order of triangles is lexicographic `<` on the sorted components. |
| Simplex.CanonicalLess4 | src/Data.h:240-292 | The canonical order of tetrahedra is lexicographic `<` on the sorted components. |
| Simplex.StrictWeakOrder2 | src/Data.h:63-101 | The edge order is irreflexive, asymmetric and transitive. Two edges are incomparable exactly when they are canonically equal. |
| Simplex.StrictWeakOrder3 | src/Data.h:138-196 | The triangle order is irreflexive, asymmetric and transitive. Two triangles are incomparable exactly when they are canonically equal. |
| Simplex.StrictWeakOrder4 | src/Data.h:240-314 | The tetrahedron order is irreflexive, asymmetric and transitive. Two tetrahedra are incomparable exactly when they are canonically equal. |
| Simplex.HashRespectsEquality2 | src/Data.h:46-61 | Canonically equal edges, including any two orderings of one edge, have equal canonical hashes. |
| Simplex.HashRespectsEquality3 | src/Data.h:117-137 | Canonically equal triangles, including any reordering, have equal canonical hashes. |
| Simplex.HashRespectsEquality4 | src/Data.h:215-239 | Canonically equal tetrahedra, including any reordering, have equal canonical hashes. |
| Simplex.PlainEqualityIsOrderSensitive | src/Data.h:211-214 | Plain `==` tells (1,2,3,4) from (4,3,2,1), while canonical equality identifies them. |
| Simplex.CanonicalIdempotent4 | src/Data.h:22-28 | Running the network on an already canonical tetrahedron changes nothing. |
| Streams.Split | src/VectorField.cpp:57-66 | Tokens hold no delimiter. There are no tokens exactly when the text is empty. |
| Streams.JoinSplit | src/VectorField.cpp:57-66 | Joining the tokens with the delimiter gives back the text, except for a final delimiter, which yields no empty last token. |
| Streams.SplitJoin | src/VectorField.cpp:57-66 | Splitting joined delimiter-free tokens whose last token is non-empty gives back those tokens. |
| Streams.ExtractedLoopSplits | src/VectorField.cpp:61-63 | The `while (getline(ss, item, d))` loop hands its body exactly the tokens of `Split`. |
| Streams.GoodLoopRepeatsLast | src/TecplotLoader.cpp:177-178 | The `while (file) { getline(...) }` loop sees every line and then one more. The extra line is empty after a final newline; otherwise it repeats the unterminated last line. |
| Streams.UnterminatedLineReadTwice | src/TecplotLoader.cpp:177-178 | The one-line text `ZONE` without a newline is handed to the loop body twice. |
| Decimal.Pad4 | src/DirectoryDatabase.h:141-145 | `arg(n, 4, 10, '0')` gives digits denoting `n`, four wide, or the full rendering when that is longer. |
| Decimal.Pad4Width | src/DirectoryDatabase.h:141-145 | The padded index is exactly four digits iff it is at most 9999. |
| Decimal.ValueRender | src/DirectoryDatabase.h:208-216 | Reading back the decimal rendering of a number gives the number. |
| Decimal.StrToUL | src/TecplotLoader.cpp:756-772 | `strtoul` gives the value of a digit run, saturated at ULONG_MAX. |
| Decimal.ToInt | src/DirectoryDatabase.h:282-291 | `toInt` on a digit run is at most INT_MAX. It equals the value iff the value fits, and is 0 when it does not. |
| Grammar.ZoneRoundTrip | src/TecplotLoader.cpp:36-39 | A plain zone header `ZONE T="t" N=n, E=e` reads back as `(n, e)`. |
| Grammar.ZoneLineRejectsFused | src/TecplotLoader.cpp:36-39 | The plain zone pattern rejects a fused header, because of the comma after the title. |
| Grammar.FusedRoundTrip | src/TecplotLoader.cpp:46-51 | The fused header with a comma before every key reads back as `(n, e)`. |
| Grammar.ZoneIsNothingElse | src/TecplotLoader.cpp:34-44 | A line opening with a zone title is not a title, variables, element-type or connectivity line. |
| Grammar.FemLineSpacing | src/TecplotLoader.cpp:43-44 | `F=FEPOINT,<sp>ET=TETRAHEDRON` is accepted iff the spacing after the comma is non-empty. |
| Grammar.FemLineNeedsComma | src/TecplotLoader.cpp:43-44 | Without the comma right after `FEPOINT`, the element-type line is rejected. |
| Grammar.TetRoundTrip | src/TecplotLoader.cpp:60-64 | A row of four numbers reads back as those numbers, each cut to 32 bits. |
| Grammar.TetIndexWraps | src/TecplotLoader.cpp:738-754 | The index 2^32 in a file is stored as 0. |
| Grammar.FloatTokenAdmitsAnyMiddle | src/TecplotLoader.cpp:18 | The number pattern's unescaped `.` admits `1 5` and `1x5` as single numbers. |
| Grammar.SevenNumbersFitSixRow | src/TecplotLoader.cpp:53-58 | A line of seven integers matches the six-number vertex-and-field row. |
| Grammar.FloatTokenNeedsDigits | src/TecplotLoader.cpp:18 | Every number the pattern admits holds a digit. |
| Grammar.ZoneLineNotRow | src/TecplotLoader.cpp:18-74 | A line the plain zone pattern accepts matches neither the six-number nor the three-number row pattern, because a zone header starts with `ZO` after its spaces and a number cannot. |
| Tecplot.FollowsPatternsRejectZones | src/TecplotLoader.cpp:53-74 | Row matchers that accept exactly the lines of the six-number and three-number row patterns reject every plain zone header, so the premise of `Tecplot.LoadMultiMatchesHeader` holds for them. |
| Tecplot.LoadError.What | src/TecplotLoader.h:29-105 | A parse error's `what()` is its call-site code alone, not the composed message. Every other loader exception has a non-empty message. |
| Tecplot.Pred | src/TecplotLoader.cpp:275-280 | One-based index `n` is stored as `n-1`, and 0 wraps to 2^32-1. |
| Tecplot.Indices | src/TecplotLoader.cpp:268-284 | Zero-based files store indices unchanged. One-based files store each index less one, in unsigned arithmetic. |
| Tecplot.OneIndexingZeroWraps | src/TecplotLoader.cpp:275-280 | The one-based row `0 1 2 3` is stored as `2^32-1, 0, 1, 2`, and no error is raised. |
| Tecplot.Step | src/TecplotLoader.cpp:228-323 | A blank line changes nothing. A rejected line fails with the code of the current state. The invariant is kept, and buffers only grow. |
| Tecplot.Run | src/TecplotLoader.cpp:225-330 | Over a whole file the invariant holds. Every failure is a parse error with a reachable code: 218/228/268/278/294 for the multi-zone load, 218/268 for the single-zone load. |
| Tecplot.InitInv | src/TecplotLoader.cpp:205-224 | The initial state (START, nothing collected) satisfies the invariant. |
| Tecplot.RunSkipsBlankLines | src/TecplotLoader.cpp:228 | Removing the empty lines of a file changes no load. |
| Tecplot.StepMultiCounts | src/TecplotLoader.cpp:230-323 | In the multi-zone load, an accepted zone header adds one zone and sets the counts; no other line changes them. |
| Tecplot.RunCountsZones | src/TecplotLoader.cpp:225-330 | Over a run, the zone count grows by the number of zone headers, and the counts are those of the last header. |
| Tecplot.Checked | src/TecplotLoader.cpp:335-348 | The vertex, field and element checks run in that order; the first failing one decides, and success means all three hold. |
| Tecplot.FlattenGroup3 | src/TecplotLoader.cpp:357-361 | Grouping a buffer into vectors and flattening them gives the buffer back. |
| Tecplot.GroupFlatten3 | src/TecplotLoader.cpp:357-361 | Flattening vectors and regrouping them gives the vectors back. |
| Tecplot.FlattenGroup4 | src/TecplotLoader.cpp:369-374 | Grouping the index buffer into tetrahedra and flattening them gives the buffer back. |
| Tecplot.FieldsIndex | src/TecplotLoader.cpp:362-368 | Vector `i` of zone `k` is components `3·nvert·k + 3i` to `+2` of the field buffer. |
| Tecplot.Reshape | src/TecplotLoader.cpp:350-375 | Gives `nvert` vertices, `nelem` tetrahedra and `nzone` fields of `nvert` vectors; the vertices and tetrahedra flatten to the checked buffers. |
| Tecplot.ReshapeSingle | src/TecplotLoader.cpp:509-530 | Gives `nvert` vertices, a field of `nvert` vectors and `nelem` tetrahedra, each flattening to its buffer. |
| Tecplot.ReshapeAsWritten | src/TecplotLoader.cpp:350-375 | As written, it throws `out_of_range` exactly when some zone's field was passed in shorter than `nvert`; otherwise it agrees with `Reshape` on the first `nvert` vectors. |
| Tecplot.ReshapeAsWrittenFromEmpty | src/TecplotLoader.cpp:354-356 | With an empty field vector passed in, it throws exactly when there is at least one zone and one vertex. |
| Tecplot.LoadMulti | src/TecplotLoader.cpp:196-379 | Fails with FileAccess iff the file cannot be opened. On success, every zone's field has one vector per vertex. |
| Tecplot.LoadSingle | src/TecplotLoader.cpp:384-533 | Fails with FileAccess iff the file cannot be opened. On success, the field has one vector per vertex. |
| Tecplot.HeaderOf | src/TecplotLoader.cpp:163-191 | HeaderNotFound iff no line is a plain zone header. Otherwise the result is the zone count and the counts of the last header. |
| Tecplot.ScanCountsHeaders | src/TecplotLoader.cpp:177-183 | Whatever line recogniser is used, the scan loop counts the lines it accepts as zone headers and keeps the counts of the last one. |
| Tecplot.Header | src/TecplotLoader.cpp:163-191 | FileAccess iff the file cannot be opened; otherwise `HeaderOf` over the file's lines, each read once. |
| Tecplot.LoadMultiMatchesHeader | src/TecplotLoader.cpp:163-191 | After a successful multi-zone load, `header` reports its vertex count, element count and zone count. A load with no zones is one `header` rejects. |
| Tecplot.HeaderAsWritten | src/TecplotLoader.cpp:163-191 | As written: FileAccess iff the file cannot be opened; otherwise `HeaderOf` over the lines the `while (file)` loop hands its body. |
| Tecplot.LoadMultiAsWritten | src/TecplotLoader.cpp:196-379 | As written: the multi-zone load over the `while (file)` lines, with the reshaping of copies; FileAccess iff the file cannot be opened. |
| Tecplot.LoadSingleAsWritten | src/TecplotLoader.cpp:384-533 | As written: the single-zone load over the `while (file)` lines; FileAccess iff the file cannot be opened. |
| Tecplot.LinesAsReadTerminated | src/TecplotLoader.cpp:225-226 | For an empty text, or one that ends with a newline, the loop reads the lines and then one empty line. |
| Tecplot.HeaderAgreesWhenTerminated | src/TecplotLoader.cpp:163-191 | For such texts, `header` as written and corrected agree. |
| Tecplot.LoadSingleAgreesWhenTerminated | src/TecplotLoader.cpp:384-533 | For such texts, the single-zone load as written and corrected agree. |
| Tecplot.HeaderCountsUnterminatedTwice | src/TecplotLoader.cpp:177-183 | A lone zone header without a newline: the corrected scan counts one zone, the scan as written counts two. |
| Tecplot.UnterminatedZoneFailsAsWritten | src/TecplotLoader.cpp:246-255 | The same file: the corrected load reads one empty zone, and the load as written throws parse error 228. |
| Tecplot.LoadMultiAsWrittenThrows | src/TecplotLoader.cpp:354-368 | Every terminated file that the corrected multi-zone load reads into a zone with at least one vertex makes the load as written throw `out_of_range`. |
| Names.Search | src/DirectoryDatabase.h:282-291 | `contains` finds nothing iff the pattern matches at no position; otherwise its captures are those of the leftmost position where it matches. |
| Names.ParseName | src/DirectoryDatabase.h:125-131 | An accepted marker name has an index of at most 9999. |
| Names.NameRoundTrip | src/DirectoryDatabase.h:125-145 | Up to 9999, index → marker name → index gives back the index. |
| Names.NameBeyondFourDigits | src/DirectoryDatabase.h:125-145 | From 10000 on, the marker name for an index is rejected, so the index is left unset. |
| Names.ParseNameInverse | src/DirectoryDatabase.h:125-131 | An accepted name with index `k > 0` is the name built from `k`. Index 0 comes from `START_END` or `START_END_0000`. |
| Names.WithDir | src/DirectoryDatabase.h:208-250 | With `absPath`, the result is exactly the marker's directory, a separator and the name; without it, the name is left alone. |
| Names.ToData | src/DirectoryDatabase.h:282-291 | The stored index is the value of the four captured digits, so it is at most 9999. |
| Names.Extract | src/DirectoryDatabase.h:277-317 | In the order of `updateStartEndPair` (src/DirectoryDatabase.h:153-168): when the data-file pattern occurs, the `toInt` of the captures of its leftmost match. Otherwise, when the field-file pattern occurs, those of its leftmost match. Nothing is extracted iff neither occurs. Extracted values are within `toInt`'s range, and the index is at most 9999. |
| Names.DatRoundTrip | src/DirectoryDatabase.h:277-296 | A data file name built from readable values extracts back to those values. |
| Names.TecRoundTrip | src/DirectoryDatabase.h:298-317 | A field file name built from readable values extracts back to those values. |
| Names.LargeSizeReadsZero | src/DirectoryDatabase.h:282-291 | A data file whose size is beyond INT_MAX, with a readable temperature and a four-digit index, has its name written in full but read back with size 0. |
| Names.Update | src/DirectoryDatabase.h:152-169 | Each half takes what its file name yields, and keeps its old value when nothing is extracted; name and directory are untouched. |
| Names.FromName | src/DirectoryDatabase.h:122-136 | The name constructor stores the name, its parsed index and the values extracted from both file names. |
| Names.FromIndex | src/DirectoryDatabase.h:138-150 | The index constructor stores the index, the name built from it and the extracted values. |
| Names.ConstructorsAgree | src/DirectoryDatabase.h:122-150 | Up to 9999, both constructors build the same pair from an index and from its name. |
| Names.AsDatFile | src/DirectoryDatabase.h:208-250 | The data file name is exactly `<size>nm_<temp>C_mag_<NNNN>.dat`, preceded by the directory and a separator exactly when `absPath` is set. |
| Names.AsTecFile | src/DirectoryDatabase.h:208-250 | The field file name is exactly `<size>nm_<temp>C_mag_<NNNN>_mult.tec`, preceded by the directory and a separator exactly when `absPath` is set. |
| Names.UpdateFromOwnFiles | src/DirectoryDatabase.h:152-250 | Updating a pair from its own bare start data-file name and end field-file name leaves the pair unchanged. |
| Names.PairRoundTrip | src/DirectoryDatabase.h:138-169 | A pair built from its own data and field file names holds the values they were built from. |
| Names.MaxNameIndex | src/VCompare.cpp:686-696 | The result is at least every pair's index, and is 0 or the index of some pair. |
| Names.FieldKey | src/DirectoryDatabase.h:55-108 | The log pattern is tried first; when it matches, its captures are combined. Otherwise, when the field-file pattern matches, its captures are combined. A name matching neither pattern gets 0. |
| Names.LogAndFieldShareKey | src/DirectoryDatabase.h:71-107 | A run's log name and its field file name get the same key: size, temperature and index combined in that order. |
| Energy.Classify | src/DirectoryDatabase.h:385-489 | The six patterns are tried in source order and the first one found anywhere in the line decides. A RESTART line carries `toInt` of its digits. A Delta F or final-energy line carries the captured number. An `Energy Calls` line carries `toInt` of its digits. A line is ignored iff none of the six patterns occurs. |
| Energy.RestartLine | src/DirectoryDatabase.h:368-410 | `RESTART=<digits>` opens restart number `toInt(<digits>)`. |
| Energy.Next | src/DirectoryDatabase.h:385-489 | One line of the scan appends at most one record and never changes earlier ones. |
| Energy.FoldCount | src/DirectoryDatabase.h:385-489 | From any state, records grow by the FINISHED lines plus the RESTART lines, less one for a first RESTART met while no restart is open. |
| Energy.RecordCount | src/DirectoryDatabase.h:376-489 | A log yields one record per FINISHED line, plus one per RESTART line after the first. |
| Energy.RestartsGrow | src/DirectoryDatabase.h:385-489 | Appending lines to a log only appends records. |
| Energy.RecordsFromLog | src/DirectoryDatabase.h:376-488 | A CONVERGED record's Delta F is a value some line gave; any other record has Delta F 0.0. A restart index is -1 or comes from a RESTART line. A call count is 0 or comes from an `Energy Calls` line. A final energy is 0.0 or comes from a `Final Energy` line. |
| Energy.FailLine | src/DirectoryDatabase.h:368-448 | The line `FAILED TO CONVERGE` matches neither earlier pattern and is classified as a failure. |
| Energy.FinishedLine | src/DirectoryDatabase.h:368-488 | The line `FINISHED MINIMIZATION RESTARTS` contains the word RESTART but no restart pattern, and none of the four patterns tried before its own, so it closes a record. |
| Energy.Evaluations | src/DirectoryDatabase.h:365-495 | A log that cannot be opened gives no records. Otherwise there is one record per FINISHED line, plus one per RESTART line after the first. |
| Energy.LastEnergy | src/DirectoryDatabase.h:525-535 | `valid` iff some restart converged. The energy is then the final energy of the last converged restart; otherwise it is 0.0. |
| Energy.ScanLastEnergy | src/DirectoryDatabase.h:525-535 | The loop that overwrites on every converged record computes `LastEnergy`. |
| Energy.Insert | src/DirectoryDatabase.h:544-547 | The records go under the file's key; every other key keeps its records. |
| Energy.Value | src/DirectoryDatabase.h:549-552 | The records under the file's key, or none when the key is missing. |
| Energy.LookupLastEnergy | src/DirectoryDatabase.h:559-563 | A file whose key is missing gets `(0.0, false)`. |
| Energy.FoundByFieldFile | src/DirectoryDatabase.h:541-574 | Records inserted under the path of a run's log are found under its field file name, and give the same `lastEnergy`, when the log's directory holds no `stdout_lcl_`. |
| Names.LogKeyInDir | src/DirectoryDatabase.cpp:589-602 | A log stored under its full path gets the key of its bare name, when the directory holds no `stdout_lcl_`: the leftmost run-log match is then the file's own name. |
| Paths.Tail | src/VectorField.cpp:258-261 | The result is the last `min(length, |s|)` characters of `s`. |
| Paths.NameIndex | src/VectorField.cpp:74-78 | The result is the four characters 13 to 10 from the end, or the first up to four characters of a name shorter than 13. |
| Paths.NameIndexOfFieldFile | src/VectorField.cpp:74-78 | For any field file name, with or without a directory, the result is the padded index, and its value is the index. |
| Paths.DisplayName | src/VectorField.cpp:68-72 | The last `/`-token of a non-empty name: a token of the name with no `/` in it. |
| Paths.SplitLast | src/VectorField.cpp:57-66 | The last token of `p/f`, for a delimiter-free non-empty `f`, is `f`. |
| Paths.DisplayNameOfPath | src/VectorField.cpp:68-72 | The display name of `dir/f`, and of `f` itself, is `f`. |
| Paths.EnergyOfDisplayedField | src/VCompare.cpp:904 | Looking up a field's display name, in any directory, finds the last converged energy of the run whose log was inserted under its full path, when the log's directory holds no `stdout_lcl_`. |
| Navigation.Sort | src/VectorFieldSet.cpp:74 | `std::sort` of the paths yields a sorted permutation, with duplicates kept. |
| Navigation.SortSorted | src/VectorFieldSet.cpp:74 | Sorting already sorted paths changes nothing. |
| Navigation.FirstPositions | src/VectorFieldSet.cpp:60-72 | Every path is recorded at its first position in the input; a repeat does not overwrite it. |
| Navigation.Build | src/VectorFieldSet.cpp:52-118 | The name list is a sorted permutation of the paths. Every path is loaded. The index map holds each path's input position. Nothing is current and both flags are off. |
| Navigation.BuildSorted | src/VectorFieldSet.cpp:52-82 | The corrected construction: the index map is built from the sorted list, so `mIdxToName[mNameToIdx[p]] == p`. |
| Navigation.BuildConsistentIffSorted | src/VectorFieldSet.cpp:52-82 | For distinct paths, the list and the map of the construction agree iff the paths came in sorted order. |
| Navigation.Display | src/VectorFieldSet.cpp:132-160 | Undefined for an unknown name. A field with arrows becomes current; otherwise nothing changes. |
| Navigation.CurrentIndex | src/VectorFieldSet.cpp:188-191 | The current name's index. An unrecorded name is inserted with index 0, and 0 is read. |
| Navigation.ToggleGeometry | src/VectorFieldSet.cpp:162-173 | Flips the geometry flag only. The isosurface flag, the list and the loaded set are unchanged. |
| Navigation.ToggleIsosurface | src/VectorFieldSet.cpp:175-186 | Flips the isosurface flag only. The geometry flag, the list and the loaded set are unchanged. |
| Navigation.Next | src/VectorFieldSet.cpp:188-198 | Undefined on an empty list. It keeps the list, the loaded set and both flags, and moves only to a listed name. |
| Navigation.Previous | src/VectorFieldSet.cpp:200-210 | It keeps the list, the loaded set and both flags, and moves only to a listed name. At index 0 it is defined even on an empty list. |
| Navigation.First | src/VectorFieldSet.cpp:212-215 | Undefined on an empty list. |
| Navigation.Last | src/VectorFieldSet.cpp:217-220 | Undefined on an empty list. |
| Navigation.CurrentDisplayName | src/VectorFieldSet.cpp:125-129 | Undefined (`None`) exactly while the current name is empty; otherwise a `/`-free token of the current name. |
| Navigation.NoArrowsNoDisplayName | src/VectorFieldSet.cpp:132-160 | Showing a field without an arrow actor on a fresh set leaves the current name empty, so `currentDisplayName` is undefined. |
| Navigation.DisplayedFileName | src/VectorFieldSet.cpp:125-129 | Once `display` has made `dir/f` current, `currentDisplayName` is the bare file name `f`, whatever the directory. |
| Navigation.NavigationDefined | src/VectorFieldSet.cpp:188-220 | In a set whose indices point into a non-empty list of loaded names, next, previous, first and last are defined and keep that property. |
| Navigation.TogglesDefined | src/VectorFieldSet.cpp:162-186 | Both toggles are defined on such a set and keep it in range. |
| Navigation.NextThenPrevious | src/VectorFieldSet.cpp:188-210 | On a consistent list without repeats, `nextModel` moves from name `i` to name `i+1`, and `previousModel` moves back. |
| Navigation.StepsStopAtEnds | src/VectorFieldSet.cpp:188-210 | On such a list, `nextModel` at the last name and `previousModel` at the first name change nothing. |
| Navigation.NextBeforeDisplay | src/VectorFieldSet.cpp:188-198 | Before anything is shown, `nextModel` records the empty name at index 0, then shows the second name. |
| Navigation.UnsortedInputGetsStuck | src/VectorFieldSet.cpp:60-74 | Built from `["b","a"]`: after `firstModel` shows "a", `nextModel` stays on "a". With the corrected construction, it moves to "b". |

## Left out

- Regular expression engines: POSIX `regcomp`/`regexec` in the loader, and
  `QRegExp`/`QRegularExpression` in the markers, hasher and log scan. The
  patterns are modelled as recognisers written out by hand. Regex compilation
  errors (`TecplotRegexCompilationException`) cannot arise there.
- Number parsing: `strtod` and `QString::toDouble`. Floating-point values are
  an opaque type. The loader's row matchers and the log scan's number capture
  are parameters (`FloatRows`, `number`).
- `Tecplot.LoadMultiMatchesHeader`: the property is proved for row matchers
  that never take a plain zone header for a row (`RowsRejectZones`).
  `Tecplot.FollowsPatternsRejectZones` shows that matchers following the two
  row patterns meet that premise. The loader itself keeps its matchers
  abstract, so a matcher that departs from the patterns is not covered.
- All file I/O. A file is its text, or `None` when it cannot be opened.
  Writing and deleting marker files, and `EnergyEvaluations::str()`
  formatting, are not modelled. The `QTextStream::readLine` loop of the log
  scan is taken to yield the file's lines.
- Directory traversal in src/DirectoryDatabase.cpp is not modelled.
- VTK rendering, colour tables, the helicity and magnetisation numerics, and
  the Qt GUI are not modelled. `display` is reduced to whether the field has
  an arrow actor, which is a parameter.
- Vector/vertex algebra in src/Data.h:316-528: floating point.
- Parse codes "257" and "300". They belong to `switch` defaults that no
  indexing value or state reaches, so the model proves them unreachable.
- Tecplot.Checked: the `size_t` products `3·nvert`, `3·nvert·nzone` and
  `4·nelem` are compared without 64-bit wrap-around. The counts come from the
  header text, so a small file can declare them. For the vertex count this
  changes nothing: 3 is invertible modulo 2^64, so the wrapped product equals
  the buffer's size only when the exact one does. Once that check has passed,
  `nvert` is the number of vertex rows actually read, so `3·nvert·nzone` can
  wrap only for a file of more than 2^31 lines. For `4·nelem` the wrap does
  matter. A file that declares `E=4611686018427387905`
  (2^62+1) and has one tet row passes the C++ check, because `4·nelem` wraps
  to 4. It then fails with `std::length_error` from `eindex.resize(nelem)`.
  The model returns `ElementMismatch` for that file.
- Partial outputs on failure: the output arrays the C++ code leaves behind
  after an exception are not modelled. A failed load yields only its error.
- Names.FieldKey: the hasher calls `captures(1)` and `cap(2)` on a
  `QRegularExpression`, which has neither method. The model follows the
  evident intent: the three captures of the leftmost match.
- Names.Extract: the round trips are proved for bare file names. With a
  directory in front, the directory may itself contain a match, which would
  then win.
- Names.MaxNameIndex: the `int` comparison against `unsigned int` indices is
  taken as plain integer comparison. That is exact while indices stay far
  below INT_MAX. Indices can pass 9999: a new pair gets the largest index
  plus one (src/VCompare.cpp:336), and `START_END_9999` leads to 10000
  (`Names.NameBeyondFourDigits`). Each new pair raises the largest index by
  only one, so INT_MAX is out of practical reach.
- Names.MaxNameIndex: pairs whose name the four-digit pattern rejected are
  excluded. An example is `START_END_12345`, which the directory scan accepts
  (src/DirectoryDatabase.cpp:47). For such a pair the C++ code leaves
  `mNameIndex` uninitialised (src/DirectoryDatabase.h:126-131), so the
  maximum would read an indeterminate value.
- Navigation.Previous: the `int` conversion of the `size_t` index is taken as
  exact, since the list is short.
- Paths.DisplayName: requires a non-empty name. For the empty name `split`
  yields no tokens and `back()` is undefined behaviour. Every field's name is
  the non-empty path it was loaded from, so the set's fields never reach it;
  the reachable empty current name is handled by
  `Navigation.CurrentDisplayName`, which yields `None`.
- Navigation.Build: models only a construction in which every field file
  loads. Both constructors (src/VectorFieldSet.cpp:52-82 and 84-118) load
  each path with the single-zone loader at one-based indexing
  (src/VectorField.cpp:30-38), and any error of that load propagates out of
  the constructor, so no set is built. The model takes the loads as having
  succeeded. The progress-dialog overload differs only in reporting progress.
- Paths.DisplayName: `QDir::separator()` and the `/` in paths are both taken
  to be `/`.
- Energy.Classify: `\s` is taken to be the ASCII white space of
  `[[:space:]]`, not Unicode spaces.
- Energy.FoundByFieldFile: proved only when the log's directory holds no
  `stdout_lcl_`. A directory that held a complete run-log name would be
  matched first, and the log would be stored under that directory's key.
- Paths.EnergyOfDisplayedField: the same condition on the log's directory, for
  the same reason.
- Names.Search: `QRegExp` backtracking is reduced to the leftmost match
  position. The file-name patterns are deterministic at each position.

## Findings

| source | as written | input that shows it | evidently intended | confidence | as-written member | corrected member |
|---|---|---|---|---|---|---|
| src/TecplotLoader.cpp:177-178 | `while (file) { getline(file, line); … }` processes the last line again when the file does not end with a newline | the one-line file `ZONE T="a" N=0, E=0` without a final newline: `header` counts 2 zones | each line is processed once; the count is 1 | not executed | Tecplot.HeaderCountsUnterminatedTwice | Tecplot.Header |
| src/TecplotLoader.cpp:225-226 | the same loop in the multi-zone `load` hands the zone header over twice, and the second copy is rejected in `ZONE1` | the same file: `load` throws parse error "228" | one empty zone is read | not executed | Tecplot.UnterminatedZoneFailsAsWritten | Tecplot.LoadMulti |
| src/TecplotLoader.cpp:354-356 | `for (auto field : fields) field.resize(nvert)` resizes copies, so the fields stay empty and `fields.at(k).at(i)` throws | any well-formed one-zone file with one vertex, loaded with an empty `fields` vector | each zone's field is sized to `nvert` and filled | not executed | Tecplot.LoadMultiAsWrittenThrows | Tecplot.Reshape |
| src/VectorFieldSet.cpp:60-74 | `mNameToIdx` holds input positions, but `mIdxToName` is sorted afterwards | paths `["b", "a"]`: after `firstModel`, `nextModel` never reaches "b" | `mIdxToName[mNameToIdx[p]] == p` for every path | not executed | Navigation.UnsortedInputGetsStuck | Navigation.BuildSorted |
