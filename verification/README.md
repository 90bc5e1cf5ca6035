# A model of the vector library's releases

This project models, in Dafny, the parts of the repository that decide what a vector library
*means* from one version to the next, and proves what its documentation promises of them. One
module models one component. Every `.dfy` file is self-contained but for the modules it imports.

## The release algebra

A *plan* is the ordered stream of records of a library version: which window of which line of
which book holds which key. `PlanFile` writes and opens it as bytes in both formats. `LedgerSplit`
splits a plan against the release before it (slot, extra, foreign, held, repeat, alias), and
`LedgerFiles` writes the ledger the next release is split against. `Alias` decides which short
lines share a neighbour's vector. `Locations` finds the keys whose locations changed, `Windows`
the window of a slot, and `Assemble` puts the records of every book together and hands them to the
segment's writer, with the limits it has. `OccurrenceRows` is how the writer stores location rows:
of the lines where a key stands in a book under one parent, the first. `Segments` says what a
segment links and which locations it stores, and `Assembly` is a release made whole, with every
refusal. Two modules tell the outcome again without the functions that compute it: `StoredBooks`
says what a stored book holds, record by record, from the plan and the release before alone, and
`Snapshots` that the locations stored are those of exactly the keys whose locations changed.

`Chain` then reasons about devices: one that applied a base and any number of deltas, each
planned against the ledger of the one before and assembled on the warehouse of its day. Whatever
the warehouses, `ChainHoldsKeys` says that the keys are the last release's, and `LinksCame` and
`SameLinks` which links are left over from older ones. `ChainHolds`, `ShowsRelease` and
`PathIndependent` say that every path to one release shows the same stored locations, so that a
delta equals a rebuild, where each delta decides the aliases of the release before it as they were.
`Redecision` and `Rebuilds` say when it does: if and only if the warehouse still holds the texts
of those aliases and of their targets (`AgainIsBefore`), and so on every chain over a warehouse
that only grows (`GrowingHolds`). `DeltaIsRebuild` is the exact condition on any warehouse,
`Disputes` the same in terms of the aliases decided otherwise, which a publisher can compare, and
`StaleAlias` a chain that does not meet it. `Publish` closes the loop: what assembling leaves is
what the next step of the chain asks for. `Builder` is the second implementation of the slot
assignment, and is proved to agree with the first. `Coverage` is the release gate that counts what
a device reaches.

## The installer

`Importer` is a step machine over three names (target, previous, staging), with the states a crash
may leave kept beside the state the process sees. Any rename, flush, copy or removal may fail, and
the process may die at any point, inside a removal too. `Recover`, `Import` and the swap are
methods on it; `Live` is any run of them.

## The graph walk and the package manifest

`Wire` holds the bounded reads, `GraphWalk` the walk as functions of the bytes, and `Walker` the
walk as the program makes it: an object that reads forward, each of whose methods is proved to do
what the function says. The visitors of the ten walked messages are a table (`Onnx.Visitors`) and
the walk takes any table, so `Truncation` (truncated is told apart from damaged), `Overruns` and
`TreeWalk` (walking the encoding of a message tree gives what the tree means) hold for any.
`ExternalTensors` says what the walk gathers of an ONNX model by that table. `ModelPlaces` says
where the tensors of a model stand by the numbers of the fields that lead to them, and `ModelWalk`
that the walk accepts a model exactly where its tensors are in bounds, and gathers exactly those
at these places. `SmallModel` is such a model in forty-five bytes.
`Manifest`, `PackageNames`, `ExternalData` and `JsonDepth` are the canonical manifest, its names,
the grouping of external data and the nesting scan.

## Algorithms

`Calibration` is the two-pass histogram selection, `Ranking` the chunked bounded-heap search,
`Prefixes` the collision check, `Calendar` the civil date of a day count. Each is proved against
the plain specification it stands for: a full sort, all pairs, the calendar's successor.

## Reading the model

- A key is the number its sixteen bytes spell big-endian; `Bytes.BigEndianIsLexicographic` is why
  that changes no comparison. A book's name is its rank in byte order.
- A 64-bit word of `kept` is the set of its set bits.
- A warehouse is its vectors by text, and how two vectors compare, to a real value or none, is a
  parameter; so a score exists only for texts it holds. Scores in `Ranking` are integers, and
  absolute values in `Calibration` are the bit patterns of non-negative floats, which order alike.
- `P(..) == true`, where it stands for `P(..)`, keeps the verifier from taking a predicate apart.
- A loop that the source writes in one long function is, where its body is long, a method of its
  own here (`Classify` and `ClassifyRecord`, `AddBooks` and `AddNext`): the variables it updates
  are then a datatype handed from turn to turn. The vectors an assembly lacks are counted in a
  pass of their own.
- `assert false` stands where the source says a branch is unreachable, in `Calibration.Find`, and
  where it cannot be reached although the source allows for it, after the loop of
  `Walker.GraphWalker.Varint`.

Facts about the code that its documentation does not say, or says otherwise, all proved:

- `docs/VECTOR_BUILD.md:299-302` says that a delta decides the aliases of the release before it
  again, "so they are stable". They are not in general: on a warehouse of the same package without
  an alias's text, nothing is missing, the delta is accepted, and a device keeps a line that a
  rebuild has not (`StaleAlias.StaysStale`, `StaleAlias.PublishStale`). They are stable exactly
  where the texts are held (`Redecision.DecidedAlike`);
- at exactly 2^32 new keys the split succeeds and reports 0 slots (`LedgerLaws.SlotsReportedWrap`;
  `LedgerLaws.Conservation` says exactly when the counts add up); an assembly refuses them, since
  its writer counts below 2^32 (`Assemble.TakesAllMeans`); and past that the builder goes on where
  the split refuses;
- a records writer takes a line whose first record is not window 0, and opening the finished file
  refuses it (`PlanFile.LineMayNotBegin`; `PlanFile.WrittenOpensExactly` says exactly when it
  opens);
- the refusal of a varint longer than ten bytes can never be the one reported: a tenth byte that
  asks for another is already wider than one bit.

## Model

| member | source | states |
|---|---|---|
| `Plan.AnchorUnique` | src/distribution/plan.rs:321-342 | the anchor of a location is the key of the record at (book, ordinal, 0): an accepted plan has exactly one |
| `Plan.Occurrences` | src/distribution/plan.rs:321-342 | streaming with one parent in hand gives every record its own line's anchor; the fallback for a window without a parent is never reached |
| `PlanFile.RecordRoundTrip` | src/distribution/plan.rs:107-128 | decoding an encoded record gives it back, but for the window and short mark an `OXVREC1` record does not store |
| `PlanFile.RecordLayout` | src/distribution/plan.rs:107-128 | a record's bytes by position: book and ordinal least byte first, then in `OXVREC2` the window, the mark and two zeros, then the thirty-two bytes of the digest in their order; 40 bytes or 44 |
| `PlanFile.FileLayout` | src/distribution/plan.rs:177-237 | a file's first sixteen bytes by position: `OXVREC1` or `OXVREC2`, a line end, and the count, least byte first; then the records |
| `PlanFile.ReservedBits` | src/distribution/plan.rs:107-128 | re-encoding a decoded record gives the same bytes if and only if its unused flag bits and its two padding bytes are zero |
| `PlanFile.RecordsWriter.Push` | src/distribution/plan.rs:177-214 | a record is taken if and only if all records pushed, with it, are still what a writer asks; a refusal writes nothing and names the first rule broken |
| `PlanFile.RecordsWriter.Finish` | src/distribution/plan.rs:220-237 | the finished file is the magic, the count of records pushed over the zero written first, and their encodings in order |
| `PlanFile.GetIsIter` | src/distribution/plan.rs:352-361 | the record read at an index is the one the stream gives at that place |
| `PlanFile.BodyRoundTrip` | src/distribution/plan.rs:107-128 | any number of records written one after another are read back, each as the format keeps it |
| `PlanFile.CheckRecords` | src/distribution/plan.rs:284-309 | the checks of opening pass if and only if the records are a plan: in order, within their ranges, every line begun by window 0 |
| `PlanFile.Open` | src/distribution/plan.rs:249-311 | a file is opened if and only if it is laid out as records of a plan; a wrong magic and a wrong length are told apart from the rest |
| `PlanFile.FileRoundTrip` | src/distribution/plan.rs:249-311 | a written file is laid out as the records it was written from, in both formats |
| `PlanFile.WrittenOpensExactly` | src/distribution/plan.rs:178-311 | what a writer accepted opens if and only if every line it was given begins with window 0, which the writer does not ask and opening does |
| `PlanFile.LineMayNotBegin` | src/distribution/plan.rs:178-311 | a concrete plan that a writer takes whole and opening refuses |
| `Sorting.BinarySearch` | src/distribution/ledger.rs:268-271 | a binary search finds a key if and only if it is there, at its only position |
| `Sorting.AscendingUnique` | src/distribution/ledger.rs:358-412 | two sorted files with the same entries are the same file |
| `LedgerSplit.FindKey` | src/distribution/ledger.rs:268-271 | whether, and where, the previous release holds a key |
| `LedgerSplit.ContainsPair` | src/distribution/ledger.rs:278-286 | whether the previous release recorded a key in the book of that name |
| `Prefixes.PairsOrderAsBytes` | src/distribution/ledger.rs:304-310 | the order of pairs as numbers is the order of their twenty bytes, book big-endian first |
| `Bits.SetCounts` | src/distribution/ledger.rs:515-522 | setting a clear bit adds one to the bits set |
| `LedgerSplit.Classify` | src/distribution/ledger.rs:496-555 | every record gets exactly one disposition, told by the records before it and the release before: a repeat where an earlier record of its book, no alias, has its key, whether that key is old or new; otherwise held or foreign, extra or slot; the foreign ones are as many as the (book, key) pairs of old keys the release before lacks; the slots are counted as they are cast to 32 bits; it fails if and only if there are more than 2^32 new keys, with every record before the first without a slot decided |
| `LedgerSplit.DispositionIs` | src/distribution/ledger.rs:516-543 | a record is a repeat, held, foreign, an extra of a slot or a new slot if and only if the records before it and the release before say so; nothing else decides it |
| `LedgerSplit.ForeignPairsCounted` | src/distribution/ledger.rs:519-533 | foreign records are counted once a book and key, however many lines hold the key there |
| `LedgerSplit.DecidableMeans` | src/distribution/ledger.rs:536-543 | the records decided are all of them, or those before the first whose new key is one more than 2^32 |
| `LedgerSplit.ClassifyRecord` | src/distribution/ledger.rs:509-544 | one turn of the loop gives its record the disposition the records before it and the release before say, and keeps the slot map, the book's keys, the kept bits and the counters what the records read so far make them |
| `LedgerSplit.NewKeysAre` | src/distribution/ledger.rs:496-555 | the keys given slots are distinct, not held before, and exactly the plan's own keys that are new |
| `LedgerSplit.KeysMeans` | src/distribution/ledger.rs:496-555 | a key is one of the plan's if and only if some record that is not an alias has it |
| `LedgerLaws.SlotStep` | src/distribution/ledger.rs:533-543 | a slot is given exactly where a new key first appears, and its number is the number of slots before it |
| `LedgerLaws.Conservation` | src/distribution/ledger.rs:496-555 | slots, extras, foreign, held, repeats and aliases add up to the records; foreign is the number of (book, key) pairs of old keys that are new to their books; unique is reused plus the new keys and is the number of distinct keys that are not aliased; the slots reported are the slots given, and with reused make up unique, if and only if there are fewer than 2^32 new keys |
| `LedgerLaws.SlotsReportedWrap` | src/distribution/ledger.rs:546-554 | a concrete plan of 2^32 new keys is split, and its slots are reported as 0 |
| `LedgerLaws.SlotOrigin` | src/distribution/ledger.rs:533-543 | every new key's slot was given at a record of that key |
| `LedgerLaws.ExtraNamesEarlierBook` | src/distribution/ledger.rs:533-535 | an extra names the slot of its own key, given in a strictly earlier book |
| `LedgerLaws.SlotsDense` | src/distribution/ledger.rs:533-543 | slot numbers are dense, each given once, in order of first appearance |
| `SplitCounts.ReusedAreHeld` | src/distribution/ledger.rs:518-524 | what is counted as reused is the keys of the release before that the plan holds |
| `SplitCounts.TombstonesAndReused` | src/distribution/ledger.rs:591-600 | tombstones and reused keys add up to the keys of the release before |
| `SplitCounts.SplitPlan` | src/distribution/ledger.rs:574-616 | the counts of a split, each the size of the set it counts, those to ship as they are cast; the counts add up if and only if there are fewer than 2^32 new keys; the tombstones are exactly the keys no longer held, ascending |
| `SplitCounts.RevivedAre` | src/distribution/ledger.rs:578-590 | what is counted as revived is the shipped records whose text the warehouse holds |
| `LedgerFiles.SortedFileWriter.constructor` | src/distribution/ledger.rs:358-383 | a new file has no entries |
| `LedgerFiles.SortedFileWriter.Push` | src/distribution/ledger.rs:396-411 | an entry is written if and only if it is past the last one; a refused one changes nothing |
| `LedgerFiles.WriteKeys` | src/distribution/ledger.rs:679-696 | the merge of kept and new keys never trips the order check, and writes exactly the keys the plan holds |
| `LedgerFiles.WriteTombstones` | src/distribution/ledger.rs:591-600 | the tombstones file is in order and holds exactly the old keys the plan does not |
| `LedgerFiles.FlushBook` | src/distribution/ledger.rs:701-709 | one book's buffered keys, sorted and deduplicated, are written as pairs past all before them; the writer never refuses |
| `LedgerFiles.PairsMean` | src/distribution/ledger.rs:698-724 | a pair is the release's if and only if some record that is not an alias is of that book and key |
| `LedgerFiles.WritePairs` | src/distribution/ledger.rs:698-724 | the pairs file is in order and holds exactly the release's pairs |
| `LedgerFiles.WriteLedger` | src/distribution/ledger.rs:663-724 | writing a ledger never fails, and leaves the ledger of the plan with the threshold and the format it was given |
| `LedgerFiles.LedgerIndependentOfPrevious` | src/distribution/ledger.rs:663-724 | a delta and a base of one plan leave the same ledger but for the threshold and the format, whatever releases came before |
| `Alias.BestIsFirstGreatest` | src/distribution/alias.rs:160-182 | the neighbour chosen scores most, and the first tried wins a tie |
| `Alias.FindLine` | src/distribution/alias.rs:165-168 | the binary search of a book's first windows finds the line of that ordinal if and only if there is one |
| `Alias.ChooseTarget` | src/distribution/alias.rs:160-182 | trying the neighbours in order gives a short line a target if and only if a line of its book one or two lines away, not short, scores at least the threshold; the target is the best of those, on equal scores the nearest, and of two as near the earlier |
| `Alias.DecideBook` | src/distribution/alias.rs:152-184 | one book adds exactly its short lines that found a target |
| `Alias.WholeKeys` | src/distribution/alias.rs:196-211 | a key is aliased if and only if every record of it found a target |
| `Alias.DecideWith` | src/distribution/alias.rs:117-215 | the whole decision, at every threshold: a record is an alias if and only if every record of its key is short and has such a line within two, and its target is the best of them; refused exactly above 1 |
| `Alias.ChoiceIsPreferable` | src/distribution/alias.rs:160-182 | the target chosen, told by the lines alone: none of the lines within two that score enough is preferred to it, and there is one wherever such a line is |
| `Alias.DecidesShared` | src/distribution/alias.rs:149-215 | so a decision is exactly the records whose key is short everywhere and has such a line everywhere, each with its best |
| `AliasLaws.ChoiceIsNeighbour` | src/distribution/alias.rs:160-182 | a target is a first window at a distance of 1 or 2 in the same book, not short, and scores at least the threshold |
| `AliasLaws.NoChains` | src/distribution/alias.rs:149-215 | no record of a target's key is itself an alias |
| `AliasLaws.AliasedWhole` | src/distribution/alias.rs:196-211 | a key is aliased by all of its records or by none |
| `AliasLaws.AliasResolves` | src/distribution/alias.rs:149-215 | every target is shipped as a slot or kept from the release before by the same split, and recorded in the alias's own book; no aliased key is shipped |
| `Windows.LeastWindowMeans` | src/distribution/assemble.rs:594-609 | the least window of a key is some record's, and no record of the key has less |
| `Windows.SlotWindows` | src/distribution/assemble.rs:594-609 | the two passes give every key the least window of its records, and no entry to a key at window 0 |
| `Locations.Collect` | src/distribution/assemble.rs:564-577 | draining a cursor takes exactly one book's rows, by key and in order, and leaves the later books |
| `Locations.CompareBook` | src/distribution/assemble.rs:578-589 | one book's comparison finds exactly the keys whose rows there differ |
| `Locations.ChangedKeys` | src/distribution/assemble.rs:540-592 | the merge of the two streams by book name finds a key if and only if its rows differ in some book |
| `Assemble.AliasedOccurrences` | src/distribution/alias.rs:81-98 | the plan's occurrences, an alias's under its target's key with its own as the anchor |
| `Assembly.ChangedOccurrences` | src/distribution/assemble.rs:538-592 | the snapshot keys of a delta are those whose rows differ from the release before's, decided again, in some book; none for a plan without windows, and all to be written where the release before has no snapshot |
| `Snapshots.SnapshotsAre` | src/distribution/assemble.rs:538-592 | a delta stores the locations of a key if and only if one of them came, went or moved since the release before, as decided again; a base with windows, or a delta on a release without a snapshot, stores all |
| `Snapshots.DifferingMoved` | src/distribution/assemble.rs:538-592 | the rows of a key differ, as lists, if and only if some location is one release's and not the other's |
| `Assemble.AddBooks` | src/distribution/assemble.rs:305-378 | the record-to-segment loop adds each book once, in order, with exactly its records (`StoredBooks.BooksStored` says which those are), and hands it to the writer as it ends; the segment's slots are the new keys in slot order; the first refusal met, in the order the records are read, is the one reported: a book the writer refuses, a record without a slot, or in the end the vectors missing, with their number |
| `StoredBooks.BooksStored` | src/distribution/assemble.rs:305-378 | every stored book, told by the plan and the release before alone: a key new to the library is a slot of the first book that holds it, with the least window of its records; in a later book an extra names that slot; a key held before is a foreign record where its book is new to it or its locations are stored; each once, at the first line of the book whose own record holds the key; and the rows are those of its records, aliases under their targets |
| `StoredBooks.MissingAre` | src/distribution/assemble.rs:305-378 | the vectors an assembly is refused for are those of the shipped records whose text the warehouse lacks |
| `StoredBooks.RefusalMeans` | src/distribution/assemble.rs:305-378 | a build is accepted if and only if its new keys are at most 2^32, the writer takes all its books and no shipped text lacks its vector; vectors are the reason only where nothing else is, and keys only where the writer took the books before the first without a slot |
| `Assemble.TakesAllMeans` | src/semantic/oxv/writer.rs:145-210 | taking the books one by one, the writer refuses none if and only if every hint recorded is at most 2^31 - 1 and the slots, which are the segment's slot keys, the extras and the foreign records are each fewer than 2^32 in all |
| `SmallPlans.SmallPlanTaken` | src/semantic/oxv/writer.rs:145-210 | so a plan of fewer than 2^32 records, at lines below 2^31, is refused for no limit of the segment |
| `OccurrenceRows.KeepFirst` | src/semantic/oxv/writer.rs:422-436 | the rows handed to the writer are stored in strictly ascending order, by key, book and line, and a row if and only if no other of its key and book names its anchor in its window at an earlier line |
| `Assembly.WriteSegment` | src/semantic/oxv/writer.rs:235-443 | what the writer asks of a segment, exactly: every row has a record of its key in its book, every extra names a slot, a base has no foreign record and no tombstone, and an alias row needs format 3 |
| `Assembly.AlwaysWritable` | src/semantic/oxv/writer.rs:235-443 | and every build's segment has it: none of those refusals is ever met |
| `Assembly.AssembleBuild` | src/distribution/assemble.rs:305-420 | the segment holds the build's books, each as the plan and the release before say, its tombstones and stored rows, and the ledger written is the build's with its threshold and format; refused exactly where the loop refuses |
| `Assembly.CheckKeyPrefixes` | src/distribution/assemble.rs:119-142 | a release is refused if and only if its format stores eight bytes of a key and two distinct keys of the plan and the ledger share them |
| `Assembly.AssembleRelease` | src/distribution/assemble.rs:205-420 | a base or a delta from a plan alone: the keys told apart, the threshold and the format checked and kept, the aliases of the plan and of the release before decided on the warehouse, the snapshot chosen, every book stored as the plan and the release before say, the ledger of the release; it succeeds exactly where nothing refuses it, and the refusal reported is the first of those the code makes |
| `Assembly.ThresholdMeans` | src/distribution/assemble.rs:217-240 | a base decides at the threshold it is asked, none for 0; a delta at its chain's, and is refused another; outside 0 to 1 is refused first |
| `Assembly.FormatMeans` | src/distribution/assemble.rs:119-245 | aliases are refused in a format before 3, and from 3 on two distinct keys of the plan or the ledger that share eight bytes; a delta's format is its ledger's |
| `Segments.LeastPerKeyFirstLine` | src/distribution/assemble.rs:510-513 | sorting and deduplicating the foreign records keeps every key, at its first line |
| `Segments.LeastPerKeyAscends` | src/distribution/assemble.rs:510-513 | and leaves each key once, in order |
| `Segments.ContentsKeys` | src/distribution/assemble.rs:330-371 | a book's slots, extras and foreign records, read through the segment's slot numbers, are exactly the keys its records link |
| `Segments.SegmentPairs` | src/distribution/assemble.rs:330-371 | a segment links a book to a key if and only if some record of the book does, as new or again for its snapshot |
| `Segments.HandedRows` | src/distribution/assemble.rs:330-338 | the rows handed to a segment's writer are exactly the release's, of the keys in its snapshot |
| `Segments.SegmentLocations` | src/semantic/oxv/writer.rs:422-436 | the locations a segment stores are exactly those the release does: of the keys in its snapshot, and of the lines where a key stands in a book under one anchor in one window, the first |
| `Segments.StoredOnce` | src/semantic/oxv/writer.rs:422-436 | a text at two lines of a book under one parent is stored at the first alone |
| `Segments.RowHasRecord` | src/semantic/oxv/writer.rs:252-270 | every row of a segment has a record of its key in its book, an alias's by its target, so the writer's refusal of one without is never met |
| `Segments.RowsKeepWindow` | src/semantic/oxv/writer.rs:270-285 | the least window of a shipped key's rows, which the writer takes for its slot, is the one the slot was given |
| `Segments.LocationsAreRows` | src/distribution/assemble.rs:538-592 | a release's locations of a key in a book are the rows the comparison reads |
| `Prefixes.SharedPrefix` | src/distribution/assemble.rs:146-156 | a pair is found if and only if two distinct keys of the input share their first bytes |
| `Prefixes.NeighboursSuffice` | src/distribution/assemble.rs:146-156 | if no neighbours in sorted order share a prefix, no two keys do |
| `Bytes.BigEndianIsLexicographic` | src/distribution/assemble.rs:146-156 | keys compare byte by byte as the numbers they spell |
| `Calibration.Count` | src/distribution/assemble.rs:678-688 | one pass fills every bucket with the number of values that fall in it |
| `Calibration.Find` | src/distribution/assemble.rs:690-699 | the scan of the buckets stops at the one holding the rank; falling off the end cannot happen |
| `Calibration.TwoPasses` | src/distribution/assemble.rs:700-712 | upper half, then lower half under it, is the value at the rank |
| `Calibration.RankIsSorted` | src/distribution/assemble.rs:658-663 | the value at the rank is the one a full sort puts there |
| `Calibration.Calibrate` | src/distribution/assemble.rs:664-721 | for any vectors, width and quantile in (0, 1], every scale is exactly the sorted column's value at rank r with r <= clip (n - 1) < r + 1, or 1 where that is zero or not finite; refused otherwise |
| `Redecision.DecidedAlike` | src/distribution/assemble.rs:247-252 | a release's aliases, decided with all its texts held, come out the same on another warehouse of the package if and only if that one holds the text of every alias and of its target |
| `Redecision.AssembledHoldsAll` | src/distribution/assemble.rs:305-378 | where no vector was missing, the warehouse holds every text of the plan whose key the release before did not hold; so all of them, if it holds that release's |
| `Chain.LinkAfter` | src/distribution/assemble.rs:305-386 | after a delta a device has a link if and only if the release does, or the device had it and the release keeps its key |
| `Chain.ChainHoldsKeys` | src/distribution/gates.rs:625-648 | a device on any chain of releases, whatever warehouse each was assembled on, holds exactly the last one's keys, all of its links, and links of no other key |
| `Chain.LinksCame` | src/distribution/assemble.rs:379-386 | a device on any chain has a link if and only if it is the last release's, or an older one's and every release since has kept the key |
| `Chain.CameMeans` | src/distribution/assemble.rs:379-386 | that is: for some n the release n steps back had the link, and it and every release since has the key |
| `Chain.SameLinks` | src/distribution/gates.rs:625-648 | two chains to one release leave the same links if and only if they leave the same leftovers; a base leaves none, so a delta's links are a rebuild's exactly where no older release had a link that the last has not, of a key kept since |
| `Chain.StepHoldsLocations` | src/distribution/assemble.rs:538-592 | a delta that decides the aliases of the release before as they were leaves a device that held what that release stores holding what the new one does |
| `Chain.ChainHolds` | src/distribution/gates.rs:625-648 | a device on a chain whose deltas all do so holds its last release: its keys, its links, and of those keys exactly the locations it stores |
| `Chain.ShowsRelease` | src/semantic/segment_set/mod.rs:420-511 | what a device holding a release shows in a book is exactly what the release stores there: the first line of each key, anchor and window |
| `Chain.PathIndependent` | src/distribution/gates.rs:625-648 | two devices whose chains end in one release hold the same keys, and where the deltas decided alike show the same locations in every book; one chain may be a base, so a delta is a rebuild |
| `Chain.Publish` | src/distribution/assemble.rs:205-420 | assembling a base, or a delta on the ledger the last release left, on any warehouse, extends the chain and leaves what the next call asks for; it succeeds exactly where the assembly does |
| `Rebuilds.AgainIsBefore` | src/distribution/assemble.rs:247-252 | a delta decides the aliases of a release assembled with all its texts held as they were if and only if its warehouse holds the text of every alias and of its target |
| `Rebuilds.HeldAliasesHold` | src/distribution/gates.rs:625-648 | so a delta over a chain that decided alike leaves the device holding its release wherever its warehouse holds those texts |
| `Rebuilds.KeptSettles` | src/distribution/assemble.rs:247-252 | on a chain where each delta's warehouse still holds every text of the release before, every delta decides alike, and every release was assembled with all its texts held |
| `Rebuilds.GrowingHolds` | src/distribution/gates.rs:625-648 | over a warehouse that only has vectors added, a device on any chain holds its last release |
| `Rebuilds.DeltaIsRebuild` | src/distribution/assemble.rs:538-592 | on any warehouse, a delta leaves a device showing what a rebuild does if and only if, of the keys it leaves alone, the device's locations are those the release before stores as decided again |
| `Disputes.UndisputedExactly` | src/distribution/assemble.rs:247-252 | a release and the same decided again store the same under a key if and only if no record whose target differs is stored under it in either |
| `Disputes.UndisputedIsRebuild` | src/distribution/assemble.rs:538-592 | a delta on a device that holds the release before shows what a rebuild does wherever no such record is stored under a key the delta keeps and leaves out of its snapshot; and only there, where the device has nothing left over of keys it forgot |
| `Disputes.DeltaOverBase` | src/distribution/assemble.rs:538-592 | so a delta over a base is a rebuild if and only if there is no such record |
| `StaleAlias.StaysStale` | src/distribution/assemble.rs:247-303 | a concrete chain after which a device shows a line the last release has not: its text was not in the delta's warehouse, so the delta took it for no alias |
| `StaleAlias.PublishStale` | src/distribution/assemble.rs:205-420 | both of its releases are accepted, their keys differing in the eight bytes the format stores, so it can be published |
| `Builder.Locate` | src/distribution/builder.rs:666-687 | a chunk's anchor is its line's first window's key; the refusal of a window without one is never reached on a plan's stream |
| `Builder.AddChunk` | src/distribution/builder.rs:688-706 | one chunk's slot, extra, repeat and window agree with the split's and the assembly's, the slot number cast to 32 bits unchecked |
| `Builder.EmbedBook` | src/distribution/builder.rs:664-707 | one book's records are those the assembly gives it, but for that cast |
| `Builder.EmbedCorpus` | src/distribution/builder.rs:611-749 | the builder refuses a plan's stream exactly where a book has more than 2^31 - 1 lines; its slots, rows and primary records are those the split and the assembly give the same records, with no release before and no alias, and its extras are theirs but for slot numbers cast to 32 bits; up to 2^32 new keys the extras and the windows are theirs too |
| `Builder.ExtrasFit` | src/distribution/builder.rs:698-706 | up to 2^32 new keys no extra's slot number is changed by the cast |
| `Coverage.Count` | src/distribution/gates.rs:680-737 | coverage counts a plan's records and those of them a device shows, is complete if and only if it shows every one, and names the first it does not: a record is shown by a row of its own key, its line's first key and its window, or by an alias row of its key |
| `Coverage.ReachedIsShown` | src/distribution/gates.rs:720-728 | what is looked up in a book's three sets is exactly such a row: nothing is counted without its own |
| `Coverage.ChainReachesAll` | src/distribution/gates.rs:680-737 | a device on a chain whose deltas decided alike reaches every record of its last plan, aliases included |
| `Coverage.GrowingReachesAll` | src/distribution/gates.rs:680-737 | and so does one on any chain over a warehouse that only has vectors added |
| `Ranking.TopUnion` | src/distribution/gates.rs:797-831 | the best of two chunks' best are the best of both |
| `Ranking.TopUnique` | src/distribution/gates.rs:797-831 | there is one best k |
| `Ranking.BestOfIsTop` | src/distribution/gates.rs:797-853 | the first k of the full descending sort are the best k, in order |
| `Ranking.TopK` | src/distribution/gates.rs:797-831 | on any number of threads the answer is the first k of the full descending sort: by score descending and then key ascending, and nothing left out comes before any of it |
| `Importer.Disk.constructor` | src/distribution/importer.rs:202-253 | a directory at rest: a crash leaves what is there |
| `Importer.Disk.Crash` | src/distribution/importer.rs:202-253 | a crash leaves the directory as it was after some operation at least as late as the last flush |
| `Importer.Disk.Rename` | src/distribution/importer.rs:555-575 | a rename moves a whole name, or fails and changes nothing |
| `Importer.Disk.Flush` | src/distribution/importer.rs:531-540 | a flush that succeeds leaves a crash only the current state; one that fails promises nothing |
| `Importer.Disk.Remove` | src/distribution/importer.rs:515-529 | removing a directory may stop or be cut halfway |
| `Importer.Recover` | src/distribution/importer.rs:202-253 | under every failure and crash no only copy is lost and what would be recovered stays the same; a success leaves it whole at the target with nothing beside it, flushed where anything was done, and reports what it found; only a step that failed makes it fail, and which error says whether the target was left |
| `Importer.RecoverTwice` | src/distribution/importer.rs:202-253 | after a recovery that succeeds, another reports nothing and leaves the directory, and what a crash may leave, as the first did |
| `Importer.RestoreParked` | src/distribution/importer.rs:464-502 | putting the parked artifact back loses nothing; where no further step fails it is at the target again, flushed; the plain error is reported only with an artifact at the target |
| `Importer.SwapParked` | src/distribution/importer.rs:419-440 | with the old artifact parked, a swap either completes durably or leaves the target absent for the parked one; where no step fails the superseded copy is gone and the swap flushed |
| `Importer.SwapIntoPlace` | src/distribution/importer.rs:392-462 | a success leaves the new artifact at the target whatever a crash leaves; with no step failed the superseded copy is removed and that flushed; a failure leaves the old or the new recoverable |
| `Importer.StageAndSwap` | src/distribution/importer.rs:310-382 | staging and swapping keep every state a crash may leave good; with no step failed nothing is left beside the new artifact, durably |
| `Importer.Import` | src/distribution/importer.rs:289-382 | an import ends in the new artifact, durable, or in one of the two recoverable, under every schedule of failures; with no step failed it leaves the new artifact alone in the directory, whatever was there, and a crash can undo none of it; a refusal touches nothing, and only a refusal or a step that failed keeps the new one from being installed |
| `Importer.Live` | src/distribution/importer.rs:197-382 | over any run of imports, recoveries and crashes, once one install has succeeded every state a crash may leave has an intact copy at the target or parked |
| `Calendar.YearHolds` | src/distribution/package.rs:901-918 | a day of an era is in the year the formula gives |
| `Calendar.YearUnique` | src/distribution/package.rs:901-918 | and in no other |
| `Calendar.DatesValid` | src/distribution/package.rs:901-918 | every day count, before or after 1970, is a valid date |
| `Calendar.Epoch` | src/distribution/package.rs:898-901 | day 0 is 1970-01-01 |
| `Calendar.NextDay` | src/distribution/package.rs:901-918 | day d + 1 is the calendar's successor of day d |
| `Calendar.DatesAscend` | src/distribution/package.rs:901-918 | later days are later dates, so no date is given twice |
| `Wire.VarintInverts` | tools/onnx_package_checksum.py:423-438 | reading an encoded 64-bit number gives it back, wherever it stands and whatever follows |
| `Wire.VarintFits` | tools/onnx_package_checksum.py:423-438 | no varint read is 2^64 or more, nor longer than ten bytes |
| `Walker.GraphWalker.Within` | tools/onnx_package_checksum.py:400-414 | a read past the end is truncation in the outermost message and malformation in any other |
| `Walker.GraphWalker.Varint` | tools/onnx_package_checksum.py:423-438 | the loop reads what the specification reads; its last refusal, a varint longer than ten bytes, cannot be reached |
| `Walker.GraphWalker.Tag` | tools/onnx_package_checksum.py:451-467 | a tag of more than 32 bits, of field 0 or of an unknown wire type is malformed |
| `Walker.GraphWalker.ValueEnd` | tools/onnx_package_checksum.py:469-473 | where an announced value ends, within the message |
| `Walker.GraphWalker.Enter` | tools/onnx_package_checksum.py:475-483 | depth and number of messages are bounded |
| `Walker.GraphWalker.SkipValue` | tools/onnx_package_checksum.py:485-498 | skipping a value moves past exactly it |
| `GraphWalk.WiresSkip` | tools/onnx_package_checksum.py:485-498 | by wire number: 0 a varint, 1 eight bytes, 2 a length and that many, 5 four bytes, 3 a group one level deeper, and nothing else |
| `GraphWalk.WalkFew` | tools/onnx_package_checksum.py:475-483 | an accepted file has at most 2^24 messages and groups in all, whatever its bytes and its visitors |
| `Walker.GraphWalker.SkipGroup` | tools/onnx_package_checksum.py:500-509 | a group is skipped to the end marker of its own field |
| `Walker.GraphWalker.Fields` | tools/onnx_package_checksum.py:511-537 | walking a message's fields is the specification's walk, with the regions left as they were found |
| `Walker.GraphWalker.Model` | tools/onnx_package_checksum.py:539-569 | walking the file is the specification's walk of it |
| `Truncation.PrefixIsTruncated` | tools/onnx_package_checksum.py:371-414 | a file the walk accepts, cut anywhere, is accepted or refused as truncated, never as malformed or over a limit; and the byte said to be missing is one the whole file has |
| `Truncation.PrefixFailsAlike` | tools/onnx_package_checksum.py:371-414 | a file the walk refuses, cut anywhere, is refused as truncated or in the same way, or accepted |
| `Overruns.NestedOverrunIsMalformed` | tools/onnx_package_checksum.py:371-376 | a field whose tag or value runs past the message another one holds is malformed, even where that message ends with the file |
| `Overruns.NestedGroupOverrun` | tools/onnx_package_checksum.py:371-376 | and so is a field of a group in it, or a group that its end cuts off |
| `Overruns.NestedNeverTruncated` | tools/onnx_package_checksum.py:371-376 | no refusal inside a message another one holds is truncation |
| `Overruns.TruncatedNeedsMore` | tools/onnx_package_checksum.py:400-414 | a file is refused as truncated only for bytes past its end |
| `MessageTree.Sized` | tools/onnx_package_checksum.py:469-473 | an encoded tree is as long as its fields say |
| `MessageTree.SkipValueReads` | tools/onnx_package_checksum.py:485-509 | every encodable value, groups however deep, is skipped to the byte after it |
| `TreeWalk.FieldsRead` | tools/onnx_package_checksum.py:511-537 | walking a tree's bytes stops at their end and gives what the tree means, for any varint encoder that reads back |
| `TreeWalk.WalkInvertsEncoding` | tools/onnx_package_checksum.py:511-569 | for every message tree within the limits the walk accepts its encoding whole, counts its messages and gives what the tree means, or refuses what the visitors refuse |
| `Onnx.CountElements` | tools/onnx_package_checksum.py:808-815 | capping the product of the dimensions at every step is capping it once; refused exactly for a negative dimension |
| `Onnx.Slots` | tools/onnx_package_checksum.py:780-787 | each named key's one value; refused exactly where one is given twice |
| `Onnx.ExternalReference` | tools/onnx_package_checksum.py:773-828 | what an external tensor needs of its file, and every way it is refused |
| `Onnx.GivenOnce` | tools/onnx_package_checksum.py:780-787 | a key named by one entry has its value, or the empty one where the entry has none |
| `Onnx.SignedReadings` | tools/onnx_package_checksum.py:354-361 | a 64-bit and a 32-bit reading are the two's complement ones |
| `Onnx.PayloadMeans` | tools/onnx_package_checksum.py:805-822 | without a length, a tensor needs a bit for each of its elements, rounded up to bytes; nothing for strings and undefined types; none can be told with a negative dimension |
| `ExternalTensors.TensorMeans` | tools/onnx_package_checksum.py:672-716 | a walked tensor leaves what its fields say: the last of a repeated scalar, all the dimensions and entries |
| `ModelPlaces.KindsAgree` | tools/onnx_package_checksum.py:539-670 | which messages the walk enters, told by the numbers of the fields that lead to them: graphs at 7, 20.1 and 20.2 and below attributes, nodes, attributes, sparse tensors and tensors with their roles, at every depth |
| `ModelPlaces.PlacesAdd` | tools/onnx_package_checksum.py:571-716 | a walked message adds exactly the external tensors at those places, in the order they end |
| `ModelWalk.TensorTaken` | tools/onnx_package_checksum.py:672-770 | a tensor's own fields are walked to their end if and only if its dimensions and entries are no more than allowed and every key and value of an entry is short enough and UTF-8 |
| `ModelWalk.ModelGathered` | tools/onnx_package_checksum.py:539-716 | what the walk gathers beside the tensors: the last ir_version, the operator sets and the first of them below 1, the graphs, and the main graphs' inputs and outputs |
| `ModelWalk.WalkCollectsExternals` | tools/onnx_package_checksum.py:539-716 | a model within the limits is accepted if and only if its first field is a known one and every tensor is in bounds, its data inside or its reference resolved; accepted, its messages are counted and the tensors gathered are exactly those with location 1 at the places of tensors, told by field numbers, in the order they end |
| `SmallModel.SmallModelWalked` | tools/onnx_package_checksum.py:539-828 | forty-five bytes written out, and what the walk gathers of them |
| `ExternalTensors.ModelTruncatedNeedsMore` | tools/onnx_package_checksum.py:400-414 | a model file is refused as truncated only for bytes past its end |
| `ExternalTensors.VisitorsTyped` | tools/onnx_package_checksum.py:539-716 | a model's visitors read every field in the wire types it is declared in, which is what the overrun results ask of them |
| `Manifest.SortCanonical` | tools/onnx_package_checksum.py:194-199 | any two orderings of files of distinct names sort alike |
| `Manifest.ManifestCanonical` | tools/onnx_package_checksum.py:194-199 | a package has one manifest, whatever order its files come in |
| `Manifest.ManifestParses` | tools/onnx_package_checksum.py:194-199 | a manifest parses back to exactly its names, sizes and digests |
| `Manifest.ManifestInjective` | tools/onnx_package_checksum.py:194-203 | packages of different files have different manifests |
| `Manifest.OrderMeans` | tools/onnx_package_checksum.py:194-199 | files are in the order of the first character their names differ in, the shorter first |
| `Manifest.SmallManifest` | tools/onnx_package_checksum.py:194-199 | a manifest of two files written out: the heading, then name, size and digest between tabs, a line each, by name |
| `PackageNames.SafeIsUnmarked` | tools/onnx_package_checksum.py:206-218 | an admitted name has none of the marks a manifest is read by |
| `PackageNames.PackageRelpath` | tools/onnx_package_checksum.py:221-245 | the loop over components is the form the rule defines, with every refusal |
| `PackageNames.RefusedExactly` | tools/onnx_package_checksum.py:206-245 | a location is refused if and only if it is empty, has a forbidden character, begins or ends with a slash, has a component `..`, or none but empty ones and `.` |
| `PackageNames.SmallRelpath` | tools/onnx_package_checksum.py:221-245 | `./a//b` is taken to `a/b` |
| `PackageNames.RelpathIsProper` | tools/onnx_package_checksum.py:221-245 | no component of the form is empty, `.` or `..` |
| `PackageNames.RelpathIdempotent` | tools/onnx_package_checksum.py:221-245 | the form of a form is itself |
| `PackageNames.RelpathIsUnmarked` | tools/onnx_package_checksum.py:206-245 | the form is itself a name the manifest admits |
| `PackageNames.SameFile` | tools/onnx_package_checksum.py:221-245 | two locations are one file if and only if they differ only in dropped components |
| `ExternalData.Group` | tools/onnx_package_checksum.py:917-940 | refused if and only if some location may not be used; otherwise each file named is kept once, with the first reference that reaches furthest |
| `ExternalData.NeededFiles` | tools/onnx_package_checksum.py:935-944 | the files kept are at most 4096 and neither the graph nor `tokenizer.json`; refused only for a location that names no file or one of those two, or for too many files |
| `ExternalData.FurthestCovers` | tools/onnx_package_checksum.py:935-940 | a file long enough for the reference kept is long enough for every one |
| `JsonDepth.ScanIsDepth` | tools/onnx_package_checksum.py:997-1020 | scanned, any rendering nests as deep as its arrays and objects do; brackets, quotes and backslashes in strings never count |
| `JsonDepth.JsonNestingDepth` | tools/onnx_package_checksum.py:997-1020 | the loop over counters is the scan, on every byte sequence |

## Left out

- Book source hashes, identities, codecs, epochs and passage packages: the checks that refuse a
  release made with another recipe, and the books added only to carry a hash.
- Vectors themselves: reading, quantizing, rotating and writing them, the window buffer of
  `write_vectors`, cosine sums and gate thresholds. SHA-256 is a digest with no computation.
- Floating point: rank and cosine are over reals, so rounding of `clip_q * (n - 1)` and NaN are
  not modelled; a histogram bucket is not a 32-bit counter that could overflow.
- Chain.PathIndependent: locations are compared where the last plan has windows; a plan without
  windows writes no locations, and for it the keys are compared, and the links by Chain.SameLinks.
- Rebuilds.KeptSettles: that no two texts of a chain share a key, and that two warehouses of one
  package hold the same vector of a text both hold, are asked; the keys are half a SHA-256, and the
  package is checked before anything is assembled.
- Assembly.AssembleRelease: names of books are ranks, so the writer's limits on their bytes are not
  modelled, and a base's format is given, where the code takes it from the codec asked for.
- Assembly.WriteSegment: what a reader checks on opening is not modelled. One of its checks, that a
  row's hint is below 2^31, the writer does not make, and a row of an alias or of a repeated text
  may be past it.
- Chain.ShowsRelease: a device compares the stored bytes of keys, and the model whole keys, which
  Assembly.CheckKeyPrefixes keeps apart within a release and the one before; compacting a device's
  segments is not modelled.
- Chain.ChainHolds: the rows a segment of an older format implies by slots alone, and the order in which
  a device lists its rows, are not part of this model.
- Coverage.Count: keys narrowed to eight bytes before they are compared are not modelled.
- Builder.EmbedCorpus: embedding, the batches, and the check of the chunked lines against the plan
  of lines (`CoverageMismatch`) are not modelled; a book's lines and chunks are given.
- Ranking.TopK: threads are chunks worked one after another, and a heap is a multiset whose worst
  element can be popped.
- Importer.Import: that a payload is a regular file with a valid name, and that the target may be
  installed over, is one refusal before anything is touched; a later payload check is a failed copy.
- Importer.Disk.Crash: operations reach the disk in the order they were made; a disk that reorders
  unflushed renames is not modelled.
- PlanFile.Open: memory mapping and file errors are not modelled; a file is its bytes.
- PlanFile.RecordsWriter.Finish: the rename into place is not modelled.
- GraphWalk: a file that shrinks while it is read, hashing, and the text of the messages are not
  modelled. A tensor's name is kept as bytes, where the source shows it as text.
- ModelWalk.WalkCollectsExternals: is about files that encode a tree of fields, each value of a shape
  its field is declared in; what other bytes come to is only what Truncation and Overruns say.
- Onnx.Visitors: what UTF-8 is, is a parameter; every result holds for any.
- Manifest: names are strings of code points, whose order UTF-8 keeps; the encoder is not modelled.
- ExternalData.Group: what the file system says of a named file (missing, a link out of the
  package, too short) is not modelled.
- JsonDepth.ScanIsDepth: a text is its tokens; that tokens stand where the grammar of JSON wants
  them is not asked, so more texts are covered than JSON's.
- `EmbedPlanWriter`, `BookList`, plan manifests, `utc_timestamp`, payload tables and release
  manifests: sets, ranges and formats that a single reading settles.
- The gates other than coverage and the exact search, the command line, the warehouse, the segment
  format and the tokenizer: not part of this model.
