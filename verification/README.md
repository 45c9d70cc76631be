# jsonize: a model of its readers, contracts and builders

jsonize turns the output of commands into JSON. Its promises are that no text is lost on the way and that two
readings of the same text never disagree. This project models the parts of jsonize that carry those promises and
proves them for every input. `dafny verify dfyconfig.toml` checks all of it.

What is modelled, and the main results:

* **Two readers of one text** (`Lines`, `Stages`, `Forest`, `Readings`, `Holding`, `Limits`, `Reader`,
  `CompositeReader`, `Streamer`, `Pipeline`, `Columns`, `Parsers`, `Batch`, `Escapes`, `RecordIO`, `Engine`, `Partings`,
  `InputText`, `CsvText`, `ListText`).
  The whole-document reader is a pipeline of loops with a ledger of the lines that were read; the streaming reader is a
  state machine fed one line at a time, whose fields are held against the whole-document functions of the lines fed so
  far. `Engine.Stream` is the refinement: whatever the definition, the input and the chunks it arrives in, the stream
  hands over what the whole document comes to, or refuses what the whole document is refused for, or is given lines that
  do not fit its limit. `Holding.FitsTheLimit` says of the lines alone whether they do, and `Partings.StreamParsed` is
  the exact converse: what Parse reads, no records part leaving a line to a sibling, is streamed to its end if and only
  if it fits.
  `Batch.ParseAccounted` is the account: every line is in exactly one count. What each stage makes of the lines is said
  of the lines themselves in `InputText`, `CsvText` and `ListText`: folding keeps every word (`InputText.FoldingKeepsWords`),
  a csv row is one record however many lines its quotes take (`CsvText.RowsAreRecords`), and a table is its rows, each
  under the heading it stands under (`ListText.TableIsItsRows`).
* **When a choice is final** (`Programs`, `Expressions`, `Choice`, `Selector`). A definition is chosen for an input from
  its first lines. `Selector.Watcher.Look` says when no further line can change the choice; the proof goes through the
  simulation of compiled expressions (`Programs.Viable`) and the order of preference between entries. `Selector.Select`
  says of the entry and the input alone which entry is the choice.
* **Output contracts** (`Patterns`, `Conversions`, `Contracts`, `Typing`, `Generation`, `Untaken`, `Cells`, `FromText`,
  `Shapes`, `Compatibility`, `Endings`, `Growth`, `NamedOnce`, `Evolution`). `Generation.EveryDocumentFits`: the contract generated for a definition
  accepts a document its parsers make exactly when no item of an array in it is null for want of its group and no row
  is without a leading label the contract requires. `Shapes.GeneratedExactly`: it accepts the documents of the definition's
  shape and no others.
  `Evolution.CompareVersions`: comparing the contracts of any two definitions ends, and when nothing breaks each version's
  documents fit the other's contract. `Endings.EndsExactly` says on which contracts the comparison ends, and
  `Growth.CompareEdited` which edits of a contract break nobody.
* **Building documents from arguments** (`Plans`, `Changes`, `Documents`, `Builds`, `Arguments`, `ArgumentText`, `Planner`). The planner
  links nodes in place; no argument moves, overwrites or enters another, the limits hold, and a template gives for each
  record the document a direct build gives. An argument reads back as the location and value that are written in it,
  exactly when they can be written so (`ArgumentText.SpellingReadsBack`), and what is written stands in the document that is
  built (`Planner.New`).
* **Companions** (`Objects`, `Writer`, `JsonText`, `Pretty`, `Aligned`, `Spans`, `Durations`, `Clocks`, `Integers`, `Values`).
  JSON text reads back and its two forms differ in white space alone, aligned rows are cut at their columns' offsets without
  losing a word, a whole-input match leaves nothing unread, the fast reading of a duration agrees with the exact one, and
  an integer of any size is the number its digits write.

## How to read it

Each file is one module. A loop or an object of the original is a method or a class whose contract ties it to a
specification function; what jsonize promises is proved about those functions. A refusal is `Refused` without its words.
Expressions, the cutting of a csv record, and the conversion of a number or a time are functions a definition holds.

Where the model shows that the code does not do what its documentation says, or does it only under a condition:

* A csv definition without a header that writes an empty list of columns is read differently by the two readers
  (`Engine.EmptyColumnsDisagree`; `Engine.CsvStartsAlike` has the exact condition).
* A stream counts the line break of every line it holds, and the last line of an input need not have one. So an input
  Parse takes can be too much for a stream of a list, when it fills the limit to the byte and has no line break at its
  end (`Engine.OverflowFillsTheLimit`). It is exactly when, besides, all of it is held at once when the last line has
  been taken (`Partings.TooMuchForAList`): a csv of one record, say, or lines folded into one, one record or node with the
  blank lines in it that are kept, or the header of a drawn table. `Partings.FullLineDoesNotFit` says for which
  definitions one line is too much, `Partings.OneLetter` is such an input, and a definition that makes a value of every
  line, and neither folds lines nor keeps blank ones, holds nothing (`Limits.NothingHeldFits`).
* In a composite, every line is held once for each part that holds it, so an input Parse takes can be too much for a
  stream once its lines cost more than the limit divided by the number of parts (`Partings.HeldTwice`,
  `Partings.LetterForTwo`; `Limits.CheapLinesFit` says that no cheaper one is).
* In a composite, a `records` part that leaves a line of its own region to a sibling part is accepted by Parse and
  refused by the stream (`Partings.SiblingReads`). With the limit, that is all in which a stream of a composite differs
  from Parse (`StreamFacts.StreamsWhatParses`, `Partings.StreamParsed`).
* An array item whose string expression leaves its group out becomes a null the generated contract does not allow, when
  the item is neither required nor omitted nor named by null_if (`Untaken.ReadAndUnfit` is a document that has one, and
  `Untaken.AlwaysTaken` says of which definitions none does).
* The loader allows a header to rename its leading label. Where no field rule is about the label, the
  generated contract requires it under its own name all the same, so no document with a row fits
  (`FromText.RenamedLabelIsMissed`), unless another name is changed into the label (`FromText.HeaderKeepsLabel`). Together
  with the item above this is the exact condition under which a document fits its contract
  (`Generation.EveryDocumentFits`).
* Compare does not come back on every pair of schemas (`Compatibility.NeverEnds`; `Endings.EndsExactly` has the exact
  condition); it does on all that are generated (`Evolution.GeneratedIsOfTrees`, `Endings.TreesEnd`). Outside the
  generated shape it misses two breaking changes (`Compatibility.OpenBecomesClosed`,
  `Compatibility.UnnamedBecomesRequired`).
* A last line that is nothing but escape sequences, with no line break behind it, is a line of the input and none of the
  input once the escapes are off (`RecordIO.StrippedLines`); the readers strip line by line and agree.

## Model

| member | source | states |
|---|---|---|
| Engine.Stream | pkg/engine/stream.go:47-108 | for every input, chunking and limit: a stream that ends well has handed over what Parse returns (list values in order; per part its list or its one value), every records part has kept its lines, and at no line was more held than the limit; one that refuses has been given an input Parse refuses, or one where a records part leaves a line of its own to a sibling; one that runs over the limit has been given lines that do not fit it, so lines that cost more than it, counted once for each part |
| Engine.StreamAgrees | pkg/engine/stream.go:47-108 | when every stage of a stream accepts the lines, the whole-document reader accepts them and the stream's output is its value rearranged |
| Engine.ParseInput | pkg/engine/engine.go:149-196 | the whole-document reader on bytes: the size limit, the records, then the pipeline |
| Engine.FailsOnTheWhole | pkg/engine/stream.go:86-108 | a stream that fails on a prefix of the lines fails on every input that goes on from it |
| Engine.FeedRecordText | pkg/engine/stream.go:122-127 | one record more: fed within the limit, refused only where the whole input is refused, and over the limit only where the lines so far do not fit it |
| Engine.FinishStream | pkg/engine/stream.go:543-570 | at the end of the input the stream's verdict is the whole-document reader's, and it ends well only if the lines fit the limit and runs over it only if they do not |
| Engine.NextRecord | internal/recordio/recordio.go:28-47 | reading the next record and then the rest gives the lines the whole input gives |
| Engine.OverflowFillsTheLimit | pkg/engine/stream.go:144-157 | of the inputs within the limit, only one that fills it to the byte and has no line break at its end has lines that cost more than the limit |
| Holding.FitsSnoc | pkg/engine/stream.go:136-167 | lines fit the limit exactly when those before the last do and no more than the limit is held while the last is taken in |
| Holding.StaysOver | pkg/engine/stream.go:136-167 | lines that do not fit the limit do not fit it within any longer input |
| Limits.PeakCost | pkg/engine/stream.go:136-177 | at no line is more held than the lines so far cost, counted once for each part of a composite |
| Limits.CheapLinesFit | pkg/engine/stream.go:136-177 | lines that cost no more than the limit, counted so, fit it |
| Limits.NothingHeldFits | pkg/engine/stream.go:136-177 | a definition that makes a value of every line, and neither folds lines nor keeps blank ones, fits every limit |
| Limits.FullListDoesNotFit | pkg/engine/stream.go:144-177 | a list whose lines cost at most one more than the limit does not fit it exactly when they cost one more and all of it is held at once |
| Limits.GroupCost | pkg/engine/stream.go:236-262 | the records of a csv and the lines of the open one cost what the lines cost |
| Limits.FoldCost | pkg/engine/stream.go:266-305 | what a fold lets go and what it holds cost no more than the records |
| Limits.EdgesCost | pkg/engine/stream.go:312-341 | the lines of the text and the blank ones that wait cost no more than the folded lines |
| Partings.TooMuchForAList | pkg/engine/stream.go:144-177 | of the inputs no longer than the limit, a list is too much for a stream exactly when its lines cost one more than the limit and all of it is held when the last has been taken |
| Partings.StreamParsed | pkg/engine/stream.go:47-177 | what Parse reads, and no records part of which leaves a line to a sibling, is streamed to its end exactly when its lines fit the limit, and else runs over it; list or composite |
| Partings.FullLineDoesNotFit | pkg/engine/stream.go:144-167 | one unended line that fills the limit to the byte is too much for a list exactly when it is a csv, may still be folded, or is selected and has to be held: a record, a node, a line of a drawn table |
| Partings.OneLetter | pkg/engine/stream.go:499-519 | such an input: the one byte of a letter under a limit of one byte, which Parse reads as a record |
| Partings.SiblingReads | pkg/engine/composite_stream.go:130-184 | three bytes, two lines of which a records part reads the first and its sibling both: Parse reads them, and the part has not kept its lines, so no stream ends well |
| Partings.HeldTwice | pkg/engine/composite_stream.go:145-151 | two single-value parts over all of the text hold every line twice: lines fit the limit exactly when twice their cost does |
| Partings.LetterForTwo | pkg/engine/composite_stream.go:145-151 | the one byte of a letter for two such parts: Parse reads it under a limit of one, and a stream needs four |
| Engine.CsvStartsAlike | pkg/engine/stream.go:616-621 | the two csv readers start alike exactly when the definition does not write an empty list of columns |
| Engine.EmptyColumnsDisagree | pkg/engine/csv.go:28-87 | with an empty list of columns and no header, Parse refuses the first row that has a value, and the stream reads it unless an expected column is missing or a cell cannot be read |
| StreamFacts.StreamsWhatParses | pkg/engine/stream.go:236-443 | the stages of a stream accept the lines of an input exactly when Parse reads them and no records part leaves a line to a sibling; the values are then the same |
| StreamFacts.AccountIsLocal | pkg/engine/engine.go:157-196 | the ledger's verdict over the whole document is two rules a stream can check line by line |
| StreamFacts.MembersAreParts | pkg/engine/engine.go:555-577 | the object of a composite has one member per part, in order |
| StreamFacts.ReleasedSnoc | pkg/engine/stream.go:295-305 | what one more record does to the line a fold is holding |
| StreamFacts.FoldedAscending | pkg/engine/engine.go:293-326 | folded lines keep the numbers of the lines they begin with, in order |
| StreamFacts.RecordsAscending | pkg/engine/csv.go:93-115 | csv records keep the numbers of the lines they begin with, in order |
| Streaming.Streamer.FeedPhysical | pkg/engine/stream.go:236-251 | one physical line: the invariant that ties every field, held bytes included, to the lines fed so far is kept; a refusal is one the whole input meets; it ends well only if the most the lines make it hold while it takes this one is within the limit, and runs over only if that is more |
| Streaming.Streamer.HeldIs | pkg/engine/stream.go:136-177 | what the stages hold back is what the lines fed so far leave open, a function of the lines alone |
| Streaming.Streamer.FeedCsv | pkg/engine/stream.go:236-251 | a line of a csv joins the open record or closes it, as grouping all the lines would |
| Streaming.Streamer.FlushCsvRecord | pkg/engine/stream.go:254-262 | the record being grouped is handed on whole, and what it held is given back |
| Streaming.Streamer.FeedRaw | pkg/engine/stream.go:266-291 | one record through the fold's look-ahead: the folded lines let go so far are those of all records |
| Streaming.Streamer.ReleaseFolding | pkg/engine/stream.go:295-305 | the line being folded is handed on as the fold of all records has it (`InputText.FoldedIsContinued` says what it holds), and its cost is given back |
| Streaming.Streamer.FeedFolded | pkg/engine/stream.go:312-341 | a folded line at the edges of the text: empty lines wait until text follows them |
| Streaming.Streamer.Release | pkg/engine/stream.go:312-341 | the empty lines held back before text are let go in order, less those to be ignored |
| Streaming.Streamer.FeedSelected | pkg/engine/stream.go:348-380 | one line of the text for the selection, in the order after, until, skip, limit |
| Streaming.Streamer.Finish | pkg/engine/stream.go:543-570 | at the end everything held goes through; the stream ends well exactly when the lines are acceptable, and its output is then that of the whole input |
| Streaming.BodyReader.Feed | pkg/engine/stream.go:392-422 | one selected line for the reader of the body, list or composite: refused only where no longer input is complete, with at most the line's cost more held, once for each part, and over the limit exactly as the lines say |
| Streaming.LeftOutEnds | pkg/engine/stream.go:384-389 | a line left out of the selection that says something makes the whole input refused |
| Streaming.TextIsKept | pkg/engine/stream.go:312-341 | a line of text is kept unless it is ignored; blank lines before it only where blank lines are kept |
| Reader.ListReader.FeedRecord | pkg/engine/stream.go:392-422 | one line to the parser of a list: the values handed over are settled, what is held is exactly what is not |
| Reader.ListReader.HeldIs | pkg/engine/stream.go:399-527 | what a list holds back is what its lines leave open: the open csv record, row, record or node |
| Reader.ListReader.FeedCsv | pkg/engine/stream.go:627-642 | a csv line is held while a quoted value is open |
| Reader.ListReader.EmitCsv | pkg/engine/stream.go:657-695 | one finished csv record becomes the rows the whole-document reader makes of it |
| Reader.ListReader.FeedBox | pkg/engine/stream.go:701-727 | a drawn table, line by line: header, settled rows and open row are those of the whole |
| Reader.ListReader.CloseBoxHeader | pkg/engine/stream.go:742-748 | the columns named by the lines above the first rule |
| Reader.ListReader.FlushBoxRow | pkg/engine/stream.go:750-768 | the row being held is handed over unless it repeats the header |
| Reader.ListReader.FeedBlock | pkg/engine/stream.go:499-519 | a record is held until the next begins |
| Reader.ListReader.FlushBlock | pkg/engine/stream.go:521-540 | the block held is read whole, and refused when a line of it that says something was not read |
| Reader.ListReader.FeedTree | pkg/engine/stream.go:576-593 | a top-level node and its descendants are held until the next begins |
| Reader.ListReader.FlushTree | pkg/engine/stream.go:595-612 | the node held is read as one tree |
| Reader.ListReader.Finish | pkg/engine/stream.go:543-570 | at the end the list is complete exactly when the whole-document reader reads it, and nothing is held any more |
| ReaderFacts.SettledExtends | pkg/engine/stream.go:701-768 | the header and settled rows of a drawn table are those of every longer one |
| ReaderFacts.BoxSnoc | pkg/engine/stream.go:701-768 | what one more line does to the settled rows and the open one |
| ReaderFacts.BoxFinish | pkg/engine/box.go:161-194 | how a drawn table ends |
| ReaderFacts.BoxWithoutRule | pkg/engine/box.go:161-202 | lines that all stand between the same two rules are no table |
| ReaderFacts.BlockDead | pkg/engine/stream.go:521-540 | a finished block that cannot be read, or not whole, ends the list |
| ReaderFacts.TreeNodeDead | pkg/engine/stream.go:595-612 | a finished node that cannot be read ends the tree |
| ReadingFacts.CutExtends | pkg/engine/box.go:87-104 | closed blocks of a drawn table stay; the open one is where the next begins |
| ReadingFacts.BodyRowsExtend | pkg/engine/box.go:115-126 | only the last row of a block can still grow |
| ReadingFacts.BlocksExtend | pkg/engine/engine.go:585-607 | only the last record can still grow |
| ReadingFacts.BlocksCovered | pkg/engine/engine.go:585-617 | every line of the records was read when every record read its own |
| ReadingFacts.BlocksComplete | pkg/engine/engine.go:585-617 | records are complete when every block is read |
| ReadingFacts.WholeIsComplete | pkg/engine/engine.go:520-553 | for every other list parser, reading the list is reading every line |
| ReadingFacts.BodyRowsFlatten | pkg/engine/box.go:115-126 | the rows of a block are its lines, each once and in order |
| ReadingFacts.BlocksFlatten | pkg/engine/engine.go:585-607 | the records are the lines, each once and in order |
| Stages.FeedingLinesReadsTheirText | pkg/engine/csv.go:152-195 | following csv quotes line by line is following them over the text the lines make together |
| Stages.FoldingsExtend | pkg/engine/engine.go:293-326 | a fold that has failed stays failed; only the last folded line can still grow |
| Stages.PreparedText | pkg/engine/engine.go:330-377 | a line of text adds itself and the blank lines before it to the prepared lines |
| Stages.PreparedBlank | pkg/engine/engine.go:330-377 | a blank line adds nothing while it may be past the text |
| CompositeReader.CompositeStream.Feed | pkg/engine/composite_stream.go:130-184 | one line of a composite: held bytes move by exactly what the parts hold; a line no part will read ends the stream; refusal only where the composite cannot be completed |
| CompositeReader.CompositeStream.Finish | pkg/engine/composite_stream.go:230-246 | at the end every part has been read: the composite is complete, and what was handed over for each part is the part's values |
| CompositeReader.CompositeStream.OfferAll | pkg/engine/composite_stream.go:130-184 | a line is offered to every part that has not been read; how many wait for it, whether one answers for it, and how high what the parts hold together rises on the way |
| CompositeReader.CompositeStream.HeldIs | pkg/engine/composite_stream.go:130-184 | what a composite holds back is, part by part, what the lines leave open; nothing of a part whose region has closed |
| CompositeReader.CompositeStream.Settle | pkg/engine/composite_stream.go:188-225 | reading a part settles one of the parts each of its lines waited for; a line that waits for none has to have been read |
| CompositeReader.CompositeStream.CloseDone | pkg/engine/composite_stream.go:130-184 | the parts whose regions the last line closed are read |
| CompositeReader.CompositeStream.ReadPart | pkg/engine/composite_stream.go:188-225 | a part is read whole and what it held is given back |
| CompositeReader.PartStream.Admit | pkg/engine/composite_stream.go:59-89 | what a line is to a part: inside its region, the heading it states, or neither |
| CompositeReader.PartStream.Offer | pkg/engine/composite_stream.go:130-184 | a list part reads the line, a single-value part holds it |
| CompositeReader.PartStream.ReadValue | pkg/engine/composite_stream.go:188-225 | the region of a single-value part is read as the whole-document reader reads it |
| CompositeFacts.NewLine | pkg/engine/composite_stream.go:130-184 | a new line waits for the unread single-value parts that take it, and is answered for by the others |
| CompositeFacts.FateRead | pkg/engine/composite_stream.go:188-225 | what reading one part does to the fate of a line |
| CompositeFacts.LineUnread | pkg/engine/composite_stream.go:130-184 | a line that says something, waits for nothing and was not answered for is read by no part |
| CompositeFacts.ListPartDead | pkg/engine/composite_stream.go:130-184 | a list part that has failed fails the composite |
| CompositeFacts.ClosedPartDead | pkg/engine/composite_stream.go:188-225 | a part whose closed region cannot be read fails the composite |
| CompositeFacts.AllReadIsComplete | pkg/engine/composite_stream.go:230-246 | parts all read and no line waiting make a complete composite |
| Batch.ParseAccounted | pkg/engine/engine.go:157-196 | the whole pipeline of loops computes the composition of its stages, which `InputText`, `CsvText` and `ListText` say of the lines themselves, and on success lines = read + folded + blank + ignored, each count what its name says |
| Batch.ReadPrepared | pkg/engine/engine.go:157-196 | a result comes back only when every prepared line that says something was marked read by a parser, or is a heading or end line matched in full |
| Batch.Parse | pkg/engine/engine.go:520-553 | each parser yields its specification and marks exactly the lines it read |
| Batch.ParseComposite | pkg/engine/engine.go:555-577 | the object of all parts, and the lines their parsers and headings read |
| Batch.ParsePart | pkg/engine/engine.go:555-577 | one part: its region less the ignored lines, and its heading |
| Batch.ParseRecords | pkg/engine/engine.go:585-607 | every record by itself, with the lines it read |
| Batch.ParseList | pkg/engine/engine.go:520-553 | a list parser reads every line or fails |
| Batch.Count | pkg/engine/ledger.go:183-191 | read and blank lines are counted once each |
| Batch.CountsAreAll | pkg/engine/ledger.go:183-191 | lines that are all read or blank are counted completely |
| Batch.Ledger.Mark | pkg/engine/ledger.go:149-162 | marking adds exactly the given lines to those read |
| Batch.Ledger.MarkOne | pkg/engine/ledger.go:155-162 | one line more is read, if the ledger covers it |
| Batch.Ledger.Unread | pkg/engine/ledger.go:167-176 | whether some line that says something was not read |
| Batch.DropIgnored | pkg/engine/engine.go:401-412 | the lines of a part that no ignore expression names, in order |
| Pipeline.CsvRecords | pkg/engine/csv.go:93-115 | lines grouped into records by the state of their quotes |
| Pipeline.FoldLines | pkg/engine/engine.go:293-326 | continuation lines joined to the line above, in one pass; what the joined lines are is said by `InputText.FoldedIsContinued` and `InputText.FoldsExactly` |
| Pipeline.Prepare | pkg/engine/engine.go:330-377 | edge blanks, ignored lines and blank lines dropped, each counted under its reason |
| Pipeline.Sift | pkg/engine/engine.go:330-377 | the lines kept, and how many each expression left out |
| Pipeline.ApplySelect | pkg/engine/engine.go:427-464 | the region of a selection, its heading and its end line |
| Parsers.ParseLines | pkg/engine/engine.go:622-659 | a pattern or entry per line, all of them or a refusal |
| Parsers.ParseTable | pkg/engine/table.go:19-75 | header, repeated headers and rows in one pass |
| Parsers.ParseCsv | pkg/engine/csv.go:28-87 | the header record and every row of every record |
| Columns.CsvColumns | pkg/engine/csv.go:273-315 | the names a header asks for are given in order, one that repeats under the first number that makes it a name nobody asked for and that was not given |
| Columns.GivenAreDistinct | pkg/engine/csv.go:291-315 | no two columns have the same name |
| Columns.AskedIsGiven | pkg/engine/csv.go:291-315 | every name asked for is given, to the column that asked first |
| Columns.DistinctAreKept | pkg/engine/csv.go:291-315 | a header keeps its names exactly when they are distinct |
| Columns.GivenIsUnique | pkg/engine/csv.go:291-315 | there is one way to give the names |
| Columns.FreeNumber | pkg/engine/csv.go:301-309 | the search for a free number ends, at the first that is free |
| Columns.CsvNumbered | pkg/engine/csv.go:261-267 | numbered columns have names of their own |
| Columns.CsvRow | pkg/engine/csv.go:202-223 | the object of a row, or a refusal of a row with more cells than columns or with a cell that cannot be read |
| Columns.RowIsRead | pkg/engine/csv.go:202-223 | a row is refused for a cell that cannot be read and for nothing else |
| Columns.EveryValueIsReachable | pkg/engine/csv.go:202-223 | where the columns have names of their own every value stands under its own |
| Columns.CheckColumns | pkg/engine/csv.go:247-254 | whether every column the caller named is there |
| Parsers.CutBlocks | pkg/engine/box.go:87-104 | a drawn table cut at its rules |
| Parsers.CutRows | pkg/engine/box.go:115-126 | a block cut into rows at its first cells |
| Parsers.ParseBox | pkg/engine/box.go:161-194 | header and body of a drawn table |
| Parsers.TreeNodes | pkg/engine/tree.go:40-76 | the recursion with its moving index yields the forest and the rest of the lines |
| Forest.ForestRoundTrip | pkg/engine/tree.go:40-120 | a tree is read exactly when its lines are readable, start at depth 0 and never rise by more than one; its preorder then gives back every line with its depth |
| Forest.ForestComplete | pkg/engine/tree.go:40-76 | lines that hang together from a depth, followed by shallower ones, are read and the rest left |
| Forest.AppendAtTop | pkg/engine/stream.go:576-612 | reading the top-level groups of a tree apart and appending the nodes is reading it whole |
| Forest.AppendBelow | pkg/engine/stream.go:576-612 | lines that begin a top-level node change nothing above them |
| Forest.OpeningUnitIsFirst | pkg/engine/tree.go:123-130 | the unit found opens the text and none before it in the list does; none is found where none opens it |
| RecordIO.SplitRecords | pkg/engine/engine.go:222-253 | cutting the whole text and reading it record by record give the same lines |
| RecordIO.Source.ReadRecord | internal/recordio/recordio.go:28-47 | however the chunks fall, the bytes up to the separator are returned once, or the record is refused for its length exactly when it is too long |
| RecordIO.Source.ReadSlice | internal/recordio/recordio.go:28-47 | a chunk ends at the separator, at the end, or where the buffer is full |
| RecordIO.SplitIsRecords | pkg/engine/engine.go:222-253 | a text cut at its separators is the sequence of its records |
| Escapes.StripANSI | pkg/convert/convert.go:405-435 | the loop leaves the text less its escape sequences |
| Escapes.EscapeEnd | pkg/convert/convert.go:439-477 | finds where an escape sequence ends exactly where one does, on its line |
| Escapes.EscapeIsOne | pkg/convert/convert.go:439-477 | a text begins with at most one escape sequence |
| Escapes.OnlyEscapesGo | pkg/convert/convert.go:405-435 | what is taken from a text is whole escape sequences, what stays keeps its order, and no byte that stays begins one |
| Escapes.StripsByLine | pkg/convert/convert.go:416-424 | stripping a text is stripping its lines |
| RecordIO.StrippedLines | pkg/convert/convert.go:416-424 | cutting the stripped text into lines and stripping the lines of the text come to the same exactly when the last line has ended or says something |
| Escapes.PrepareRecord | pkg/engine/engine.go:263-274 | the bytes a record is read from: escapes, carriage return and byte order mark come off in this order |
| Escapes.RecordIsItsText | pkg/engine/engine.go:263-274 | a record without escapes is read as its text, less one carriage return where lines end with a line feed, and less the mark the first record begins with |
| RecordIO.NeverGrows | pkg/engine/engine.go:263-287 | a record never takes more bytes prepared than in the input |
| RecordIO.LinesOfExtend | pkg/engine/stream.go:86-108 | records already refused stay refused; lines already read stay |
| RecordIO.LinesAreNumbered | pkg/engine/engine.go:222-253 | lines are numbered from 1 without a gap |
| Spans.ReadWhole | pkg/engine/ledger.go:215-257 | a whole-input match is accepted exactly when every character of the selected lines that is not white space lies inside it |
| Spans.MarkSpan | pkg/engine/ledger.go:226-243 | the lines the match reaches are marked, unless it leaves text on one of them |
| Spans.LinesAreTheText | pkg/engine/ledger.go:226-257 | the rule line by line and the rule over the joined text are the same |
| Aligned.AlignedCells | pkg/engine/table.go:375-420 | the cells hold every word, a word between two columns' offsets in the cell of the first of them; where the offsets are clear, cell i is the trimmed text from column i's offset to column i+1's; or the first column that holds a gap or was run into is reported |
| Aligned.CellsPartition | pkg/engine/table.go:375-420 | for any offsets and widths, every word of the row is in one cell, whole, once and in order |
| Aligned.CellEnd | pkg/engine/table.go:451-467 | a cut that would fall inside a value moves before it, or behind it when the value began in the cell |
| Aligned.CellEndIsAnEdge | pkg/engine/table.go:451-467 | no cut falls inside a word |
| Aligned.RuneAt | pkg/engine/table.go:488-497 | the first character at a display column or after it that takes a column |
| Aligned.NarrowIsIndex | pkg/engine/table.go:388-400 | where every character takes one column the display column is the index |
| Aligned.AllNarrow | pkg/engine/table.go:470-482 | the shortcut for ASCII and the scan agree |
| Aligned.OverrunIsAValue | pkg/engine/table.go:396-415 | a cell that runs past its end is not empty, so the order of the two refusals does not matter |
| Selector.Watcher.Look | pkg/selector/watch.go:55-82 | once true on complete lines, every NUL-free continuation selects the same entry, or both fail |
| Selector.Watcher.DecideOpenOnes | pkg/selector/watch.go:55-82 | a verdict that is final stays final; only open candidates are looked at again |
| Selector.Watcher.SettledBetween | pkg/selector/watch.go:124-136 | whether the fits, with any of the open ones, leave one answer |
| Selector.SettledIsFinal | pkg/selector/watch.go:124-136 | one answer for the fits and for the fits with all open ones is the answer for everything between |
| Selector.Between | pkg/selector/watch.go:55-136 | what a longer input fits lies between what fits for good and that plus what is open |
| Selector.Decide | pkg/selector/watch.go:148-220 | a final verdict on a prefix is the verdict on every continuation |
| Selector.DecideOpen | pkg/selector/watch.go:148-220 | the verdict of a signature whose window is not full yet |
| Selector.WindowGoesOn | pkg/selector/selector.go:755-861 | the window of complete lines begins the window of every continuation |
| Selector.ReadWindow | pkg/selector/selector.go:825-861 | the window is the cleaned leading lines, read no further than it reaches |
| Selector.SeesWhatIsRead | pkg/selector/selector.go:825-861 | the lines the selector sees are those the engine reads |
| Selector.Select | pkg/selector/selector.go:321-399 | an entry is the choice exactly when it is in scope and the input suits it (a known os is one of its own or it names none, known arguments are taken, every `all`, some `anyOf` and no `none` expression answers on the lines its signature looks at, and no line-by-line entry with a NUL in the input) and every other such entry is less preferred |
| Selector.Matching | pkg/selector/selector.go:649-686 | the entries of a scope that suit the input, said without the checks that decide it |
| Choice.Settle | pkg/selector/selector.go:530-551 | the winner, if one entry wins over all others |
| Choice.WinsAmongFewer | pkg/selector/selector.go:530-616 | what wins over more entries wins over fewer |
| Choice.ChoiceIsUnordered | pkg/selector/selector.go:530-616 | the choice does not depend on the order of the entries |
| Choice.OneWins | pkg/selector/selector.go:530-616 | at most one entry wins |
| Choice.MostPreferred | pkg/selector/selector.go:577-591 | the entries of the earliest registry |
| Choice.BreakTie | pkg/selector/selector.go:596-616 | the entry of strictly highest priority, where all belong to one command |
| Expressions.Judge | pkg/selector/watch.go:231-245 | a verdict on the first lines that is final for every text going on from them |
| Expressions.AnchoredStartsAtStart | pkg/selector/watch.go:360-376 | an expression the syntax calls anchored matches nowhere but at the start |
| Expressions.ContextStays | pkg/selector/watch.go:347-356 | a line break reads the way the end of the text does to every assertion but the end of the text |
| Expressions.MatchStays | pkg/selector/watch.go:231-245 | a match that does not look at the end of the text stays when the text goes on |
| Programs.Viable | pkg/selector/watch.go:288-343 | true exactly when some run is still open at the end of the prefix; false means no continuation is accepted from the start |
| Programs.Threads.Add | pkg/selector/watch.go:288-343 | following instructions that take nothing ends on cyclic programs and finds every reachable one |
| Programs.Threads.Simulate | pkg/selector/watch.go:288-343 | the threads after the last character are exactly the states open runs can be in |
| Programs.AcceptedLeavesAWay | pkg/selector/watch.go:288-343 | an accepting run on a longer text leaves a way open through every prefix |
| Programs.TracksEveryRun | pkg/selector/watch.go:288-343 | no path of the program is lost by the simulation |
| Contracts.Validator.Validate | internal/schema/validate.go:33-69 | no error is added exactly when the document fits the schema |
| Contracts.FitsExactly | internal/schema/validate.go:33-96 | a document fits a description exactly when it is of one of its types, a whole number counting as an integer and a number, is one of its listed values, has every required key, under each key a value that fits what the first property of that name or the description of the others says, and elements that fit |
| Contracts.Validator.ValidateObject | internal/schema/validate.go:71-96 | no error is added exactly when every required key is there and every key fits what describes it |
| Contracts.LookupIsFirst | internal/schema/schema.go:90-107 | the property found is the first of its name |
| Patterns.LanguageCovers | internal/schema/generate.go:485-567 | when the language of a pattern is listed, every text it can match is in the list |
| Patterns.CapturesHold | internal/schema/generate.go:422-460 | in every match a group that is not optional took some text, and a listed group one of its texts |
| Patterns.MatchTakesAll | internal/schema/generate.go:422-445 | a group under no optional node takes part in every match |
| Patterns.MatchIsListed | internal/schema/generate.go:422-460 | every group that took part is listed with the text it took, repetitions included |
| Patterns.ReadCaptures | internal/schema/generate.go:422-460 | the walk and the merging by name compute the captures |
| Patterns.Walker.Walk | internal/schema/generate.go:430-446 | the walk appends the groups below a node in order |
| Patterns.UnionEnum | internal/schema/generate.go:462-479 | the union has exactly the values of both lists, or is not listed |
| Conversions.EntriesAreMembers | pkg/engine/fields.go:35-45 | the members of an object are what its entries came to, and every entry kept is there |
| Typing.RuleFits | internal/schema/generate.go:305-353 | whatever a field rule keeps fits its schema exactly when no item in it is null for want of its group; it leaves a key out only where the schema says it may |
| Typing.ConvertedFits | internal/schema/generate.go:326-353 | a converted value, arrays and objects in it included, fits its schema exactly when no item in it is null for want of its group |
| Typing.KeyFits | internal/schema/generate.go:240-288 | the value of a key fits its schema, its list of values included, under the same exact condition |
| Typing.EnumHolds | internal/schema/generate.go:358-381 | where values are listed and null is no type, the value is one of the list |
| Typing.RequiredIsThere | internal/schema/generate.go:240-288 | a key the schema requires is in every object a match makes |
| Typing.MatchFits | internal/schema/generate.go:240-288 | the object of a match, by any alternative, fits the schema of them all under the same exact condition |
| Typing.DescribeObject | internal/schema/generate.go:240-288 | the group table and the loops of regexObject compute the schema |
| Typing.ReadGroups | internal/schema/generate.go:240-271 | the table has each name once, with its uses, in the order met |
| Typing.NormalizedInOrder | internal/schema/schema.go:132-143 | the types stand in the written order, each once, and two lists come out equal exactly when they allow the same types |
| Untaken.ArrayFits | pkg/engine/fields.go:197-224 | an array of texts no item of which is refused, left out or null on purpose fits its schema exactly when every item takes its group |
| Untaken.AlwaysTaken | internal/schema/generate.go:326-353 | where every item whose group may be left out is required, omitted or named by null_if, every item of every document takes its group |
| Untaken.EveryDocumentOfItFits | internal/schema/generate.go:32-44 | a document of such a definition fits its contract exactly when its rows have their leading labels |
| Untaken.LetterTaken | pkg/engine/fields.go:115-135 | the expression (?P<x>a)? leaves its group out exactly of the texts that do not begin with the letter |
| Untaken.ReadAndUnfit | internal/schema/generate.go:326-353 | a definition and an input whose document is read, an array of a text and a null, and does not fit the contract generated for the definition |
| Generation.EveryDocumentFits | internal/schema/generate.go:32-353 | a document the parsers make of what can be cut for them fits the contract of the definition exactly when no item of an array in it is null for want of its group and no row is without the leading label the contract requires |
| FromText.TableTextFits | pkg/engine/table.go:19-75 | so it does, under the same condition, for the document of a table's lines as they are cut at white space or a delimiter |
| FromText.MatchedTextFits | pkg/engine/engine.go:622-641 | so it does for the object of the first alternative that matches a text |
| FromText.RowIsCut | pkg/engine/table.go:285-327 | a row that is not refused has a cell for every column the contract says is never empty |
| FromText.OtherRowsAreCut | pkg/engine/table.go:96-106 | so has a row of an aligned or drawn table, and of a csv |
| FromText.HitIsCut | pkg/engine/engine.go:663-670 | the first alternative that matches gives a match its expression allows |
| FromText.NameColumns | pkg/engine/table.go:154-225 | a header is refused when it is empty, has more than 256 columns, leaves an unlabelled aligned column no width or a column without a name, or names two alike; else the names are the columns, each where its word starts |
| FromText.HeaderKeepsLabel | pkg/engine/table.go:203-212 | rows under a header have the leading label their contract requires when the label is not renamed, and otherwise never unless another name is changed into it |
| FromText.RenamedLabelIsMissed | internal/schema/generate.go:157-164 | a header whose leading label is renamed and a row of it: the row is read, and its document does not fit the generated contract |
| FromText.CsvHeaderNamesColumns | pkg/engine/csv.go:261-315 | the names a csv's header or its numbering gives are columns the contract can count on |
| Cells.SplitFieldsN | pkg/engine/table.go:331-352 | the loop cuts at most n pieces, the last of which is what is left of the row |
| Cells.FieldsKeepWords | pkg/engine/table.go:331-352 | every word of the row is in one piece, whole and in order, whatever the limit |
| Cells.SplitKeepsText | pkg/engine/table.go:295-307 | the pieces with the delimiter between them are the row |
| Cells.CutRow | pkg/engine/table.go:285-327 | the cells of a row, or a refusal of one with too few or too many fields |
| Generation.MadeFits | internal/schema/generate.go:68-123 | the same for every parser inside a definition, under any contract that holds its descriptions |
| Generation.Generate | internal/schema/generate.go:32-44 | the generated contract, and which documents fit it |
| Generation.Generator.Parse | internal/schema/generate.go:68-123 | the recursion with its names taken computes the description |
| Generation.Generator.DefName | internal/schema/generate.go:57-64 | a name not given out before: the wanted one, or the first free numbered one |
| Generation.DescribedGivesOut | internal/schema/generate.go:57-139 | every $defs name is given out once |
| Generation.RowFits | internal/schema/generate.go:142-192 | a row of a table or csv, its columns declared or named by the input, fits exactly when no item in it is null for want of its group and it has the leading label that is required |
| Generation.BranchFits | internal/schema/generate.go:112-123 | a tree node fits the description its children refer to, at any depth, under the same exact condition |
| Generation.EntryFits | internal/schema/generate.go:206-222 | a name/value entry fits whatever rule its key had |
| Generation.PairsFit | internal/schema/generate.go:227-234 | a map keyed by the input fits under the same exact condition |
| Compatibility.Comparer.Compare | internal/schema/compat.go:113-152 | where the recursion comes back, it has followed exactly the pairs of references the order of its steps leads to; it adds no breaking change exactly when the schemas agree, what recursion took for granted having been checked |
| Compatibility.Comparer.CompareObject | internal/schema/compat.go:173-229 | every old key, every new key and the unnamed ones have been compared, and a change breaks unless it is a key that was added |
| Compatibility.CompareContracts | internal/schema/compat.go:69-74 | no breaking change exactly when the contracts agree, and a change breaks unless it is a key that was added; between contracts of the generated shape no breaking change means every old document fits the new contract and every new one, pruned, the old; `Growth.CompareEdited` says from below what it does not report |
| Compatibility.AgreedIsCompatible | internal/schema/compat.go:113-229 | agreement through recursive references carries documents both ways |
| Compatibility.Carries | internal/schema/compat.go:113-229 | a document valid under the old schema is valid under the new |
| Compatibility.CarriesBack | internal/schema/compat.go:113-229 | a document valid under the new schema is valid under the old without the keys it added |
| Compatibility.OpenBecomesClosed | internal/schema/compat.go:173-229 | outside the generated shape: an object that says nothing of its keys becomes closed unnoticed |
| Compatibility.UnnamedBecomesRequired | internal/schema/compat.go:173-229 | outside the generated shape: a required key that is not named is not seen |
| Compatibility.NeverEnds | internal/schema/compat.go:113-152 | two well-shaped contracts on which the comparison has not come back after any number of steps |
| Compatibility.LoopsNeverFinish | internal/schema/compat.go:113-152 | so it does not come back from them at all |
| Compatibility.FinishesInside | internal/schema/compat.go:113-152 | the comparison of two schemas comes back exactly when they are a pair followed before, or everything compared inside them comes back in turn |
| Endings.EndsExactly | internal/schema/compat.go:113-229 | it comes back exactly when, from the two contracts down, every way ends or leads to one of some pairs of references within some number of steps |
| Endings.TreesEnd | internal/schema/compat.go:95-152 | on contracts whose references lead to tree nodes the comparison ends within a computed number of steps |
| Endings.EndsWithin | internal/schema/compat.go:95-152 | a round for every pair of references not yet followed, and what is left of this one, are steps enough |
| Endings.StepDown | internal/schema/compat.go:113-229 | every step that follows no new pair of references brings down what is left |
| Evolution.GeneratedIsWellShaped | internal/schema/generate.go:32-234 | every generated contract has the shape Compare's promise needs |
| Evolution.GeneratedIsOfTrees | internal/schema/generate.go:112-139 | every generated contract is one on which Compare ends |
| Evolution.CompareVersions | internal/schema/compat.go:69-74 | for any two definitions: comparing their contracts ends, and without a breaking change each version's documents that fit their own contract fit the other's, the added keys left out; where the new contract is the old one, or an edit of it that breaks nobody, there is no breaking change |
| Plans.PutKeeps | internal/jsonbuild/jsonbuild.go:504-599 | a placement puts its value at the location it comes to, where none stood, and leaves every other value where it was |
| Plans.EveryPlacementIsKept | internal/jsonbuild/jsonbuild.go:232-252 | a value stands at a location exactly when it is the argument's that comes to it |
| Plans.NothingEntersAValue | internal/jsonbuild/jsonbuild.go:504-525 | nothing can be placed at a value's location or inside it |
| Plans.PutSteps | internal/jsonbuild/jsonbuild.go:533-599 | the first token changes one child or adds one |
| Documents.DocumentIsItsArguments | internal/jsonbuild/jsonbuild.go:652-669 | every value at its argument's location; values held = containers made + the arguments' values; depth = the furthest argument's reach |
| Documents.DocumentFollows | internal/jsonbuild/jsonbuild.go:853-870 | what the plan has at a location the document has there |
| Documents.DocumentCounts | internal/jsonbuild/jsonbuild.go:804-845 | the document holds the containers and the arguments' values and no more |
| Documents.DocumentDepth | internal/jsonbuild/jsonbuild.go:751-800 | the document nests as deep as locations and values together |
| Documents.CountValues | internal/jsonbuild/jsonbuild.go:826-845 | exact up to the limit; past it, past the limit and never more than the truth |
| Documents.ValueDepth | internal/jsonbuild/jsonbuild.go:762-800 | exact up to the limit; past it, past the limit and never more than the truth |
| Builds.BuiltKeepsTheLimits | internal/jsonbuild/jsonbuild.go:652-669 | a built document is within both limits and holds every argument's value at its location |
| Builds.TooDeep | internal/jsonbuild/jsonbuild.go:751-757 | an argument refused for depth means the document would be too deep |
| Builds.TooMany | internal/jsonbuild/jsonbuild.go:652-669 | a running count past the limit means the document would hold too much |
| Builds.NothingRefused | internal/jsonbuild/jsonbuild.go:652-669 | arguments none of which was refused make a document within the limits |
| Builds.ReadValues | internal/jsonbuild/jsonbuild.go:652-669 | the loop of Build refuses exactly the documents past a limit or with an unreadable value |
| Builds.ReadFixed | internal/jsonbuild/jsonbuild.go:707-727 | the loop of Fixed prepares what every record's document needs, or no record can be built |
| Builds.CheckDepth | internal/jsonbuild/jsonbuild.go:751-757 | whether the containers around a value and those in it stay within the limit |
| Planner.Parse | internal/jsonbuild/jsonbuild.go:232-252 | succeeds exactly when every argument can be read and placed and at most one reads standard input; the nodes then are the planned document, and whatever is written in an argument, in any of the ways to write one, is planned as that location and value |
| Planner.Plan.Place | internal/jsonbuild/jsonbuild.go:504-529 | linking nodes in place comes to placing in the tree, success and refusal alike |
| Planner.Plan.IntoObject | internal/jsonbuild/jsonbuild.go:533-554 | the step inside an object, and that no other node changed |
| Planner.Plan.IntoArray | internal/jsonbuild/jsonbuild.go:558-582 | the step inside an array, and that no other node changed |
| Planner.Plan.Create | internal/jsonbuild/jsonbuild.go:586-599 | the node the next token needs, or the refusal of an index into nothing |
| Planner.Plan.CountContainers | internal/jsonbuild/jsonbuild.go:804-822 | the containers of the planned document |
| Planner.Plan.Make | internal/jsonbuild/jsonbuild.go:853-870 | the document, with its values in place |
| Planner.Plan.Build | internal/jsonbuild/jsonbuild.go:652-669 | the document when all values can be read and it is within the limits, and a refusal otherwise |
| Planner.Plan.Fixed | internal/jsonbuild/jsonbuild.go:707-727 | a template good for every record, or no record can be built |
| Planner.Plan.With | internal/jsonbuild/jsonbuild.go:732-745 | the document Build gives when standard input's value is this record, refusals included |
| Planner.CheckStdin | internal/jsonbuild/jsonbuild.go:636-648 | whether at most one argument reads standard input |
| Arguments.RenderReadsBack | internal/jsonbuild/jsonbuild.go:446-486 | a location reads back from its JSON Pointer (RFC 6901) exactly when a pointer can write every token of it |
| Arguments.PointerIsRendered | internal/jsonbuild/jsonbuild.go:446-486 | an accepted pointer is the only one that names its location |
| Objects.Object.Set | pkg/jsonutil/object.go:70-87 | the value is replaced in place or added at the end, and the lazy index stays exact |
| Objects.Object.Delete | pkg/jsonutil/object.go:102-114 | the key is gone, the others keep their order, and the index stays exact |
| Objects.Object.Value | pkg/jsonutil/object.go:90-99 | the value of the key, by index or by scan |
| Objects.Object.Position | pkg/jsonutil/object.go:48-59 | index and scan find the same position |
| Objects.DeleteThenGet | pkg/jsonutil/object.go:90-114 | deleting a key changes no other key's value |
| Objects.DeleteUndoesSet | pkg/jsonutil/object.go:70-114 | deleting a key just added gives the object back |
| Json.SetThenGet | pkg/jsonutil/object.go:70-99 | setting a key changes that key alone, and keeps keys distinct |
| Writer.Buffer.WriteValue | pkg/jsonutil/object.go:152-223 | appends the text of a value at its indentation |
| Writer.Buffer.WriteString | pkg/jsonutil/object.go:274-322 | the copying of runs appends the escaped string |
| JsonText.WhatIsWrittenReadsBack | pkg/jsonutil/object.go:326-338 | by the grammar of RFC 8259 the text of every value, compact or indented, reads back as that value |
| JsonText.ValueReadsBack | pkg/jsonutil/object.go:152-223 | the same for a value inside a text, with what follows it left over |
| JsonText.StringReadsBack | pkg/jsonutil/object.go:262-322 | every string reads back, escapes included |
| JsonText.WritingIsInjective | pkg/jsonutil/object.go:152-223 | two values written alike are the same value |
| JsonText.FormsDifferInSpaceAlone | pkg/jsonutil/object.go:152-233 | the indented form less the white space outside strings is the compact form |
| JsonText.Encode | pkg/jsonutil/object.go:326-338 | the text and its line break, from which the value reads back |
| JsonText.IntegerIsNumber | pkg/jsonutil/object.go:205-208 | every integer is written as a number of the grammar (RFC 8259 section 6) |
| JsonText.TidiedIsNumber | pkg/jsonutil/object.go:237-254 | taking the zero out of an exponent leaves a number of the grammar |
| Durations.WholeClockAgrees | pkg/convert/convert.go:568-740 | whenever the fast reading answers, the exact one gives the same seconds |
| Durations.SumsFit | pkg/convert/convert.go:693-740 | no sum of the fast reading overflows 64 bits |
| Durations.Duration | pkg/convert/convert.go:515-538 | with the fast reading in front, the conversion is that of the exact reading alone |
| Durations.ParseClock | pkg/convert/convert.go:615-685 | the loop over the parts computes the value of a clock reading |
| InputText.FoldedIsContinued | pkg/engine/engine.go:293-326 | every folded line is a line that is no continuation, as it stands, with behind it, each after a space, the trimmed texts of the continuations up to the next such line; it carries that line's number |
| InputText.FoldsExactly | pkg/engine/engine.go:293-326 | lines can be folded exactly when the first is no continuation and none goes on from a blank line |
| InputText.FoldingKeepsWords | pkg/engine/engine.go:293-326 | the words of the folded lines are the words of the lines, in order |
| InputText.RecordsAreLines | pkg/engine/csv.go:93-115 | a record of a csv runs from one line that begins outside quotes to the next, with their text and the first one's number |
| InputText.RecordsKeepText | pkg/engine/csv.go:93-115 | the records of a csv are the text of its lines, no character lost or moved |
| InputText.PreparedIsTheText | pkg/engine/engine.go:330-377 | the prepared lines are those between the first line of text and the last, less the ignored and, where they are not kept, the blank ones, in order |
| InputText.RegionIsSelected | pkg/engine/engine.go:427-464 | the region is exactly the lines that stand behind the first match of `after`, before the first match of `until`, past the lines skipped and within the limit |
| CsvText.RowsAreRecords | pkg/engine/csv.go:93-195 | rows written by RFC 4180 section 2, their fields bare or in quotes and over as many lines as the quotes take, are read as one record each, with the text and first line of the row |
| CsvText.BreakIsQuoted | pkg/engine/csv.go:152-195 | at a line break inside a written row the quotes are open |
| ListText.EachLineIsRead | pkg/engine/engine.go:622-659 | a value per line, in order, or a refusal when one line is not read |
| ListText.TableIsItsRows | pkg/engine/table.go:19-75 | the values of a table are its lines but the headings, in order, each read under the last heading above it or the columns that are given |
| ListText.TableIsReadExactly | pkg/engine/table.go:19-75 | a table is read exactly when every heading names columns and every row is read under those it stands under |
| ListText.CsvIsRead | pkg/engine/csv.go:28-87 | the values of a csv are the rows of its records in order, each an object under the columns; the first row names them, and is no value, where it is the header |
| ListText.CsvIsReadExactly | pkg/engine/csv.go:28-87 | a csv is read exactly when its records are cut, the columns asked for are there and every row under them is read |
| ListText.BlocksAreLines | pkg/engine/engine.go:585-607 | lines fall into records exactly when the first opens one, and a record runs from a line that opens one to the next |
| ListText.BlocksAreRead | pkg/engine/engine.go:585-617 | the values of records are what each is read as, in order |
| ListText.BlocksAreBetweenRules | pkg/engine/box.go:87-104 | the blocks of a drawn table are the runs of lines between its rules; no line that is no rule is left out |
| ListText.RowsAreRuns | pkg/engine/box.go:115-126 | a row of a block goes on as long as lines continue it |
| ListText.OthersArePicked | pkg/engine/box.go:161-194 | the rows that do not repeat the header, in order |
| ListText.BoxIsItsRows | pkg/engine/box.go:161-194 | the values of a drawn table are those rows, and it is read exactly when each of them is |
| ListText.PartLinesAreSelected | pkg/engine/engine.go:555-577 | the lines of a part are those its selection takes less those it ignores, in order |
| Selector.SelectedIsTheChoice | pkg/selector/selector.go:321-399 | what the selection comes to is the entry that is eligible, suits the input and is preferred to all others that are and do |
| Selector.EligibleIsInScope | pkg/selector/selector.go:321-399 | the scope of a context is the entries that may be chosen in it: the one a command and a variant name; of a command alone its entries, but for those found by their shape alone when nothing is known of the arguments and another carries a signature; and without a command any that is found on its own and carries a signature |
| Selector.WindowIsLeading | pkg/selector/selector.go:825-861 | a signature looks at the lines from the first that is not blank, at most 200, without the blank ones at the end |
| Selector.TextIsLines | pkg/selector/selector.go:800-822 | the text a signature is matched on is so many of those lines, each with its line break but the last |
| Aligned.WordsAreUnderTheirColumns | pkg/engine/table.go:375-420 | a word that starts at or after a column's offset and ends before the next one's is in that column's cell |
| Aligned.ClearRowIsCut | pkg/engine/table.go:375-420 | where white space stands in front of every offset and no cell holds a gap, the cells are the trimmed text between the offsets, for any widths of characters |
| Aligned.OneOffset | pkg/engine/table.go:488-497 | the offset of a column in a row is the first character that stands at its display column or after it and takes a column; there is one |
| ArgumentText.SpellingReadsBack | internal/jsonbuild/jsonbuild.go:254-440 | a location and a value written in any of the ways there are (key, pointer or list element; text, JSON, file as text or as data, --string, --text-file) read back from the argument exactly when they can be written so |
| ArgumentText.AcceptedIsSpelled | internal/jsonbuild/jsonbuild.go:254-440 | an argument is accepted exactly when it is written in one of these ways |
| ArgumentText.PlainReadsBack | internal/jsonbuild/jsonbuild.go:309-340 | key=text, key:=json, key=@path, key:=@path, with or without [] behind the key: exactly when the key is plain, the operator can be told from it and the value is no file by its first character |
| ArgumentText.PathReadsBack | internal/jsonbuild/jsonbuild.go:283-304 | the same behind a JSON Pointer |
| ArgumentText.TextReadsBack | internal/jsonbuild/jsonbuild.go:410-440 | --string and --text-file take the text as it is, so it depends on the key alone |
| ArgumentText.WrittenStands | internal/jsonbuild/jsonbuild.go:652-669 | in the document that is built, what is written stands where it is written to |
| ArgumentText.StandsAtAKey | internal/jsonbuild/jsonbuild.go:853-870 | what stands at a key is that key's value, and what is appended to a key is in the list there |
| ArgumentText.TextsStandAtTheirKeys | internal/jsonbuild/jsonbuild.go:309-340 | key=text is in the document as that text at that key |
| ArgumentText.ElementsInOrder | internal/jsonbuild/jsonbuild.go:342-354 | a list of elements is their values in order |
| Planner.New | internal/cli/new.go:95-120 | planning and building together: every argument's value stands where it is written to, key=text as the text at that key, list elements in order |
| Growth.CompareEdited | internal/schema/compat.go:69-229 | comparing a contract that names each key once with itself, or with what one edit makes of it anywhere inside (an optional key named in an object that closes its keys, a key of an open object named or no longer named as the others are described, or types, values, properties or required keys in another order), comes back, reports nothing that breaks, and nothing but keys that were added |
| Growth.EditedContractGrows | internal/schema/compat.go:113-229 | such an edit lets the contract grow: what was described is described by what it grew into and as required as before, and what is new is optional |
| Growth.GrownContractAgrees | internal/schema/compat.go:113-229 | a contract agrees with what it has grown into, recursion included |
| Growth.GrownFinishes | internal/schema/compat.go:113-152 | comparing the two comes back |
| Growth.NamedTwiceBreaks | internal/schema/compat.go:173-229 | a contract that names a key twice, with two descriptions, breaks with itself |
| NamedOnce.GeneratedNamesOnce | internal/schema/generate.go:32-353 | every generated contract names each key once |
| NamedOnce.CompareGenerated | internal/schema/compat.go:69-74 | so a generated contract is compared with itself, or with such an edit of it, without anything that breaks |
| Compatibility.FittingStays | internal/schema/compat.go:69-74 | leaving out the keys a contract does not have changes no document that fits it |
| Shapes.GeneratedExactly | internal/schema/generate.go:32-353 | a generated contract accepts the documents of its definition's shape and no others: which keys each object has, which it must have, and of what kind each value is, for every parser and at any depth |
| Shapes.MatchExactly | internal/schema/generate.go:240-288 | the schema of a match accepts objects whose keys are groups of the alternatives, those in every alternative that no rule may leave out being there, each with a value its rule makes or one of its listed texts |
| Shapes.ConvertedExactly | internal/schema/generate.go:326-353 | the schema of a field accepts what the field converts to, arrays and objects inside it included, and nothing else |
| Shapes.RowExactly | internal/schema/generate.go:142-192 | the schema of a row accepts objects of its columns, or of any where the input names them, those that are always there being there |
| Shapes.EntryExactly | internal/schema/generate.go:206-222 | the schema of an entry accepts a name and a value of a type that one of the rules makes |
| Shapes.NodeExactly | internal/schema/generate.go:112-139 | the schema of a node accepts its own keys with a list of nodes under "children", at any depth |
| Patterns.LanguageExactly | internal/schema/generate.go:485-567 | where the texts of a pattern are listed they are the ones it can match, no more and no fewer |
| Patterns.FewTextsAreListed | internal/schema/generate.go:485-546 | a choice of at most 32 texts is listed |
| Integers.ReadsExactly | pkg/engine/fields.go:144-158 | an integer is read as the number its sign and digits write, however large, and nothing else is read |
| Integers.IntegerReadsBack | pkg/convert/convert.go:57-71 | every way to write an integer, with white space around it, reads back as it |
| Integers.GroupsReadBack | pkg/convert/convert.go:353-396 | so does one whose digits stand in groups of three |
| Integers.GroupsExactly | pkg/convert/convert.go:353-396 | where the separator stands in a text, it is an integer exactly when it is digits in groups of three |
| Values.ValueIsWhatWasRead | pkg/engine/fields.go:137-195 | the value of an integer, number, truth, time or text field is the one that was read, and refused where that was |
| Values.IntegerIsItsNumber | pkg/engine/fields.go:144-158 | an integer field makes of an integer's text that integer |
| Values.GroupedIntegerIsItsNumber | pkg/engine/fields.go:144-158 | and of one in groups |
| Values.NothingBecomesNull | pkg/engine/fields.go:53-108 | where there is nothing to convert the value is null, or left out exactly where the rule says so, or refused exactly where it is required and not read as null on purpose |
| Values.OnlyNothingBecomesNull | pkg/engine/fields.go:53-108 | and only there |
| Values.PlainItems | pkg/engine/fields.go:197-224 | an array without a rule for its items is its parts, trimmed, in order |
| Values.RuledItems | pkg/engine/fields.go:197-224 | with a rule that leaves none out it is what the rule makes of each, in order |
| Clocks.HoursMinutesSeconds | pkg/convert/convert.go:568-685 | h:mm:ss, days in front and a letter behind or not, is that many seconds, and 60 minutes or seconds are refused |
| Clocks.TwoPartReading | pkg/convert/convert.go:568-685 | two parts are hours and minutes where the letter says so or, without one, the layout does, and else minutes and seconds |
| Writer.PlainIsItself | pkg/jsonutil/object.go:274-322 | text without quote, backslash, control character or line separator is written as it is |
| Writer.CompactIsOneLine | pkg/jsonutil/object.go:152-233 | the compact form of any value is one line, whatever its texts hold |
| Pretty.WrittenAsLines | pkg/jsonutil/object.go:152-233 | the indented form is the lines of the value: what is inside a list or object on lines of its own, one step further in |

## Left out

- Compatibility.Comparer.Compare: is asked for a comparison that comes back (`Endings.EndsExactly` says which do), because a method here has to end. Of a change it is proved whether it breaks and that one that does not is an added key; its path and which breaking kind it is are computed, its words and the sorting of the list by path are not modelled.
- Engine.Stream: the callback's own errors and errors of the underlying reader other than its end are not modelled.
- Batch.ParseAccounted: the limit on retained values (countValue) and the size of error reports are not modelled.
- Selector.Watcher.Look: says that an early answer is final, not that it comes as early as it could; continuations that bring in a NUL byte are outside its promise, as they are in the original.
- Generation.EveryDocumentFits: raw mode is left out, where field rules do not apply; a definition's rules stand as a list in the order of their names. Key/value lines and tree lines are given as they were cut.
- Conversions.EntriesAreMembers: what a decimal number, a boolean, a time or an escape reads as is a function of the field; `Values` says that it is the field's value, and `Integers` and `Clocks` what an integer and a clock reading read as.
- Durations.ParseClock: compares each part with 60 exactly, where the original rounds it to a float64 first; a part too long for a float64 is not refused.
- Spans.MarkSpan: offsets count characters, where the original counts bytes; line and match offsets are in the same unit in both.
- JsonText.WhatIsWrittenReadsBack: numbers are written and read by functions; what is written for the numbers of the value is asked to be in the grammar and to read back as the number. Text is a sequence of Unicode scalar values, so the replacement of invalid UTF-8 is not modelled.
- Writer.Buffer.WriteValue: values of other Go types, which encoding/json writes, are not modelled.
- Planner.Parse: what a file holds and how it is decoded is a function of the sources; messages and the options that only choose between them are not modelled.
- Planner.Plan.CountContainers: goes through an object's keys in their order, where the original ranges over a map.
- Aligned.AlignedCells: the width of a character is a function; tokenizing the header is not modelled, the columns' offsets are given.
- FromText.NameColumns: the header's words are given; a header with declared columns, where only an aligned table looks at the words and may join two of them under one name (wordsNamed), is not modelled.
- RecordIO.NeverGrows: decoding UTF-8 is a function that is asked to undo the encoding.
- Typing.DescribeObject: `value`, `converted` and the matching loops inside `Generate`'s helpers are functions on values; the local slices they append to are not shared with anyone.
- Conversions: objects are filled by a function over their entries, where the original sets keys on an object it holds; `Objects` has that object.
- Selection between commands for suggestions (levenshtein), argument signatures and the registry's files: the registry is a finite list of entries with their precedence.
- Regular expression matching, encoding/csv, time zones and number printing are library code; what is asked of them is stated as a hypothesis where it is used (`Typing.WellFormed`, `Expressions.Faithful`, `JsonText.NumbersReadBack`).
- The YAML definition loader and its checks: their results are hypotheses (`Generation.MakesSense`, `Streaming.Readable`).
- cmd/jz, internal/cli, internal/runner, internal/datafile and internal/conformance are not part of this model: processes, signals, options, archives and test fixtures.
- The words of every error message.
