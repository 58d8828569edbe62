# A verified model of squel

squel is a SQL engine in the style of Volcano: every operator has a `getTuple` that pulls tuples
from its children. Several of its fast forms keep state between calls: a hash join over a chained
hashmap with a cursor for every key, a resumable nested loop, a buffer of tuples that moves when it
grows, a cache that overwrites a column's offset with a slot, a scan that serves each chunk of a file
backwards. This project models these parts of squel in Dafny, in the form the C code has, and proves
that they agree with simple statements about lists.

The main results:

* **From the text of a statement to what is printed** (`Database.Run`): parsing, planning and running
  `SELECT ... FROM ... WHERE ...` over a table, a join or a sub-query, nested to any depth, listing
  columns or aggregating one, with aliases and any white space. It is refused exactly when a table, a
  column or a function is unknown, or no column is listed. Otherwise it prints the columns it asks for,
  in their order, of the rows that satisfy the conditions of all levels, and stops exactly when a WHERE
  compares text with numbers on some row, as long as each comparison is one the evaluator answers as
  written (which these are is proved exactly) and the chosen join loses nothing. An ON condition that
  mixes types is not covered.
* **Statements written out** (`ClauseTexts`, `StatementTexts`, `NestedTexts`, `JoinTexts`): what is printed
  for literal texts with each operator, connector and function, with aliases, a join and a sub-query, over
  every file with such columns.
* **Tuples that are shared and cast in place** (`Tuples`, `Evaluator`, `Scan`, `JoinTuples`, `Bottom`):
  nothing in that run is a row as a value. A scan fills one tuple over and over, a join keeps its left
  tuple and a buffer of right ones, and ON, WHERE, the list and an aggregate cast columns of them, which
  moves offsets; each pull still finds what the rows say. Which columns may be read how is part of what
  `Run` asks for, and the two ways in which a kept cast does harm have their exact conditions: a number
  past the width of a left line, and a text that is aggregated over a join (`RunConditions`,
  `KeptCasts`).
* **The two joins** (`JoinSpec`, `HashJoinSpec`, `HashJoinServed`, `HashJoinNumbers`): each operator,
  on those tuples, refines its run exactly, for every hash function, on text and on numbers, with what a
  cast does to the join value. The nested loop is the join. For text, for stored numbers and for numbers
  in the first column the run of the hash join is the join if and only if a condition on the inputs
  holds; so it is for numbers in other columns, on inputs whose left tuples do not disturb each other.
* **A table from CREATE through INSERT to SELECT** (`TdbTable.CreateInsertSelect`): each line of a
  delimited file comes back once, with its columns.
* **Where the engine departs from SQL**, the exact condition is proved for all inputs, and
  `Counterexamples` has an input for each: comparison of values, precedence of AND and OR, relocation
  of ON conditions, casts that outlast their line or are read as text, lost pairs of the hash join, the
  layout of records, the order of a star over a sub-query, aggregates of negative numbers.

## How it is laid out

| files | what they model |
|---|---|
| `CText`, `Arithmetic` | C strings, machine integers, `atol`, little-endian bytes |
| `Tuples`, `Scan`, `TupleBuffer`, `Source` | tuples and their cast cache, the scans that fill them, the growing buffer |
| `Filter`, `Comparison`, `Precedence` | filter operators on rows, and what they mean |
| `Evaluator`, `Readings` | their evaluation on mutable tuples, and how conditions read columns |
| `HashTable`, `Hashmap` | the multimap and the linked nodes that represent it |
| `JoinSpec`, `RightRelation`, `JoinTuples`, `NestedLoopJoin` | what a join is, the tuples of its two sides, the nested loop |
| `HashJoinSpec`, `HashJoin`, `HashJoinServed`, `HashJoinNumbers` | the run of the hash join, the operator, and when the run is the join |
| `ParseTree`, `WrittenText`, `QueryText`, `Parser` | text, the parser, the tree |
| `FilterPlanner`, `WhereMeaning`, `Where`, `JoinPlanner`, `JoinQuery` | planning of WHERE and ON |
| `Bottom`, `SelectPlanner`, `Pipeline`, `Query`, `Aggregate` | planning and running of queries |
| `KeptCasts`, `RunConditions` | what a cast leaves behind, and which statements can be run over a join |
| `Database` | whole statements, from text to what is printed |
| `ClauseTexts`, `StatementTexts`, `NestedTexts`, `JoinTexts` | clauses and statements written out |
| `Limits` | the sizes of arrays and buffers |
| `File`, `TdbHeader`, `TdbScan`, `TdbInsert`, `TdbTable` | stored tables |

Operators whose state changes between calls are classes; their contracts say what is still to come
(`Remaining`), that a call takes the first of it, and that it is then at hand to be read (`Handing`).
How columns are read is a ghost list of `Reading`s: as text, as a number, as both, or not at all. An
exit of the program is a `None` or a `false`. Parser methods take ghost parameters that say which text
they stand in front of, and promise nothing about other text.

Where the code and its comments disagree, the model follows the code: the comment in
src/include/io/tdb.h:16-17 gives a header 8 bytes for the number of records and 1 for the number of
columns, the code writes 4 and 8.

## Model

| member | source | states |
|---|---|---|
| HashTable.BuildIsMultimap | src/util/hashmap.c:14-68 | for every hash function and any sequence of insertions: each key holds exactly its inserted values in insertion order, the empty key none, and every chain has each non-empty key once, in its own bucket |
| HashTable.InsertValues | src/util/hashmap.c:23-49 | one insertion appends to the values of its key and leaves the values of every other key alone; the empty key is dropped |
| HashTable.ChainedIsPastHead | src/util/hashmap.c:23-49 | a key sits past the head of its bucket exactly when another non-empty key with the same hash was inserted first |
| HashTable.HeadIsFirst | src/util/hashmap.c:31-40 | the head of a bucket is the first non-empty key that hashed there |
| HashTable.AdvancePending | src/util/hashmap.c:81-95 | serving a value removes the first pending value of that key and touches no other key |
| HashTable.CursorProtocol | src/util/hashmap.c:51-95 | the n-th value served is the n-th stored one, after all of them none is left, and other keys keep all they had |
| HashTable.MoveCursorEffect | src/util/hashmap.c:70-95 | moving one cursor changes no stored value and no other key's pending values |
| HashTable.RewindSound | src/util/hashmap.c:70-73 | rewinding a bucket head keeps the chains well-formed |
| Hashmap.Hashmap.constructor | src/util/hashmap.c:3-12 | a new hashmap has one blank node for every bucket |
| Hashmap.Hashmap.InsertToHashmap | src/util/hashmap.c:14-19 | on the heap of linked nodes, an insertion does to the represented table just what the multimap insertion does |
| Hashmap.Hashmap.TryInsert | src/util/hashmap.c:23-49 | the walk along the chain from any of its nodes reaches the key's node or appends one |
| Hashmap.Hashmap.AppendNode | src/util/hashmap.c:34-36 | a blank node after the last one of a chain, all other chains kept |
| Hashmap.Hashmap.StoreValue | src/util/hashmap.c:27-48 | the write at the found or blank node is the multimap insertion |
| Hashmap.Hashmap.IsInHashmap | src/util/hashmap.c:63-68 | true exactly when the key has a value that its cursor has not passed |
| Hashmap.Hashmap.IsIn | src/util/hashmap.c:51-60 | the same for the walk from any node of the chain |
| Hashmap.Hashmap.ResetCursor | src/util/hashmap.c:70-73 | rewinds the entry at the head of the bucket, whichever key lives there, and nothing else |
| Hashmap.Hashmap.GetValueFromHashmap | src/util/hashmap.c:75-79 | returns and passes the first pending value; without one the table stays and the answer is -1 or 0 |
| Hashmap.Hashmap.GetValue | src/util/hashmap.c:81-95 | the same for the walk from any node of the chain |
| Hashmap.Hash | src/util/hashmap.c:120-126 | the loop that wraps at 64 bits in every step computes the unwrapped polynomial reduced once, and stays inside the table |
| Hashmap.ConcreteHashFits | src/util/hashmap.c:120-126 | the concrete hash is one of the functions that the hashmap theorems quantify over |
| Hashmap.HashInNumbers | src/util/hashmap.c:120-126 | the bytes are weighted with powers of 32, and those from 128 on are negative |
| JoinSpec.JoinCounts | src/operators/join.c:65-84 | the join holds each pair that satisfies the ON list exactly as often as its left and right tuples occur, and no other pair |
| JoinSpec.StepRight | src/operators/join.c:77-83 | what one tested pair takes from the pairs that are left |
| JoinSpec.StepLeft | src/operators/join.c:67-75 | what moving on to the next left tuple does to the pairs that are left |
| NestedLoopJoin.NestedLoopJoin.constructor | src/operators/join.c:24-32 | before the first call, on a left input that is not empty, the whole join of the two inputs is to come |
| NestedLoopJoin.NestedLoopJoin.GetTuple | src/operators/join.c:4-91 | each call pops the first pair of what remains, whatever its reader has cast in the tuples since the last one; the pair is at hand in the left tuple and a buffered right one; the end is reported when nothing remains |
| NestedLoopJoin.NestedLoopJoin.Evaluate | src/operators/filter.c:149-182 | a list asked about the pair at hand between two calls answers as on its row, and the pairs to come stay the same |
| NestedLoopJoin.NestedLoopJoin.Read | src/executor/tuple.c:20-59 | a column read of the pair at hand is that of its row, and the pairs to come stay the same |
| NestedLoopJoin.NestedLoopJoin.Probe | src/operators/join.c:65-84 | the resumed do-while loop finds the next pair, and ends: lexicographic measure of left tuples, then right tuples |
| NestedLoopJoin.NestedLoopJoin.ProbeStep | src/operators/join.c:65-84 | one round emits the first remaining pair, or ends, or keeps what remains and comes closer to the end |
| NestedLoopJoin.NestedLoopJoin.NextLeft | src/operators/join.c:67-75 | starting over with the next left tuple keeps the remaining pairs |
| NestedLoopJoin.NestedLoopJoin.TryPair | src/operators/join.c:77-83 | testing one pair, which casts in both tuples, emits it exactly if it is the next one of the result |
| NestedLoopJoin.NestedLoopJoin.CollectRight | src/operators/join.c:36-48 | the whole right input is collected once, which changes nothing about the pairs to come |
| RightRelation.RightRelation.CollectOne | src/operators/join.c:38-47 | a right tuple goes into a slot of its own, nothing in it is cast, and the earlier ones stay as they were |
| RightRelation.RightRelation.Get | src/operators/join.c:77 | fetching repairs the data pointer and gives the tuple collected at that index, with what was cast in it |
| RightRelation.RightRelation.ReadAt | src/executor/tuple.c:20-59 | a column read of one collected tuple is that of its row, and all of them can be read as before |
| JoinTuples.JoinTuples.FetchLeft | src/operators/join.c:67-75 | the next left row is read over the left tuple: nothing is cast, and what is read past its width still lies at offset 0 |
| JoinTuples.JoinTuples.TryPair | src/operators/join.c:77-83 | ON asked of the left tuple and a collected right one answers as on their rows; all collected tuples, the ones cast earlier too, still read as theirs |
| JoinTuples.JoinTuples.Evaluate | src/operators/filter.c:149-182 | WHERE asked of the pair answers as on the row of the join, and what ON reads past a width is undisturbed |
| JoinTuples.JoinTuples.Read | src/executor/tuple.c:20-59 | a column of the pair, printed or cast, is that of the row of the join, and ON can be asked as before |
| HashJoinServed.HashJoinServes | src/operators/hashjoin.c:6-101 | on text the run is the join of the left tuples without those with an empty key and without the second and later occurrences of a key stored past its bucket head, with order and duplicates |
| HashJoinServed.HashJoinIsJoinIff | src/operators/hashjoin.c:6-101 | on text the run equals the join if and only if the empty key is not on both sides and no key past its bucket head occurs twice on the left |
| HashJoinServed.SteadyIsJoinIff | src/operators/hashjoin.c:67-92 | on text, on stored numbers and on numbers in the first column of a line: the run equals the join if and only if every match has the key of its left tuple, which is neither empty nor past its bucket head and used by an earlier left tuple |
| HashJoinServed.SteadyCases | src/executor/tuple.c:104-115 | the join value survives the cast for text, for stored numbers, and for the first column of a line |
| HashJoinServed.DrainRun | src/operators/hashjoin.c:67-92 | probe by probe, a left tuple whose join value survives the cast gets the positions of its value, and then its bucket is rewound |
| HashJoinServed.NothingLostIff | src/operators/hashjoin.c:67-92 | on text that condition is one on the keys alone |
| HashJoinNumbers.IndependentIsJoinIff | src/operators/hashjoin.c:67-92 | on numbers in any column of a line, where the cast replaces the join value by the first column: if no left tuple looks up what another one has used, the run equals the join if and only if each match is spelled like its left tuple and a tuple that was cast has one match |
| HashJoinNumbers.LoneRuns | src/executor/tuple.c:104-115 | a left tuple that is cast gets the first position of its value and finds nothing afterwards; a left tuple that is not gets all positions; and neither takes what another one looks up |
| HashJoinNumbers.LonePairsIff | src/operators/hashjoin.c:83-86 | what one left tuple gets is all of its matches exactly when they are spelled like it, and only the first one if it is cast |
| HashJoinServed.PositionsAreMatches | src/operators/hashjoin.c:67-92 | the positions stored for a left key lead to exactly the matching right tuples with this key, in their order |
| HashJoinServed.RestingStep | src/operators/hashjoin.c:67-92 | between two left tuples bucket heads are rewound and used-up keys past the heads stay used up; what a left key then finds |
| HashJoinServed.ServedIsAllIff | src/operators/hashjoin.c:67-92 | what is served is the join exactly when every pair that matches is served, and is shorter otherwise |
| HashJoinSpec.FirstProbe | src/operators/hashjoin.c:55-74 | the zeroed left tuple that the probe phase starts with finds nothing: the run is that from the first left tuple on |
| HashJoinSpec.MissRun | src/operators/hashjoin.c:70-74 | a value with nothing pending: its bucket is rewound and the pairs still to come are those from the next left tuple on |
| HashJoinSpec.HitRun | src/operators/hashjoin.c:77-90 | a value with pending positions: the first one is that of a right tuple with this value, and the pair comes next if it satisfies the ON list |
| HashJoin.HashJoin.constructor | src/operators/hashjoin.c:17-27 | before the first call the whole run is to come, also on an empty left input |
| HashJoin.HashJoin.GetTuple | src/operators/hashjoin.c:6-101 | each call pops the first pair of what remains, whatever its reader has cast in the tuples since the last one; the pair is at hand in the left tuple and a buffered right one |
| HashJoin.HashJoin.LeftText | src/operators/hashjoin.c:68 | the text looked up is the join value: the column of the left tuple, or after its cast the text at the slot |
| HashJoin.HashJoin.Hit | src/operators/hashjoin.c:77-90 | a value with a position: ON is asked of the right tuple there, and its answer and the rest are those of the run |
| HashJoin.HashJoin.Miss | src/operators/hashjoin.c:70-74 | a value with none: its bucket is rewound, and with the next left tuple, of which nothing is cast, the same pairs are to come |
| HashJoin.HashJoin.Evaluate | src/operators/filter.c:149-182 | a list asked about the pair at hand between two calls answers as on its row, and the pairs to come stay the same |
| HashJoin.HashJoin.Read | src/executor/tuple.c:20-59 | a column read of the pair at hand is that of its row, and the pairs to come stay the same |
| HashJoin.HashJoin.CollectRight | src/operators/hashjoin.c:33-50 | building the hashmap changes nothing about the pairs to come |
| HashJoin.HashJoin.CollectOne | src/operators/hashjoin.c:36-49 | one right tuple goes into the buffer, and its position into the hashmap under its join value |
| HashJoin.HashJoin.Probe | src/operators/hashjoin.c:67-92 | the resumed loop finds the next pair of the run, and ends |
| HashJoin.HashJoin.ProbeStep | src/operators/hashjoin.c:67-92 | one round: a pair that is the next of the run, or the end, or the same pairs to come with one left tuple, or one position, less |
| JoinPlanner.RelocateOps | src/planner/operators/join.c:15-26 | the loop over the planned ON list gives the relocated list |
| JoinPlanner.RelocationPreserves | src/planner/operators/join.c:4-29 | on rows of the two tables' widths a relocated list of relocatable comparisons says what the planned list says of their concatenation (when kept tuples read as these rows, also past their width, is `JoinQuery.JoinFitsIff`) |
| JoinPlanner.RelocatesIff | src/planner/operators/join.c:15-26 | a comparison of columns means the same after relocation on all pairs of rows of the tables' widths, and also just on all pairs of lines, a column number past the width being read at the start of the row, exactly when it is left column against right column with the right one past the first (or read as it), or an `=` or `!=` written right before left at the same place |
| JoinPlanner.RelocatesConstantIff | src/planner/operators/join.c:15-26 | the same for a column against a constant, on rows: a left column on the left, or a right one past the first on the right; or a comparison that answers all columns alike (an order asked of the empty text) |
| JoinPlanner.RelocatesOp | src/planner/operators/join.c:15-26 | a relocatable comparison, of columns or with constants, answers on the two rows as on their concatenation |
| JoinPlanner.WitnessTells | src/planner/operators/join.c:18-23 | for every other comparison, two lines of the tables' widths on which relocation changes the answer |
| JoinQuery.BuildJoin | src/planner/operators/join.c:60-104 | an ON condition of known columns, of text or numbers, or constants, planned, relocated and given to the chosen join: what is pulled will be, left-major, the concatenations that satisfy it; an unknown column is refused |
| JoinQuery.RelocatedReads | src/planner/operators/join.c:15-26 | the relocated list reads in each of the two tuples columns of the types that the written condition reads |
| JoinQuery.JoinFitsIff | src/executor/tuple.c:104-115 | over stored tables and lines of the tables' widths a joinable condition can be asked of the kept tuples exactly when a number past the width of a left line is the first number that ON reads there |
| JoinQuery.HashJoinChosenIff | src/planner/operators/join.c:31-57 | the hash join is chosen exactly when it is enabled and the ON condition is one comparison written with `=`, whatever its operands |
| JoinQuery.HashJoinNeedsEquality | src/planner/operators/join.c:31-57 | between columns the planner chooses the hash join only for the equality of the two columns that it hashes |
| JoinQuery.RelocatedMeans | src/planner/operators/join.c:4-29 | the relocated operators agree with the written ON condition on every pair of rows |
| TupleBuffer.TupleBuffer.GetTupleFromBuffer | src/executor/tuplebuffer.c:41-52 | hands out a new slot, resizing first when the capacity is nearly used; every stored block keeps its contents |
| TupleBuffer.TupleBuffer.Resize | src/executor/tuplebuffer.c:17-38 | moving to a buffer of twice the capacity keeps every block |
| TupleBuffer.TupleBuffer.Fill | src/executor/tuplebuffer.c:41-52 | a tuple read into its slot leaves all other slots as they were |
| TupleBuffer.TupleBuffer.GetTupleByIndex | src/executor/tuplebuffer.c:54-69 | a fetched tuple reads through a repaired pointer: it is the one stored there, after any number of moves |
| TupleBuffer.OtherBlockKept | src/executor/tuplebuffer.c:41-52 | writing one block leaves every other block alone |
| Tuples.RejoinRestores | src/operators/scan.c:34-63 | joining the columns with the delimiter gives back the line |
| Tuples.SplitsJoined | src/operators/scan.c:34-63 | splitting a line that was joined from columns without delimiters gives the columns |
| Tuples.ColumnClean | src/operators/scan.c:41-63 | no column holds a delimiter |
| Tuples.RowReadsColumns | src/operators/scan.c:41-63 | each column of the cut line reads, NUL-terminated, as the text between delimiters, and the columns tile the buffer |
| Tuples.SearchesFind | src/operators/scan.c:43-49 | `strchr` and `strlen` on the part that is not cut yet find the end of the next column and of the line |
| Tuples.Tuple.ScanLine | src/operators/scan.c:20-67 | the tuple reads as the row of the line, nothing is cast, and bytes behind the line and offsets behind its columns are untouched |
| Tuples.Tuple.SplitColumns | src/operators/scan.c:41-63 | the loop cuts the line at every delimiter and records offset and size of every column |
| Tuples.Tuple.CutColumn | src/operators/scan.c:43-49 | one column is cut at the next delimiter, if there is one |
| Tuples.Tuple.LoadRecord | src/operators/scanTDB.c:34-48 | a record is read at the prefix sums of the column sizes, computed on the first call only |
| Tuples.Tuple.GetTupleColByIndex | src/executor/tuple.c:20-35 | a column that was not cast reads as its text |
| Tuples.Tuple.GetTupleLongColByIndex | src/executor/tuple.c:38-59 | any interleaving of numeric reads gives each column the `atol` of its own text (or the stored long), and disturbs no other column |
| Tuples.Tuple.CastColumnToLong | src/executor/tuple.c:104-115 | casting gives the column a slot of its own and keeps all other offsets |
| Tuples.Tuple.SlotsLeft | src/executor/tuple.c:111-112 | while a column is not cast there is a free slot |
| Scan.Scan.GetTuple | src/operators/scan.c:4-70 | the next line or record is read over the same tuple: it reads as its row, nothing in it is cast, and offsets past its width are those of the rows before |
| Bottom.TableScan.GetTuple | src/executor/executor.c:71-79 | the scan of a table hands on its rows one by one in the one tuple of the executor |
| Evaluator.EvaluateTupleAgainstFilterOp | src/operators/filter.c:3-144 | on tuples in which columns are cast: it answers unless the types differ or cannot be compared, its answer is that of the written comparison on the rows exactly when that is faithful, and all that could be read still can |
| Evaluator.CompareOperands | src/operators/filter.c:28-117 | the four kinds of operands and the types: what is compared with zero is what is compared on the rows, or the exit |
| Evaluator.EvaluateTuplesAgainstFilterOps | src/operators/filter.c:149-182 | whatever is cast on the way, the loop computes the left fold of the list on the rows, groups on their own, or the exit; all can be read as before, and the first slot of a left line goes to the first number of the list |
| Comparison.EvaluatesMeaningIffFaithful | src/operators/filter.c:28-142 | the answer is that of the written comparison exactly when no order is asked of a text column against a text constant (unless they are equal) and the cut of the difference to 32 bits keeps what the operator looks at |
| Comparison.NearLongsFaithful | src/operators/filter.c:49-54 | longs that differ by less than 2^31 are compared as written |
| Comparison.TextsAnswered | src/operators/filter.c:31-111 | what is answered on texts, for all six codes and four kinds of operands: how they are ordered byte by byte; a column against a constant is asked the other way around |
| Precedence.AgreeIffAndsThenOrs | src/operators/filter.c:157-179 | the left-to-right reading equals the reading of section 8.12 of SQL-92, where AND binds tighter, for all truth values exactly when no AND follows an OR |
| Precedence.FoldIsLeftToRight | src/operators/filter.c:151-181 | the evaluated list is the left-to-right reading of its connectors and results |
| Precedence.HoldsIsAndFirst | src/operators/filter.c:151-181 | a list in which no AND follows an OR has SQL's meaning on all tuples |
| Evaluator.Locate | src/executor/tuple.c:20-34 | column i of a pair is a column of its left or of its right tuple, at the same place |
| Evaluator.LongColumn | src/executor/tuple.c:38-59 | a numeric read, of a tuple or of a pair, gives the number of the row, cast on its first reading, and leaves every column readable as it was |
| Evaluator.CompareTexts | src/operators/filter.c:31-111 | a comparison of texts read from the tuples is that of their rows, with the operands swapped for a column against a constant |
| Evaluator.CompareLongs | src/operators/filter.c:31-117 | a comparison of numbers, cast in place on their first reading, is that of the rows, also when both operands share one tuple |
| Readings.PlannedReadsAs | src/planner/operators/filter.c:99-116 | a planned condition reads every column as the type it has, never as both |
| Readings.ChainReadsAs | src/planner/operators/filter.c:199-259 | so does whatever is planned from any chain of nodes |
| Readings.RereadIff | src/executor/tuple.c:104-115 | a list can still be answered after one more column is read as a number by others exactly when it does not read that column as a text |
| FilterPlanner.FindColIdxInResDesc | src/planner/planner.c:61-80 | the first column with that name and alias, and none before it matches |
| FilterPlanner.MakeFilterOps | src/planner/operators/filter.c:199-259 | the recursion over groups and comparisons gives the planned list, or the exit |
| FilterPlanner.MakeComparisons | src/planner/operators/filter.c:232-256 | the loop over every fourth node gives one operator for each comparison, each connector on the operator before it |
| WhereMeaning.PlansCondition | src/planner/operators/filter.c:199-259 | for groups followed by comparisons the planned list has one operator for each item of the condition, in order, with connector i on operator i; an exit just when a column is unknown |
| WhereMeaning.OpsTyped | src/operators/filter.c:13-17 | the evaluator does not stop exactly when every comparison is between two strings or two numbers |
| WhereMeaning.EvaluatesFrom | src/operators/filter.c:149-182 | evaluating the planned list is the left-to-right meaning of the condition |
| WhereMeaning.PlannedConditionMeans | src/operators/filter.c:149-182 | planning and evaluating the nodes of a condition gives its meaning |
| WrittenText.WritesNodes | src/parser/parser.c:202-279 | the nodes of a text that writes a condition are the nodes of the condition |
| Parser.Parser.SkipWhiteSpace | src/parser/parser.c:99-103 | skips white space, but never the last character |
| Parser.Parser.PeekWordMatches | src/parser/parser.c:60-68 | the word lies ahead, its last letter not looked at |
| Parser.Parser.ExpectWord | src/parser/parser.c:78-90 | consumes the letters that match, and accepts when at most the last one is missing |
| Parser.Parser.PeekNextNonAlphanumeric | src/parser/parser.c:70-75 | the first character ahead that is not alphanumeric |
| WrittenText.EndOfQuery | src/parser/parser.c:60-103 | at the end of a query the last character is kept though it is white, and a word whose last letter ends the query is not found |
| WrittenText.Characters | src/parser/utils.c:4-23 | white, digits, letters and the characters of names, byte by byte |
| Parser.Parser.Ident | src/parser/parser.c:123-149 | collects the name, with the part before the last dot as table reference |
| Parser.Parser.StringLiteral | src/parser/parser.c:151-166 | the text up to the closing quote |
| Parser.Parser.Number | src/parser/parser.c:175-192 | the digits ahead |
| Parser.Parser.ParseOperand | src/parser/parser.c:222-238 | on a call, a column, a star or a constant: its nodes, told apart by the characters ahead |
| Parser.Parser.Call | src/parser/parser.c:223-228 | on a function call: the name, and what stands between its parentheses |
| Parser.Parser.AddAlias | src/parser/parser.c:313-319 | the letters of an alias, behind AS and white space |
| Parser.Parser.BoolOp | src/parser/parser.c:282-309 | the comparison operator ahead, if there is one |
| Parser.Parser.Expr | src/parser/parser.c:202-247 | on the text of a condition: the nodes of an operand, a comparison with what follows it, or a group |
| Parser.Parser.GroupExpr | src/parser/parser.c:204-219 | a group becomes one node whose child chain is its contents closed by a CPAREN |
| Parser.Parser.BoolExprList | src/parser/parser.c:261-279 | on the text of a condition, also one that WHERE follows: exactly its nodes, and what follows is left to read |
| Parser.Parser.WhereClause | src/parser/parser.c:362-369 | on a WHERE clause with any white space: the nodes of its condition |
| Parser.Parser.ExprList | src/parser/parser.c:249-259 | on a list of columns, stars and calls, nested or not: the nodes it adds, in order |
| Parser.Parser.Source | src/parser/parser.c:394-425 | on a quoted file or a table, with or without an alias: its node, and what follows is left to read |
| Parser.Parser.JoinPart | src/parser/parser.c:378-391 | on JOIN, a table, ON and a condition: the three nodes, the condition as the child chain of ON |
| Parser.Parser.From | src/parser/parser.c:374-425 | on a table, a query in parentheses, or two tables with JOIN and ON: their nodes |
| Parser.Parser.Query | src/parser/parser.c:322-372 | on the text of a query, nested to any depth, over a table or a join, with aliases and calls and any white space: the tree of its SELECT, FROM and WHERE |
| Where.EvaluateWhere | src/parser/parser.c:202-279 | from the text of a WHERE clause to the answer on a mutable tuple or pair: the meaning of the written condition, or the exit just when a column is unknown or types are mixed; the columns can be read as before |
| Where.CanonicalWrites | src/parser/parser.c:202-279 | every condition of spellable operands can be written as such a text |
| ClauseTexts.AgainstFive | src/operators/filter.c:126-138 | the clauses `a = 5`, `a != 5`, `a < 5`, `a > 5`, `a >= 5` and `a <= 5`, from their text: a tuple is kept exactly when its number stands in that relation to 5 |
| ClauseTexts.ColumnAgainstNumber | src/operators/filter.c:126-138 | the same for any column name and any decimal number |
| ClauseTexts.ColumnAgainstColumn | src/operators/filter.c:126-138 | and for two columns, of numbers or of texts, which are ordered byte by byte |
| ClauseTexts.ConnectedClause | src/parser/parser.c:261-279 | the text of two comparisons with AND or OR between them writes their condition |
| ClauseTexts.ConnectedMeans | src/operators/filter.c:157-179 | AND keeps what both comparisons keep, OR what one of them keeps |
| SelectPlanner.MakeStarProjection | src/planner/operators/project.c:4-18 | names, types and active marks of the child, in its order, without aliases |
| SelectPlanner.MakeProjectOp | src/planner/operators/project.c:20-77 | the star, or just the listed columns active, in the order of the list; an exit on an unknown one |
| SelectPlanner.MakePlan | src/planner/planner.c:134-164 | the recursion over sub-queries gives the plan |
| SelectPlanner.PlanKeepsColumns | src/planner/planner.c:134-164 | at any depth column i of the plan has the name and type of column i of the scan |
| SelectPlanner.ListShows | src/planner/operators/project.c:53-72 | an outer list shows the listed columns, in its order, found among all columns of the base: a sub-query's list hides none |
| SelectPlanner.ListedAt | src/planner/operators/project.c:53-72 | column k of what is shown is the first column with the name and alias that the list has at place k |
| SelectPlanner.StarShows | src/planner/operators/project.c:4-18 | a star over a sub-query shows just the sub-query's columns, and in the sub-query's order exactly when that is ascending |
| SelectPlanner.QueryShows | src/executor/executor.c:60-83 | at any depth, what is printed of a planned query are the columns it asks for: a list in its order, a star in the order of the base |
| Pipeline.GetTuple | src/operators/filter.c:184-235 | each call on a scan, filter or projection, over a table or a join, pops the first of the remaining tuples, which is then at hand to be read; or it is the exit of the program |
| Pipeline.NextPassing | src/operators/filter.c:224-234 | the filter's loop returns the next tuple that passes, casting what it compares, and ends; or stops on the first tuple when types are mixed |
| Pipeline.Execute | src/executor/executor.c:60-83 | pulling to the end prints the shown columns of all remaining tuples |
| Pipeline.ShowTuple | src/squel.c:26-60 | the active columns in the order of the projection, read from the tuple at hand, which reads the same afterwards |
| Bottom.Bottom.GetTuple | src/executor/executor.c:71-79 | a scan, a nested loop or a hash join: each call pops the first row to come, whatever was cast in the row before |
| Bottom.Bottom.Evaluate | src/operators/filter.c:149-182 | a list asked of the tuple at hand answers as on its row; what is at hand and what is to come stay the same |
| Bottom.Bottom.Show | src/squel.c:43-52 | the value of a column, without a cast unless there was one |
| Bottom.Bottom.ReadNumber | src/operators/aggregate.c:84 | the number of a column of the tuple at hand; in the tuple of a scan a text may be lost by it until the next one is read, the rows to come are not |
| Pipeline.PrintNext | src/executor/executor.c:71-79 | one round of the executor prints the shown columns of the next row to come |
| Pipeline.PlannedIffNamesKnown | src/planner/planner.c:134-164 | a query is planned exactly when every name in its lists and conditions is known at its level |
| Pipeline.NestedSelectAnswers | src/planner/planner.c:134-164 | what a nested query emits are the rows of the base that satisfy the conditions of all levels, in the order of the base; the program stops exactly when a level that mixes types is reached by a row |
| Pipeline.RunSelect | src/planner/planner.c:134-164 | planning and running a nested query over a table or a join prints the columns it shows of those rows; it is refused exactly for an unknown name or without a column |
| Query.MakePlanOfTree | src/planner/planner.c:134-164 | the plan of the tree of a query |
| Query.MakeTreeBelow | src/planner/planner.c:134-155 | the part of the plan below the list: the sub-query or the scan, and the filter |
| Query.FirstCallRead | src/planner/planner.c:112-131 | in the tree of a list the first call is found, with its first argument |
| Query.TreePlansQuery | src/planner/planner.c:134-164 | planning the tree of a text is planning the query that the text writes |
| Query.CanonicalWrites | src/parser/parser.c:322-372 | every query and every aggregate of spellable names and conditions can be written, over a table or a join |
| Database.BuildFrom | src/planner/planner.c:96-110 | the nodes of FROM become the scan of the table, or the join that will hand on the rows its condition means, described by the catalog with the aliases as written |
| Database.TablesDescribed | src/planner/operators/scan.c:39-53 | in the description that is handed on, `ref.name` is the first column of that name in the catalog's table that was given the alias `ref`, of the left table before the right one, and is unknown under any other; names, types, marks and order are those of the catalog |
| Database.AliasedFinds | src/planner/operators/scan.c:48 | under its alias, and only so, a column of a table is found by its name |
| Database.InnermostRead | src/planner/planner.c:134-146 | the tables are found in the FROM of the innermost query |
| Database.RunTree | src/planner/planner.c:112-164 | the tree of a statement, planned over its tables and run, prints what the statement asks for |
| Database.AggregatesByName | src/planner/operators/aggregate.c:4-22 | what a statement prints for the names COUNT, MAX, MIN, SUM and AVG: the number of rows, the greatest value exactly when one is not negative, the least exactly when there is one, the sum exactly when it is a long, the quotient for sums from 0 below 2^64; every other name is refused |
| Database.Run | src/planner/planner.c:189-200 | from the text of a statement to what is printed, in mutable tuples all the way: a list of columns or an aggregate, nested or not, over a table or a join; refused exactly when a table, column or function is unknown or no column is listed |
| StatementTexts.SelectAgainst | src/planner/planner.c:189-200 | `SELECT a FROM 'f' WHERE a < 5`, and so for the other operators and numbers: the numbers of the rows in that relation are printed, in the order of the file |
| StatementTexts.SelectAggregate | src/planner/planner.c:189-200 | `SELECT MAX(a) FROM 'f'`, and so for the other functions: what the name says is printed, or the name is refused |
| StatementTexts.SelectOfAlias | src/planner/planner.c:189-200 | `SELECT t.a FROM 'f' AS t` prints the column, and with another reference or none it is refused |
| NestedTexts.SelectNested | src/planner/planner.c:189-200 | `SELECT a FROM (SELECT a, b FROM 'f' WHERE b > 3) WHERE a < 5`: the numbers of the rows that both conditions keep |
| JoinTexts.SelectJoin | src/planner/planner.c:189-200 | `SELECT l.a FROM 'l' AS l JOIN 'r' AS r ON l.a = r.b`: for every left row its number, as often as the right table has it |
| Limits.AsDeclared | src/include/const.h:6-34 | the sizes that appear in preconditions are those of the source |
| Aggregate.SumIff | src/operators/aggregate.c:8-10 | SUM is the sum exactly when the sum is a `long`, partial sums may wrap |
| Aggregate.MaxIff | src/operators/aggregate.c:4-6 | MAX is the greatest value exactly when some value is not negative |
| Aggregate.MinIff | src/operators/aggregate.c:12-14 | MIN is the least value exactly when there is one |
| Aggregate.AvgIff | src/operators/aggregate.c:91-93 | AVG is the truncated quotient exactly when the sum is not negative and below 2^64, or there is one value |
| Aggregate.TowardZero | src/operators/aggregate.c:91-93 | the truncated quotient is the multiple next to the dividend on the side of zero |
| Aggregate.AvgIsFloor | src/operators/aggregate.c:91-93 | for a sum from 0 up to 2^64: AVG * n <= SUM < (AVG + 1) * n |
| Aggregate.Aggregate.GetTuple | src/operators/aggregate.c:16-112 | drains the child, casting the column in its tuples, emits the aggregate of the column of its rows, and only the empty tuple after that; stops where the child stops |
| Aggregate.Aggregate.Drain | src/operators/aggregate.c:70-86 | the loop folds the column over all rows that the child has left, though each reading casts it in the tuple at hand |
| Aggregate.ExecuteAggregate | src/executor/executor.c:60-83 | exactly one number is printed, or the program stops |
| Aggregate.FindByName | src/planner/operators/aggregate.c:67-78 | the first column of that name, whatever its alias |
| Aggregate.RunAggregate | src/planner/planner.c:112-164 | an aggregate over a nested query is that of the column over the rows that satisfy all conditions; refused exactly for an unknown name |
| KeptCasts.SlotReadsTextIff | src/executor/tuple.c:104-115 | the text of a cast column, read again in a kept line, is still its own on all lines of the table exactly when it is the first column and the first that was cast |
| KeptCasts.SlotReadsNumberIff | src/executor/tuple.c:104-115 | a number past the width of a left line, read at the slot it had in an earlier line, is the number at the start of the line on all lines exactly when that slot is the first |
| KeptCasts.NumberLeftFitsIff | src/operators/aggregate.c:84 | over a join, as far as ON goes, a left column can be aggregated as a mere number exactly when ON does not read it as a text there, and its records hold it whole |
| KeptCasts.NumberRightFitsIff | src/operators/aggregate.c:84 | the same for a right column |
| KeptCasts.NumberReadsIff | src/operators/aggregate.c:84 | and as far as WHERE goes, exactly when no level reads it as a text |
| KeptCasts.MixedLeftFitsIff | src/operators/aggregate.c:84 | a left text column of lines that is read as a text as well can be aggregated over a join, as far as ON goes, exactly when it is the first of its table and ON reads no number of that table |
| KeptCasts.MixedRightFitsIff | src/operators/aggregate.c:84 | the same for a right column |
| KeptCasts.StoredLeftFitsIff | src/executor/tuple.c:49-51 | a left column of a stored table exactly when its records hold eight bytes there, since nothing is cast |
| KeptCasts.StoredRightFitsIff | src/executor/tuple.c:49-51 | the same for a right column |
| TdbHeader.HeaderRoundTrip | src/io/tdb.c:5-84 | reading a written header restores record count, names, types and lengths, and `metadataSize` is the number of bytes written |
| TdbHeader.HeaderDetermines | src/io/tdb.c:5-84 | no header is the start of another table's file |
| TdbHeader.HeaderInBytes | src/io/tdb.c:5-28 | the bytes of a header, written out: low bytes first, four of records, eight of columns, and for a long the type 3 |
| TdbHeader.ReadHeaderFits | src/io/tdb.c:59-84 | a header that was read can be written again |
| TdbHeader.WriteColumn | src/io/tdb.c:17-25 | length, name, type and length byte of one column |
| TdbHeader.WriteTdbMetadataToFD | src/io/tdb.c:5-28 | writes the header; what it returns is four less than what it writes |
| TdbHeader.ReadColumnFrom | src/io/tdb.c:72-79 | one column, and what is left to read behind it |
| TdbHeader.ReadTdbMetadataFromFD | src/io/tdb.c:59-84 | reads a header, with the number of its bytes |
| TdbScan.ServedPermutes | src/operators/scanTDB.c:4-68 | every record of the file is served as often as it is there |
| TdbScan.ServedAt | src/operators/scanTDB.c:4-68 | the i-th record served from a chunk of 10000 is the i-th from the end of that chunk |
| TdbScan.ServedInNumbers | src/include/const.h:13 | fewer than 10000 records are served exactly in reverse; of more, record 9999 first, and after 10000 of them the last one of the next 10000 |
| TdbScan.ChunkServed | src/operators/scanTDB.c:14-28 | one filled buffer serves its records from last to first, and a full one is followed by the scan from behind it |
| TdbScan.RecordsOfConcat | src/operators/scanTDB.c:22-66 | records written one behind the other are read back |
| TdbScan.TdbScan.constructor | src/planner/operators/scanTDB.c:33-66 | the scan starts at the first record |
| TdbScan.TdbScan.FillBuffer | src/operators/scanTDB.c:4-30 | filling the buffer keeps the records to come, and leaves a record or the end of the file |
| TdbScan.TdbScan.GetTuple | src/operators/scanTDB.c:32-68 | each call pops the next record; it calls itself at most once |
| TdbInsert.LayoutAgreesIff | src/executor/statements/createTable.c:10-20 | scan and encoder put every column and the end of the record at the same bytes exactly when every string column was declared with 50 bytes |
| TdbInsert.CreatedColumns | src/executor/statements/createTable.c:5-26 | a created table is empty and has the declared names and types; a length of 128 or more is lost |
| TdbInsert.RecordRoundTrip | src/executor/statements/insert.c:16-39 | a record gives back every long, and every string of fewer than 50 characters whatever was copied behind it |
| TdbInsert.EncodeColumn | src/executor/statements/insert.c:23-34 | the bytes of one column, whether or not it had to be cast, with the other columns undisturbed |
| TdbInsert.HandleTupleInsert | src/executor/statements/insert.c:9-41 | the loop over the columns leaves a record of the row in the buffer, or fails on a column that is neither string nor long |
| TdbTable.CheckSchema | src/executor/statements/insert.c:56-73 | the check of INSERT: as many columns as selected, and the types of the active ones in the order of the source |
| TdbTable.WrittenSizeFitsIff | src/executor/statements/insert.c:21-37 | a written record has the size of a table record exactly when every column is active |
| TdbTable.ExecuteInsert | src/executor/statements/insert.c:44-104 | after an INSERT the file is the header and one record for every line, and nothing of what it held; a failed check leaves it alone |
| TdbTable.MakeScanTDBOp | src/planner/operators/scanTDB.c:3-66 | record size, offsets and start of the scan come from the header |
| TdbTable.SelectAll | src/operators/scanTDB.c:32-68 | draining the scan through one reused tuple gives the rows of the file |
| TdbTable.TableRoundTrip | src/executor/statements/insert.c:9-41 | rows encoded behind a header come back from the scan, in the order it serves them, with the columns they had |
| TdbTable.ServedOnce | src/operators/scanTDB.c:4-68 | no record is served twice |
| TdbTable.ServedIndexInNumbers | src/operators/scanTDB.c:14-28 | 10000 at a time, each time from the last one: the position of the record that is served as number k |
| TdbTable.CreateInsertSelect | src/executor/statements/createTable.c:5-26 | CREATE TABLE, INSERT of all columns of a delimited file and SELECT give back each line's columns once |
| RunConditions.ListingOfTableRuns | src/planner/planner.c:96-110 | a statement without an aggregate but COUNT can be run over every table whose rows have its columns |
| RunConditions.ListingRunsIff | src/planner/operators/join.c:60-104 | and over a join, given that the planner handles its condition, exactly when a number past the width of a left line is the first that ON reads there |
| RunConditions.SumOfNumberRuns | src/operators/aggregate.c:84 | so can an aggregate of a number |
| RunConditions.SumOfLeftTextRunsIff | src/operators/aggregate.c:60-84 | an aggregate of a left text column of lines can be run over such a join exactly when neither ON nor any WHERE reads it as a text, or it is the first of its table and they read no number of that table |
| RunConditions.SumOfRightTextRunsIff | src/operators/aggregate.c:60-84 | the same for a right text column |
| Counterexamples.ChainedDuplicateIsLost | src/util/hashmap.c:70-73 | two equal left keys past a bucket head: the hash join emits one pair, the nested loop two |
| Counterexamples.RepeatedNumberIsLost | src/executor/tuple.c:111 | a number in the second column of two equal left lines: the hash join emits one pair, the nested loop two |
| Counterexamples.PastNumberKeepsSlot | src/executor/tuple.c:104-115 | two left lines in one tuple: the number past the width of the second is read where its slot was in the first, and is 0 instead of 3 |
| Counterexamples.PastNumberComesSecond | src/planner/operators/join.c:15-26 | `ON l.b = r.d AND r.c = l.a`, whose relocation is preserved on rows, but reads a number past the left width behind another one; written the other way around it does not |
| Counterexamples.SumMovesText | src/executor/tuple.c:104-115 | a text that reads `5x`, is summed, and then reads `1` |
| Counterexamples.SummedTextIsRead | src/planner/operators/join.c:15-26 | the join whose ON reads that text on both sides |
| Counterexamples.SwappedStringComparison | src/operators/filter.c:86 | a text column below a text constant that the evaluator says is not |
| Counterexamples.FarLongsCompareWrong | src/operators/filter.c:70 | two longs 2^31 apart, compared the wrong way |
| Counterexamples.OrThenAnd | src/operators/filter.c:157-179 | `1 = 1 OR 1 = 1 AND 1 = 2` as a filter list: no tuple passes, though with AND first all do |
| Counterexamples.FirstRightColumnNotShifted | src/planner/operators/join.c:18-23 | the lines `a` and `a;b` and an ON condition on the first right column, which relocation changes |
| Counterexamples.ShortCharMovesColumns | src/executor/statements/createTable.c:16-18 | a CHAR(20) column after which scan and encoder disagree |
| Counterexamples.StarForgetsOrder | src/planner/operators/project.c:6-11 | a star over `SELECT b, a` that shows a first |
| Counterexamples.AggregatesMisled | src/operators/aggregate.c:57-93 | MAX of a negative number, a SUM that wraps, AVG of a negative sum |
| CText.LongRoundTrip | src/executor/statements/insert.c:24-26 | eight bytes written for a long are read as that long |
| CText.CStringPrefix | src/executor/tuple.c:34 | bytes behind the terminator never matter to a string |
| CText.StrcmpDecides | src/operators/filter.c:33-41 | where two texts agree up to a place and differ there, the smaller byte comes first |
| CText.StrcmpPrefix | src/operators/filter.c:33-41 | a text comes before each of its extensions |
| CText.StrcmpOrders | src/operators/filter.c:33-41 | negative, positive and zero are exactly: comes first byte by byte, comes second, is the same |
| CText.AtolReads | src/executor/tuple.c:109 | blanks, a sign and a decimal spelling are read as the number, cut to the nearest long, whatever follows |
| CText.AtolOfNoNumber | src/executor/tuple.c:109 | a text without a digit behind blanks and sign is 0 |
| CText.AtolOfNumeral | src/executor/tuple.c:109 | a text of digits is read in decimal, up to 2^63 - 1 |
| CText.AtolOfNegative | src/executor/tuple.c:109 | and behind a minus down to -2^63 |
| CText.Blanks | src/executor/tuple.c:109 | the blanks are the bytes 9 to 13 and 32 |
| CText.LowByteFirst | src/executor/statements/insert.c:24-26 | the low byte of a long is written first |

## Left out

- `src/squel.c` but for the columns it prints, EXPLAIN, the ODBC adapter and the API: output and thin adapters.
- Pipeline.ShowTuple: gives values, not spellings; a number that was never cast is printed by the code as the text it was read from.
- The catalog of delimited files and the reading of options: the description of a table and the choice of the hash join are parameters.
- `fopen`, `read`, `malloc` and `free`: a file is a sequence of bytes, a read returns all it can, and memory is never released.
- NestedLoopJoin.NestedLoopJoin.constructor: the left input of the nested loop is not empty. On an empty one src/operators/join.c:56-63 pulls the exhausted scan a second time, which releases its buffer a second time (src/operators/scan.c:30-34, src/operators/scanTDB.c:50-54); what the code does then is undefined. The hash join has no such condition.
- JoinQuery.BuildJoin: an ON condition is a list of comparisons without parentheses that relocation preserves; for others `JoinPlanner.RelocatesIff` says that the answer is wrong. One equality with a constant is excluded while hash joins are enabled: the hash join would read a column far behind the last one.
- HashJoinNumbers.IndependentIsJoinIff: for left tuples that disturb each other the run is given, step by step, by `HashJoinSpec.RunFrom`, and `Counterexamples.RepeatedNumberIsLost` is such a run; there is no closed condition for them.
- Parser.Parser.From: a join that has a sub-query as one of its sides is refused; the planner does not handle it.
- Query.MakePlanOfTree: an aggregate in a sub-query is refused; only the outermost list may call a function.
- Pipeline.RunSelect: every WHERE is written with its groups first; behind a plain comparison the planner takes a group for another comparison.
- Database.Run: of a single table every line has at least the columns of the header, and of a joined one as many. A shorter line leaves the offsets of an earlier line behind, at which its missing columns are read.
- Database.Run: over a join an aggregated column is a number, or is not read as text by ON or WHERE, or its cast leaves its text alone; and a number past the width of a left line is the first that ON reads there (`RunConditions` says exactly when). Otherwise pairs are lost, as in `Counterexamples.SumMovesText` and `Counterexamples.PastNumberKeepsSlot`.
- RightRelation.RightRelation.Get: the structs of buffered tuples live in the `TupleBuffer` with the bytes of their blocks; what is cast in them is kept in `Tuple` objects beside it.
- The linked lists of parse nodes and of filter operators are sequences; a node's `child` list is the sequence in it.
- Fixed sizes: queries of 1000 characters, 25 columns of a result and expressions of 100 characters are not bounded in the model; where the code relies on such a bound for memory (100 columns of a tuple, 200 characters of a line, 500 bytes of a tuple, 1024 bytes of a record, names of a table header) it is a precondition.
- The memory of a tuple buffer is not zeroed by the code; it is taken to be, so that a stored right tuple computes its offsets, and a column number past the width of a right tuple reads at offset 0.
- Hashmap.Hashmap.InsertToHashmap: requires fewer than 10000 values for the key and keys under 100 characters, because the source writes the value before it tests its capacity.
- Evaluator.CompareOperands: comparisons of the type INT stop the program in the model; no statement creates such a column.
- Tuples.Tuple.LoadRecord: the block behind a record holds what it held before; a string without a terminator inside its record is read to the end of the record only.
- TdbHeader.ReadTdbMetadataFromFD: the code does not notice a header that ends early, a name that does not end, or an unknown type, and goes on with what it never read; the model answers `None`.
- TdbTable.MakeScanTDBOp: a negative length or an empty record makes the code compute a wrapped or zero size; the model answers `None`.
- TdbTable.ExecuteInsert: the query is a scan of a delimited file; INSERT from a join copies strings from the wrong block and is not supported by the code.
- Aggregate.AvgIff: fewer than 2^63 values.
- Reading a keyword at the very end of a query: the C loop may compare one character beyond the word; the model takes that as a mismatch.
- Tables of total row size above 1000 bytes: the planner of joins refuses them; sizes of descriptions are not modelled.
