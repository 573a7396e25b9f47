# bitstar: a verified model of its store

bitstar keeps events in memory in the manner of a log-structured merge tree. A write goes into a sorted memtable;
a full memtable is frozen into a *roaring index*, whose posting sets and bit-sliced time columns answer filter
queries; indices are merged, level by level, into larger ones; and a reader merges the streams of whatever memtable
and indices it happens to see. This project models that stack in Dafny and proves what each layer promises to the
one above it.

| file | layer |
|---|---|
| `Words`, `Partings`, `Bitmaps`, `Planes` | 64-bit words as integers, where two numbers part, bitmaps as finite sets with an order of iteration, columns of bit planes |
| `Compare`, `Ranges`, `Bsi` | the bit-sliced index: signed comparison bit by bit, when a range is an interval, auto-sizing, sums, ripple-carry addition, counting in batches |
| `Keys` | event keys and their orders |
| `Filtering`, `Meanings`, `Matching` | the filter tree, its meaning and the laws of it, and the evaluator that runs over one memtable item |
| `Grammar`, `GrammarProofs`, `Parser`, `Readings` | the filter grammar as a relation, its reading by recursive descent, the parser itself, and given inputs with their trees, meanings and errors |
| `Index`, `Histories` | the roaring index and its evaluator; queries over indices built in any way |
| `Merging`, `MergeOrder`, `Interleaving` | merging two indices; which key orders survive it; where it puts the keys of lists in any order |
| `MemTables`, `IndexIterators` | the two snapshot iterators |
| `Grouping`, `MergedVersions` | of which indices the iterator shows the newest versions, and which merges keep it so |
| `MergeIterators`, `MergeCalls`, `Listing` | the k-way merge, what one call of it does to any streams, and the page that is collected from it |
| `Flushing`, `Updates` | what the writer keeps of a memtable; a memtable against the index that replaces it; the tombstones of updates and deletions |
| `Snapshots`, `FlushedStreams`, `Cursors` | what a listing holds: memtable, levels and pending indices, merged in that order; flushing as a request sees it; the iterators as the streams that the merge is given |
| `Levels`, `Lifecycle`, `MergedOnce`, `Orders`, `Readers`, `Observations` | compaction levels; writer, flusher and reader as interleaved steps; how often and in which order indices are merged; when tables are retired, and what exactly a reader sees |

How the proofs are built:

* Code that changes things in place is a class or a loop here too. A method's contract ties the new state to a
  mathematical reading of it: the planes of a BSI stand for a map (`BSI.Values`), an index for the list of its
  entries (`RoaringIndex.entries`, tied to every bitmap by `Valid`), an iterator for the rows it still has to emit
  (`Remaining`), the lexer for the tokens that are left, the merge for what its streams still offer.
* What the source promises is then proved of those readings, for all inputs: `Sat` is the meaning of a filter,
  `QueryRows` that of a query, `Newest` and `NewestIn` that of a snapshot, `Derives...` that of the grammar.
* The specifications themselves are pinned down by laws that do not mention them: instants for `Unix`, integers for
  `RANGE`, literal limits for the levels, literal tokens for the grammar.
* Where the code does less than it seems to promise, a lemma gives an input or a run that shows it, and another
  says for exactly which inputs or runs the promise holds: `SelectsExactly`, `RangeExact`, `OrderIff`,
  `ShowsNewestIff`, `MergedShowsNewestIff`, `OnceIffFirstNewest`, `TransparentIff`, `SameStreamsIff`,
  `PutKeepsFlushable`, `UpdateKeepsEvent`, `DeletedStillShown`, `MergedOnceIff` and `ReaderSeesAllIff`.
* Goroutines of an executor finish in an arbitrary order, chosen by `:|`; the atomic stores and loads of the storage
  workers are the steps of a state machine, and its theorems speak about every run.

Postings and the bitmaps that the evaluators combine are heap objects. The evaluator methods have no `modifies`
clause and return new bitmaps, so they leave every stored posting as it was although they accumulate with in-place
`And`, `Or` and `AndNot`.

## Model

| member | source | states |
|---|---|---|
| Words.SignedRoundTrip | bsi/bsi.go:94-107 | Storing a signed value as a 64-bit word and reading it back is the identity. |
| Words.LenIsLeast | bsi/bsi.go:96-99 | The bit length used for sizing is the least number of bits that can hold the value. |
| Bitmaps.AscendingMember | bsi/bsi.go:168-178 | Iterating a bitmap yields exactly its rows. |
| Bitmaps.AscendingOrdered | bsi/bsi.go:168-178 | It yields them in strictly rising order. |
| Bitmaps.SplitBatches | bsi/bsi.go:156-184 | The batches for `n` workers are consecutive stretches whose concatenation is the found set; all but the last have `card / n` rows. |
| Bitmaps.Deal | bsi/bsi.go:168-184 | The dealing loop: `n - 1` batches of `x` rows and a last one with the remainder, nothing lost or repeated. |
| Planes.ColValBound | bsi/bsi.go:140-152 | A column over `n` planes holds a number below `2^n`. |
| Planes.ColValBit | bsi/bsi.go:142-150 | Bit `j` of a column's number is membership in plane `j`. |
| Planes.ColValFromBits | bsi/bsi.go:140-152 | Planes that agree with the bits of a number hold its low bits. |
| Planes.ColValUpdate | bsi/bsi.go:104-111 | Replacing plane `i` changes a column's number by the weight of that bit. |
| Compare.ScanBits | bsi/bsi.go:329-416 | The loop over the magnitude bits, with its early exits, decides equality and order of the two magnitudes, adjusted for the signs; for `RANGE` it decides, on all signs, by the three magnitudes and by whether the value parts from the start or from the end at a higher bit. |
| Compare.VerdictIsOrder | bsi/bsi.go:418-443 | Flags, signs and the negated constant together are the stated comparison of the signed values, for the one-sided operations. |
| Compare.VerdictIsRange | bsi/bsi.go:444-446 | And for `RANGE` what is stated of the value and the two ends. |
| Compare.CompareColumn | bsi/bsi.go:295-449 | For every operation, column, constants and width up to 64 the verdict is determined: `LE` and `GE` are exact signed comparison, `LT`, `GT`, `EQ` are except for clashes, also when the constant needs more bits than there are planes; `RANGE` is `RangeAccepts`. |
| Compare.ClashIsDivisibility | bsi/bsi.go:313-327 | A clash is a pair of different signs whose sum is divisible by `2^63`. |
| Partings.PartingIsLeast | bsi/bsi.go:329-416 | Two numbers part at the least shift that makes them equal, which is where the loop first sees a difference. |
| Partings.PartingTriangle | bsi/bsi.go:329-416 | Of three numbers the two widest partings are equal. |
| Ranges.RangeOnIntervals | bsi/bsi.go:307-446 | With `0 <= start <= end`, on every value that is not negative and every width, `RANGE` is membership in the interval. |
| Ranges.EmptyVerdict | bsi/bsi.go:307-446 | With a negative end behind a start that is not, `RANGE` finds exactly the values that clash with one of the two and lie on the far side of the other. |
| Ranges.NegativeVerdict | bsi/bsi.go:307-446 | Between two negative ends, which values that are not negative are found. |
| Ranges.MixedVerdict | bsi/bsi.go:307-446 | From a negative start to an end that is not, all values inside are found, and which ones outside. |
| Ranges.NegativeInterval | bsi/bsi.go:307-446 | Between two negative ends, exactly the negative values of the interval are found. |
| Ranges.PositiveVerdict | bsi/bsi.go:307-446 | Between two ends that are not negative, no negative value should be found; which ones are. |
| Ranges.RangeExact | bsi/bsi.go:307-446 | For every number of planes up to 64 and every two ends: `RANGE` selects the interval, whatever the columns hold, if and only if a condition on these three holds. |
| Bsi.SelectsExactly | bsi/bsi.go:285-449 | What a one-sided comparison selects from a set of columns is the set one would expect: always for `LE` and `GE`, and for `LT`, `GT`, `EQ` exactly when no column of the set clashes. |
| Bsi.RangeSelects | bsi/bsi.go:285-449 | `RANGE` selects the interval from any columns under the exact condition, from columns that are not negative whenever its ends are neither and in order, and from negative columns whenever its ends are negative. |
| Bsi.RangeStrays | bsi/bsi.go:285-449 | Between ends that are not negative, exactly which negative columns `RANGE` selects, where it should select none. |
| Bsi.StoreAndCompare | bsi/bsi.go:93-114 | Two values stored side by side and compared: each is found exactly when its own comparison accepts it. |
| Bsi.SignsClash | bsi/bsi.go:307-446 | Through the code, -5 is not found below 5, nor 5 above -5, and 5 is found equal to -5. |
| Bsi.RangeTooWide | bsi/bsi.go:307-446 | Through the code, beside a negative column 6 is found between -8 and 5. |
| Bsi.RangeOfNegatives | bsi/bsi.go:307-446 | Through the code, -2 is found between 3 and 5, and -55 and -45 between themselves. |
| Bsi.FullWord | bsi/bsi.go:93-114 | A value that fits its planes is read back unchanged, sign included. |
| Bsi.BSI.constructor | bsi/bsi.go:39-49 | A new BSI has exactly as many planes as the bit length of the wider bound, which is enough for every value between zero and either bound, and no columns. |
| Bsi.BSI.Default | bsi/bsi.go:52-54 | The default BSI is auto-sized and starts without planes. |
| Bsi.BSI.Grow | bsi/bsi.go:96-103 | Auto-sizing appends empty planes up to the bit length of the value and changes no column. |
| Bsi.BSI.SetValue | bsi/bsi.go:93-114 | Writes one column and no other, whatever it held before (wider, narrower or negative); with enough width the BSI is the old map with that column updated. Columns are taken modulo `2^32`. |
| Bsi.BSI.SetMany | bsi/bsi.go:117-137 | Writes one value to every column of a set; with enough width the BSI is the old map overridden by the constant map. |
| Bsi.BSI.GetValue | bsi/bsi.go:140-152 | Returns the map's value and whether the column exists. |
| Bsi.BSI.ClearValues | bsi/bsi.go:784-800 | Removes exactly the columns of the set from the map, and their bits from every plane. |
| Bsi.BSI.NewBSIRetainSet | bsi/bsi.go:804-814 | A new BSI with the same bounds that is the map restricted to the set. |
| Bsi.BSI.CompareBatch | bsi/bsi.go:295-449 | One worker's result is the selection from its own batch, for every operation. |
| Bsi.BSI.CompareValue | bsi/bsi.go:285-293 | For every operation and parallelism, and workers finishing in any order, the result is the selection from the whole found set. |
| Bsi.BSI.Sum | bsi/bsi.go:574-589 | The count is the found set's size and the sum is that of the found columns' values, wrapped to 64 bits, in any order of the concurrent additions. |
| Bsi.PlaneSumIsValueSum | bsi/bsi.go:574-589 | Counting the found columns plane by plane and weighting the counts sums their signed values, up to multiples of `2^64`. |
| Bsi.AtomicAdd | bsi/bsi.go:582-584 | One wrapping addition differs from the exact sum by a multiple of `2^64`. |
| Bsi.BSI.AddDigit | bsi/bsi.go:830-843 | Adds `2^i` to exactly the columns of the set, rippling carries upwards; terminates although it may append planes. |
| Bsi.BSI.Add | bsi/bsi.go:822-828 | Every column's unbounded number becomes the sum of the two, for a BSI distinct from the receiver. |
| Bsi.BSI.AddOwnDigit | bsi/bsi.go:822-843 | One turn of adding a BSI to itself: the plane is also the set that is added, so it is emptied, and every column in it moves one place up. |
| Bsi.BSI.AddToSelf | bsi/bsi.go:822-843 | Why the two must be distinct: added to itself, a BSI comes to the end of the loop if and only if no column has a value; otherwise there is a next plane after any number of turns. |
| Bsi.BSI.Increment | bsi/bsi.go:878-884 | Adds 1 to exactly the found columns, which exist from then on. |
| Bsi.BSI.Count | bsi/bsi.go:862-871 | Counts one more occurrence of one value. |
| Bsi.BSI.TransposeBatch | bsi/bsi.go:856-875 | A worker's partial result counts the values of its batch. |
| Bsi.BSI.TransposeWithCounts | bsi/bsi.go:199-245 | For every parallelism and any order of partial results, column `k` of the result is the number of found columns whose value is congruent to `k` modulo `2^32`, and exists when that is positive. |
| Bsi.KeyIsResidue | bsi/bsi.go:864-871 | A value is filed under the row to which it is congruent modulo `2^32`. |
| Bsi.TallyIsCard | bsi/bsi.go:214-243 | Counting along a bitmap's iteration gives the cardinality of an intersection. |
| Bsi.TakeBatch | bsi/bsi.go:214-243 | Finishing a batch moves exactly its rows from what is left to what is done. |
| Bsi.CountAdd | bsi/bsi.go:232-243 | Adding two partial counts counts both batches. |
| Keys.StringOrder | compare.go:30-47 | String comparison is antisymmetric, and zero only for equal strings. |
| Keys.StringDirection | compare.go:30-47 | The smaller string ends first, or has the smaller character where the two first differ. |
| Keys.StringTransitive | compare.go:30-47 | String comparison is transitive. |
| Keys.UnixSeconds | index.go:425-426 | `Unix` is the whole second that an instant is in, also before the epoch. |
| Keys.KeyOrder | compare.go:30-47 | `compareEventKey` is antisymmetric, three-valued, and zero exactly for the same start time and id. |
| Keys.KeyDirection | compare.go:30-47 | The later event is the greater, and at one time the one with the greater id. |
| Keys.KeyTransitive | compare.go:30-47 | `compareEventKey` is transitive, strictly when one of its two steps is. |
| Keys.TimestampOrder | compare.go:49-75 | `compareEventKeyTimestamp` puts later events first and newer versions of one event first, and refines the other order. |
| Keys.TimestampTransitive | compare.go:49-75 | It is transitive, strictly when one of its two steps is. |
| Keys.MemTableOrder | memtable.go:44-75 | The memtable's comparator, against which the list runs, gives the same order as the index's. |
| Keys.VersionsContiguous | compare.go:49-75 | In a sorted list with one start time per id the versions of an id are neighbours, newest first. |
| Keys.SortedGrouped | compare.go:49-75 | So the versions are grouped in a sorted list with one start time per id. |
| Filtering.ShapedConstrains | index.go:79-90 | Every part of a parser-shaped tree constrains the result, so the index evaluator never returns an empty answer for "no constraint". |
| Meanings.TagMeaning | index.go:163-180 | A restriction of the tags to a quoted value is well formed and holds of the events with that tag. |
| Meanings.AnnotationMeaning | index.go:181-199 | One of the annotations holds of the events with that value under the first field. |
| Meanings.RefusedFor | index.go:163-199 | Exactly which restrictions of a field to a value are refused, and why. |
| Meanings.RefusedWithout | index.go:163-199 | And those that have no value to compare with. |
| Meanings.SequencesMeaning | index.go:79-90 | Sequences are a conjunction. |
| Meanings.FactorsMeaning | index.go:93-110 | So are factors. |
| Meanings.TermsMeaning | index.go:112-129 | Terms are alternatives. |
| Meanings.TermMeaning | index.go:131-161 | A negation is the opposite; a restriction or an expression in parentheses stands for itself. |
| Meanings.FirstOfSequences | index.go:79-90 | Of concatenated lists, the first that is refused decides the error. |
| Matching.NewMemTableItem | memtable.go:19-36 | A new item carries the event, timestamp and flag, and its Bloom filters have no false negatives. |
| Matching.RestrictionMatch | match_memtable_item.go:89-135 | On one restriction the item evaluator gives the restriction's meaning, or fails with the same reason as the index evaluator. |
| Matching.MatchIsSat | match_memtable_item.go:11-135 | On a parser-shaped filter the item evaluator computes the filter's meaning whenever it succeeds, and it succeeds when no restriction is ill-formed; the Bloom filters never decide against it. |
| Matching.SequencesStop | match_memtable_item.go:11-26 | It goes on with the rest of the sequences exactly when the first ones hold; otherwise their result, or error, is final. |
| Matching.FactorsStop | match_memtable_item.go:28-42 | The same for factors. |
| Matching.TermsStop | match_memtable_item.go:44-58 | It goes on with the rest of the terms exactly when the first ones do not hold. |
| Matching.MatchMayHideErrors | match_memtable_item.go:28-58 | On an ill-formed filter it can succeed where the index evaluator fails, because it stops early. |
| GrammarProofs.SoundFields | filtering/filtering.go:542-564 | Dotted fields that are read derive the tokens taken. |
| GrammarProofs.CompleteFields | filtering/filtering.go:542-564 | The tokens of dotted fields, not followed by a dot, are read as these fields and no more is taken. |
| GrammarProofs.CompleteComparable | filtering/filtering.go:525-566 | The same for a value and its fields. |
| GrammarProofs.SoundComparable | filtering/filtering.go:525-566 | A comparable that is read derives the tokens taken, fields included. |
| GrammarProofs.SoundRestriction | filtering/filtering.go:500-523 | So does a restriction, with or without an argument. |
| GrammarProofs.SoundComposite | filtering/filtering.go:591-607 | So does a parenthesised expression. |
| GrammarProofs.SoundTerm | filtering/filtering.go:464-498 | So does a term, negated or not. |
| GrammarProofs.SoundTerms | filtering/filtering.go:443-460 | So do alternatives joined by `OR`, however many follow the first. |
| GrammarProofs.SoundFactors | filtering/filtering.go:416-432 | So do factors side by side. |
| GrammarProofs.SoundExpression | filtering/filtering.go:386-414 | So does an expression of sequences joined by `AND`. |
| GrammarProofs.CompleteRestriction | filtering/filtering.go:500-523 | The tokens of a restriction, followed by anything that cannot continue it, are read as that restriction and no more is taken. |
| GrammarProofs.CompleteTerm | filtering/filtering.go:464-498 | The same for a term. |
| GrammarProofs.CompleteFactor | filtering/filtering.go:434-462 | The same for a factor, when what follows is not `OR`. |
| GrammarProofs.CompleteSequence | filtering/filtering.go:416-432 | The same for a sequence, when what follows cannot start a term. |
| GrammarProofs.CompleteSequences | filtering/filtering.go:386-414 | The same for an expression, when what follows is not `AND` either. |
| GrammarProofs.ParsesExactlyTheGrammar | filtering/filtering.go:371-384 | For every token sequence and tree: the parser returns the tree if and only if the grammar derives it from the tokens. |
| GrammarProofs.OneTree | filtering/filtering.go:371-625 | No token sequence has two trees. |
| GrammarProofs.ParsedIsShaped | filtering/filtering.go:386-462 | A parsed tree has no empty expression, sequence or factor and no missing part; the filter is empty only for no tokens. |
| Parser.FilterLexer.Peek | filtering/filtering.go:40-49 | Shows the next token, or the end, and takes nothing. |
| Parser.FilterLexer.Next | filtering/filtering.go:51-105 | Takes the token that `Peek` shows; at the end it goes on returning the end. |
| Parser.FilterParser.Expect | filtering/filtering.go:348-358 | Takes a token of the wanted kind, or fails and takes nothing. |
| Parser.FilterParser.Accept | filtering/filtering.go:360-369 | Takes the next token exactly when it has the wanted kind. |
| Parser.FilterParser.ReadFilter | filtering/filtering.go:371-384 | Returns the tree, or the error, that the tokens left determine, and leaves no token on success. |
| Parser.FilterParser.ReadExpression | filtering/filtering.go:386-414 | The loop reads what the recursive reading of the tokens says and leaves the same rest. |
| Parser.FilterParser.ReadSequence | filtering/filtering.go:416-432 | The same, terminating because every factor takes a token. |
| Parser.FilterParser.ReadFactor | filtering/filtering.go:434-462 | The same for terms joined by `OR`. |
| Parser.FilterParser.ReadTerm | filtering/filtering.go:464-480 | The same for a term; a negation without a term is an error. |
| Parser.FilterParser.ReadSimple | filtering/filtering.go:482-498 | The same for a restriction or a parenthesised expression. |
| Parser.FilterParser.ReadRestriction | filtering/filtering.go:500-523 | The same for a restriction; a comparator without an argument is an error. |
| Parser.FilterParser.ReadComparable | filtering/filtering.go:525-534 | The same for a comparable. |
| Parser.FilterParser.ReadMember | filtering/filtering.go:536-566 | The same for a value and its dotted fields. |
| Parser.FilterParser.ReadValue | filtering/filtering.go:568-589 | The same for a quoted or a plain value; bad quoting is an error. |
| Parser.FilterParser.ReadComposite | filtering/filtering.go:591-607 | The same in parentheses; an empty or unclosed pair is an error. |
| Parser.FilterParser.ReadArg | filtering/filtering.go:609-625 | The same for an argument. |
| Parser.ParseFilterTokens | filtering/filtering.go:336-338 | Succeeds exactly on the token sequences of the grammar, with the one tree that derives them, which has the shape the evaluators rely on. |
| Readings.SampleIsRead | filtering/filtering.go:371-607 | The tree of a token sequence with alternatives, a negation, a dotted field, factors side by side, `AND` and parentheses. |
| Readings.SampleMeans | filtering/filtering.go:371-607 | And what it asks of an event: `OR` binds more tightly than factors side by side, and these more tightly than `AND`. |
| Readings.AfterAnd | filtering/filtering.go:386-414 | `AND` without a sequence after it is an error. |
| Readings.AfterOr | filtering/filtering.go:434-462 | So is `OR` without a term, |
| Readings.AfterNegation | filtering/filtering.go:464-481 | a negation of nothing, |
| Readings.AfterComparator | filtering/filtering.go:500-523 | a comparator without an argument, |
| Readings.AfterDot | filtering/filtering.go:536-566 | a dot without a value, |
| Readings.Unopened | filtering/filtering.go:591-607 | a parenthesis without an expression, |
| Readings.Unclosed | filtering/filtering.go:591-607 | or without its partner, |
| Readings.BadString | filtering/filtering.go:568-589 | a string that cannot be unquoted, |
| Readings.AfterExpression | filtering/filtering.go:371-384 | and anything behind the expression. |
| Index.AddPosting | index.go:426-441 | Adds a row to one posting, creating it when missing, and changes no other posting. |
| Index.RoaringIndex.constructor | index.go:49-58 | A new index is valid and stands for no entries. |
| Index.RoaringIndex.IndexEvent | index.go:412-443 | Appends one entry and one key, with the event's resource, start time and id, the timestamp and the flag; every column and posting stays exact. |
| Index.RoaringIndex.AppendRow | index.go:412-425 | The new row's key and times, all earlier rows kept. |
| Index.RoaringIndex.AppendPostings | index.go:426-443 | The new row's postings, all earlier ones kept exact. |
| Index.RoaringIndex.Query | index.go:60-72 | Returns exactly the rows whose event overlaps the time range, in whole seconds, and satisfies the filter, all rows for an empty filter; or the filter's first error. |
| Index.RoaringIndex.InTime | index.go:60-72 | The two comparisons of the time columns leave the rows of the query's meaning; no bitmap means all rows. |
| Index.QueryWindow | index.go:66-71 | In instants: a row that is found starts less than a second after the window and ends less than a second before it, and a matching row that overlaps the window is found. |
| Index.RoaringIndex.EvalFilter | index.go:74-91 | The rows that satisfy the filter, as a new bitmap; none when nothing constrains. |
| Index.RoaringIndex.EvalExpression | index.go:79-90 | The conjunction of the sequences that constrain, stopping at the first error. |
| Index.RoaringIndex.EvalSequence | index.go:93-110 | The conjunction of the factors that constrain. |
| Index.RoaringIndex.EvalFactor | index.go:112-129 | The disjunction of the terms that constrain. |
| Index.RoaringIndex.EvalTerm | index.go:131-148 | Negation is the complement within all rows. |
| Index.RoaringIndex.EvalSimple | index.go:150-161 | A composite goes before a restriction. |
| Index.RoaringIndex.EvalRestriction | index.go:163-199 | The rows with the tag or annotation asked for, or the reason why nothing can be asked. |
| Index.SelectBy | index.go:66-71 | On the time columns the two comparisons keep exactly the values on the right side. |
| Index.Overlapping | index.go:60-72 | Both comparisons, one after the other, leave the rows of the query's meaning. |
| Histories.Build | index.go:230-347 | Row by row or by any tree of merges: the index is valid and holds the entries of the whole history, each as often as it was added. |
| Histories.BuildAndQuery | index.go:60-443 | For every history, filter and time range the query returns exactly the matching rows or the filter's first error. |
| Merging.Interleave | index.go:258-300 | The merged keys, and two rising, disjoint and covering tables that say where each key of a source went. |
| Merging.FillRemaps | index.go:261-300 | The two-pointer loops produce the merged keys and fill both tables; at every point each table is rising, they never meet, and they cover all rows so far. |
| Merging.RenumberingNext | index.go:271-300 | Appending the next row number keeps that. |
| Merging.MoveBitmap | index.go:349-373 | The destination gains exactly the renumbered rows, on the short and on the buffered path. |
| Merging.MovePostings | index.go:314-340 | Every posting of a source is carried over into the posting of the same key, and no other is changed. |
| Merging.MoveBoth | index.go:314-340 | After both sources each posting is the union of the two renumbered ones, in bitmaps of its own. |
| Merging.MergeBSI | index.go:375-410 | Every column keeps its number under the renumbering, over sources of different width; the existence bitmap is all rows. |
| Merging.MergedKeyed | index.go:306-312 | The merged key map finds, for every key, a row that has it. |
| Merging.MergeTwoIndices | index.go:242-347 | A missing index merges to the other; otherwise the result is new and valid, its rows are those of both under two rising, disjoint and covering renumberings, and the entries are the union with multiplicity. |
| Merging.ImageIs | index.go:242-347 | Rows with a property, on both sides, become exactly the rows with that property. |
| Merging.QueryMerged | index.go:60-347 | Querying commutes with merging, for every filter, negation included, and every time range. |
| MergeOrder.MergedRising | index.go:266-300 | The merge keeps lists that run from earlier to later start times. |
| MergeOrder.MergedNeedNotFall | index_test.go:209-213 | Index keys run the other way, and two sorted indices need not merge to a sorted one: the input. |
| MergeOrder.OrderIff | index.go:266-300 | Two sorted key lists merge to a sorted one if and only if the two stay at one start time until one is used up and no event has a version at least as new in the second list. |
| MergeOrder.StepRuns | index.go:266-300 | Taking a key keeps the first half of that condition. |
| MergeOrder.NewerSplit | index.go:266-300 | And the second half. |
| MergeOrder.PairMerged | index.go:266-300 | Of two keys the earlier comes first, at one time the one with the greater id, and of one id the first list's. |
| Interleaving.PlacedBeforeIff | index.go:266-300 | For two key lists in any order: the merge puts `a[i]` before `b[j]` if and only if `b` has, up to `b[j]`, a key that every key of `a` up to `a[i]` is taken before. |
| Interleaving.SomeKey | index.go:266-300 | Every place of the merged list is that of a key of one of the two lists. |
| Interleaving.PlacesRise | index.go:266-300 | The keys of each list keep their order. |
| MemTables.SetItemSorted | memtable.go:44-85 | Putting an item keeps the list strictly sorted. |
| MemTables.SetItemContents | memtable.go:81-85 | It replaces the item of an equal version or adds the version, and touches nothing else. |
| MemTables.MemTable.PutItem | memtable.go:81-85 | The memtable stays valid and is the list with the item set. |
| MemTables.VisibleIsNewest | iterator_memtable.go:43-62 | Looking at the previous element only is enough: with one start time per id a row shows exactly when it is the newest version not newer than the snapshot and it matches, never an older one in its place. |
| MemTables.ShowsWhen | iterator_memtable.go:43-62 | In terms of keys alone: a row shows exactly when it matches and is the newest version of its id that the snapshot includes. |
| MemTables.VisibleRowsMember | iterator_memtable.go:29-74 | The rows listed from a position on are exactly those that show. |
| MemTables.VisibleRowsOrdered | iterator_memtable.go:29-74 | They come in list order. |
| MemTables.MemTableIterator.constructor | iterator_memtable.go:17-23 | A new iterator has all visible rows ahead of it. |
| MemTables.MemTableIterator.Next | iterator_memtable.go:29-74 | Moves to the next visible row, leaves the later ones, and ends when there is none. |
| MemTables.MemTableIterator.Seek | iterator_memtable.go:82-94 | Goes on with the visible rows from the first key that does not come before the given one. |
| MemTables.NewerUnseen | iterator_memtable.go:43-62 | Putting a version newer than the snapshot neither shows it nor changes whether any other row shows. |
| MemTables.NewerLeavesRest | iterator_memtable.go:29-74 | So it leaves what remains to be shown from any position on as it was: the same nodes, wherever they are now. |
| IndexIterators.Search | iterator_index.go:68-70 | Binary search ends between a key before the given one and a key that is not; in sorted keys that is the boundary between all of them. |
| IndexIterators.IndexIterator.constructor | iterator_index.go:25-34 | A new iterator has the emissions of its whole posting ahead of it. |
| IndexIterators.IndexIterator.Advance | iterator_index.go:84-103 | Looks up the next emission without losing or repeating one. |
| IndexIterators.IndexIterator.Next | iterator_index.go:40-57 | Emits the looked-up row and looks up the next. |
| IndexIterators.IndexIterator.Seek | iterator_index.go:63-82 | Starts again with the rows of the posting from the boundary that the search found, in sorted keys from the first key not before the given one: what is to come rises, is visible and holds one of every id that has such a row; where versions are grouped, exactly the newest. |
| IndexIterators.ShownIsNewest | iterator_index.go:63-103 | The same in terms of rows and timestamps alone. |
| IndexIterators.EmittedMember | iterator_index.go:84-103 | Where the versions of every id are neighbours, newest first, remembering only the last id emits exactly the first visible row of each id. |
| IndexIterators.EmittedIsNewest | iterator_index.go:40-103 | There a row is emitted exactly when it is the newest visible version, within the posting, of its id, whatever the order of the ids. |
| IndexIterators.EmittedVisible | iterator_index.go:84-103 | For keys in any order, what is emitted is in the posting and visible. |
| IndexIterators.EmittedCovers | iterator_index.go:84-103 | For keys in any order, of every visible row of the posting a row of its id is emitted. |
| IndexIterators.EmittedConcat | iterator_index.go:84-103 | For keys in any order: lists of rows are emitted one after the other, and all that the second needs to know of the first is the id of its last visible row. |
| IndexIterators.EmittedOne | iterator_index.go:84-103 | A row is emitted when it is visible and its id is not that one. |
| IndexIterators.EmittedOrdered | iterator_index.go:40-103 | Emissions keep the row order. |
| Grouping.ShowsNewestIff | iterator_index.go:84-103 | For keys in any order: the iterator emits exactly the newest visible versions, for every posting and snapshot, if and only if the versions of every id are neighbours, newest first. |
| Grouping.LateNewest | iterator_index.go:91-97 | Otherwise: a newer version behind an older one is not emitted beside it. |
| Grouping.ShownAgain | iterator_index.go:91-97 | Or: an older version is emitted again behind a row of another event. |
| MergedVersions.MergedGroupedIff | index.go:266-300 | Two lists in any order that keep versions together merge to one that does if and only if, wherever both have versions of one id, the newer ones are put before the older ones and nothing else between them. |
| MergedVersions.MergedShowsNewestIff | index.go:266-300 | So a merged index shows the newest versions, for every posting and snapshot, if and only if that holds of the two indices, given that each shows them. |
| MergedVersions.DisjointGrouped | index.go:266-300 | Indices without common ids always do. |
| MergedVersions.MergeHidesUpdate | index.go:266-300 | Indices with an event and its update do not: merged, the older version is emitted and the update never is. |
| MergeIterators.MergeIterator.constructor | iterator_merge.go:10-15 | A new merge has everything its streams offer ahead of it. |
| MergeIterators.MergeIterator.Next | iterator_merge.go:21-76 | Emits and consumes exactly what one call of the specified merge does. |
| MergeIterators.MergeIterator.Pass | iterator_merge.go:34-64 | The loop over the streams ends with the head and the drops of the specified pass. |
| MergeIterators.MergeIterator.Start | iterator_merge.go:26-31 | The first call brings every stream to its first key. |
| MergeIterators.PassHolds | iterator_merge.go:34-64 | A pass finds the greatest head and of its event the newest version; a stream loses at most its head, and only to a version at least as new in an earlier stream. |
| MergeIterators.DisplacedHolds | iterator_merge.go:57-63 | A head that was displaced by a newer version of its event is not dropped. |
| MergeIterators.MergeShrinks | iterator_merge.go:66-75 | Every emission consumes a key, so the merge ends. |
| MergeIterators.MergeSound | iterator_merge.go:21-76 | Every emission was offered by some stream. |
| MergeIterators.KeptOrDominated | iterator_merge.go:34-64 | Whatever the order of the streams, a version that a call takes away is emitted or given up for a version at least as new, emitted or kept in an earlier stream. |
| MergeIterators.MergeComplete | iterator_merge.go:21-76 | Whatever the order of the streams, of every version that a stream offers, a version of its event that is at least as new is emitted. |
| MergeIterators.MergeOrdered | iterator_merge.go:21-76 | Emissions never increase. |
| MergeIterators.FirstIsNewest | iterator_merge.go:21-76 | The first emission of an event carries its greatest timestamp over all streams. |
| MergeIterators.FirstHolderEmitted | iterator_merge.go:21-76 | The version of the first stream that offers an event is always emitted. |
| MergeIterators.OnceIffFirstNewest | iterator_merge.go:57-63 | Every event is emitted once, in strictly descending order, if and only if of every event the first stream that offers it offers a newest version. |
| MergeCalls.CallIs | iterator_merge.go:21-76 | For any streams, one call emits the newest version of the greatest event at a head, from the first stream that has it, and moves on that stream and exactly those whose head is the greatest event up to it and no newer than an earlier one. |
| Listing.Collect | storage.go:380-388 | The keys are the first of the emissions that are not tombstones, at most `pageSize`, and all of them when they are fewer. |
| Listing.Page | storage.go:379-400 | A page holds the first keys, and there is a key for the next page exactly when there are more. |
| Listing.LiveConcat | storage.go:382-388 | Emissions are passed on one by one and in order, |
| Listing.LiveOne | storage.go:382-388 | unless they are tombstones. |
| Listing.ListedIff | storage.go:380-388 | Under the condition above, the listed keys are exactly the newest versions that are not tombstones; a deleted event is not listed, whatever older versions there are. |
| Flushing.PutKeepsFlushable | memtable.go:44-85 | Putting an event's item keeps the memtable flushable if and only if it moves no start time and takes over no version of another resource. |
| Flushing.WriteEvent | storage.go:265-271 | The same for the item and key that the writer makes of an event. |
| Updates.MicrosBelow | storage.go:560 | The start time of a tombstone is the old one, rounded down to whole microseconds. |
| Updates.TombstoneEvent | storage.go:618 | A tombstone, whose start time is rebuilt from whole microseconds, is of the deleted event if and only if the start time is a whole number of them. |
| Updates.UpdateKeepsEvent | storage.go:540-569 | An update that names the start time writes the new version and the tombstone of the old one: the new version stays if and only if the tombstone has another start time; else what is left is a key that is not deleted, without an event. |
| Updates.UpdateInPlace | storage.go:540-569 | So an update that keeps the start time keeps its event if and only if that is not a whole number of microseconds. |
| Updates.DeletedStillShown | storage.go:615-638 | After the tombstone of a deletion is put, the memtable still shows the event if and only if its start time is not a whole number of microseconds. |
| Flushing.FromMemTable | index.go:230-240 | The index of a tombstone-free memtable is valid and holds in row `i` the event, timestamp and flag of node `i`. |
| Flushing.EvaluatorsAgree | index.go:74-199 | The rows that the index evaluator finds are exactly those whose item the memtable evaluator accepts, and that one fails on none. |
| Flushing.TransparentAt | index.go:230-240 | When newer versions match whenever older ones do, memtable and flushed index emit the same rows at every snapshot. |
| Flushing.VisibleDifference | index.go:230-240 | An older match behind a newer mismatch shows after the flush only: the snapshot at which it does. |
| Flushing.TransparentIff | index.go:230-240 | So flushing is transparent at every snapshot if and only if newer versions match whenever older ones do. |
| Flushing.MemTableStreamDescends | iterator_memtable.go:29-74 | The memtable iterator's keys are strictly descending, as the merge assumes. |
| Flushing.IndexStreamDescends | iterator_index.go:40-103 | So are the index iterator's. |
| Snapshots.MemTableStreamIs | iterator_memtable.go:29-74 | The memtable's stream offers exactly the newest visible versions that match. |
| Snapshots.IndexStreamSound | storage.go:367-376 | An index with its rows in any order offers only visible rows that its query finds. |
| Snapshots.IndexStreamComplete | storage.go:367-376 | And some version of every event of which its query finds a visible row. |
| Snapshots.IndexStreamIs | storage.go:367-376 | If it keeps the versions of an id together, it offers exactly the newest visible versions among the rows its query finds. |
| Snapshots.MergedView | storage.go:362-388 | For every snapshot and request, whatever order merging left the indices in: everything emitted is a version that the memtable shows or a visible row that the query of some index finds, and of every id that has one, one is emitted, of the same event if no index has the id with two start times. |
| Snapshots.GroupedMergedView | storage.go:362-388 | If the indices keep versions together: everything emitted is the newest version of some part, and of every such version one at least as new is emitted. |
| Snapshots.NewestFirst | storage.go:362-388 | If they are sorted: the first emission of an event is the newest version that any part shows. |
| Snapshots.ListedView | storage.go:362-388 | If they are sorted and of every event the part listed first shows a newest version, the list is each shown event's newest version, once, in order, unless that is a tombstone. |
| Snapshots.TwiceEmitted | iterator_merge.go:57-63 | Streams in any order: when the stream that offers an event first has an older version than some later stream, that condition fails, and the older version is emitted beside a newer one; after it, if the streams descend. |
| Snapshots.UpdateListedTwice | storage.go:362-376 | So it is, with indices in any order, with an event whose versions in one index are older than those in another listed after it. |
| Snapshots.UpdateInPen | storage.go:362-376 | Such is every view of an older version in a level and a newer one pending. |
| Snapshots.SomeUpdateListedTwice | storage.go:362-376 | There is one. |
| FlushedStreams.SameStreamsIff | storage.go:359-376 | As a request sees it, with its time window: memtable and flushed index offer the same keys at every snapshot if and only if newer versions match whenever older ones do and every item that satisfies the filter is within the window. |
| FlushedStreams.ShownOverlaps | storage.go:359-376 | Otherwise: an item outside the window is shown by the memtable at its own timestamp and not by the index. |
| Cursors.OpenMemTable | storage.go:359 | A new memtable iterator has ahead exactly the keys of the stream that stands for it. |
| Cursors.StepMemTable | iterator_memtable.go:29-80 | And each call does what the stream does: same answer, same key, same keys to come. |
| Cursors.OpenIndex | storage.go:367-376 | The same for the iterator over what a query finds, or the query's error. |
| Cursors.StepIndex | iterator_index.go:40-61 | And for its calls. |
| Levels.Storage.MergeLevel | storage.go:174-205 | The levels become those of the specified merge, rows and order of keys, from valid indices to valid indices. |
| Levels.Storage.Enter | storage.go:183-187 | The new index joins level 0. |
| Levels.Storage.MoveAll | storage.go:189-198 | The loop over the levels moves down each that has reached its limit. |
| Levels.MergeSlots | storage.go:183-197 | Merging two slots, either of which may be empty, joins their rows, with the keys in the order of the two arguments. |
| Levels.SpillSettles | storage.go:24-30 | After the loop levels 0 to 2 are empty or strictly below their limits. |
| Levels.SpillConserves | storage.go:189-198 | Moving levels down loses and repeats no row. |
| Levels.MergeKeepsLevels | storage.go:174-205 | After a merge the upper levels have room and all levels together hold what they held and the merged index. |
| Levels.MergeMoves | storage.go:24-30 | With the limits: a merge joins the levels down to the first whose limit the joined rows do not reach, empties those above it and leaves those below it alone. |
| Levels.MergeKeysMoves | storage.go:174-205 | And of the keys, those of a level come first when an index joins it, and last when a level joins it from above. |
| Lifecycle.SameEntry | memtable.go:44-75 | Two keys share an entry of the memtable exactly when start time, id and timestamp agree, which is what its size counts. |
| Lifecycle.StepInv | storage.go:99-335 | Every step of writer, flusher and reader keeps the invariant. |
| Lifecycle.RunInv | storage.go:99-335 | So does every interleaving. |
| Lifecycle.IndexedStays | storage.go:102-133 | What is pending or merged stays pending or merged, through removals too. |
| Lifecycle.PromisedStays | storage.go:322-335 | What a reader can still rely on after its first loads survives every later step. |
| Lifecycle.ReaderSeesAcknowledged | storage.go:333-335 | In every run a reader sees every item acknowledged before its first load, except items of a table whose rotation stores fall around its first two loads. |
| Lifecycle.ReaderMayMiss | storage.go:287-313 | From every state with a full table, the four steps with which a reader misses an acknowledged item. |
| Lifecycle.SomeReaderMisses | storage.go:287-335 | A whole run from the start, for every memtable size, that ends so. |
| Lifecycle.PublishedIsKept | storage.go:99-205 | In every run an index once stored in `pen` is there or merged, and every reader that loads `pen` later has its rows in its `pen` or `levels` snapshot. |
| Lifecycle.PutAll | storage.go:315-317 | The writer can always finish a batch, which adds exactly its keys to the current table. |
| Lifecycle.FillTable | storage.go:287-318 | For every memtable size, a run from the start to a full memtable of acknowledged items. |
| MergedOnce.LevelsHoldMerged | storage.go:149-205 | In every run the levels 0 to 2 are below their limits and the levels hold exactly the rows of the merged indices, as often as they were merged. |
| MergedOnce.OnceStays | storage.go:102-172 | While the flusher does not load `pen` between the writer's receiving and removing an index, an index is pending and merged only on its way to the writer or in its hands. |
| MergedOnce.MergedOnceIff | storage.go:102-172 | In every run: no index is merged or queued twice if and only if the flusher never loads `pen` in between. |
| MergedOnce.OrderlyMergesOnce | storage.go:102-205 | In every such run each index is merged at most once, and each published one is pending or merged. |
| Orders.MergedInOrder | storage.go:102-172 | In every orderly run indices are merged in the order in which they were published, none is passed over, and pending are the others, in that order, after at most two merged ones. |
| MergedOnce.HastyMergesTwice | storage.go:102-172 | Every other run can go on until an index has been merged twice. |
| MergedOnce.SomeIndexMergedTwice | storage.go:99-205 | For every memtable size, a run from the start in which an index is merged twice. |
| Readers.ReaderSeesIff | storage.go:287-335 | In every run in which no timestamp repeats: a reader that has made its loads sees an item acknowledged before them if and only if it is not of a table that is retired around the first two, or the index made from that table was merged before the third. |
| Readers.ReaderSeesAllIff | storage.go:287-335 | So it sees all of them if and only if the first two loads do not both fall between the stores of one rotation, or the retired table was merged before the third. |
| Readers.TidyStays | storage.go:99-335 | Every step keeps what this rests on: tables share no version, every index ever stored holds one past table, what is in the retired table was acknowledged. |
| Readers.RetiredInLevels | storage.go:149-205 | The reader has one version of the retired table in its `levels` snapshot exactly when it has the whole table. |
| Readers.SomeReaderSeesAll | storage.go:287-335 | For every memtable size, a run in which the loads fall between the stores and the reader sees everything all the same. |
| Observations.RetiredWhenFull | storage.go:287-318 | In every run, every index ever pending and every table being retired has reached the size at which tables are retired; a batch that finds the table below it is written into that table, any other into a new one. |
| Observations.ReaderSeesThen | storage.go:287-335 | The exact condition for what a reader sees, in terms of the states in which it makes its three loads. |
| Observations.ReaderMissesNoIndex | storage.go:287-335 | Every index ever pending by its second load is in what it loaded then, or its rows are in what it loaded last. |

## Left out

- The table service, transactions, remote calls, protobuf, gRPC, logging, `cmd/` and generated code: commit timestamps and ids are parameters.
- The insides of the roaring, skiplist and Bloom filter libraries: they are sets, a sorted sequence, and sets of bit positions given by an abstract hash function.
- The lexer's regular expression, unquoting and lexing failures (filtering/filtering.go:24-105): the model starts from tokens, and a quoted token carries what unquoting makes of it, if it can.
- Bsi.BSI.Add: requires a distinct BSI, because the source does not end on a BSI added to itself unless it is all zero (`AddToSelf`); planes are set values here, so the aliasing of `ClearValues` with the existence bitmap itself is not captured.
- Bsi.BSI.CompareValue: `requires |bA| <= 64`; the source builds no wider BSI except by `Add`.
- `RunOptimize`, `MinMax`, `ParOr`, `Transpose`, `BatchEqual`, `Clone` and marshalling of a BSI.
- Rows are below `2^32` as in the source; what an index or a merge with more rows would do is not modelled, and such calls are excluded by `requires`.
- Missing list elements inside a filter tree: lists hold present elements, as the parser builds them.
- The comparator of a restriction and fields after the first, which both evaluators ignore; the model carries and ignores them too.
- Flushing.FromMemTable: requires a tombstone-free memtable; a tombstone has no event, which the source does not expect at index.go:426.
- Versions of an event with different start times: the memtable of a snapshot is required to have one start time per id, because version skipping compares neighbours only.
- Snapshots.NewestFirst: requires indices with sorted keys and one start time per id, and so does `ListedView`; merged indices need not be sorted (`MergeOrder.OrderIff` says when they are), and for them `MergedView` and `GroupedMergedView` say what is emitted, not in which order.
- Updates.TombstoneEvent: start times whose microseconds do not fit 64 bits, which a protobuf timestamp cannot hold, are not wrapped.
- MemTables.MemTableIterator.Next: the iterator's positions are indices, which do not follow its elements when items are put between two calls; `NewerLeavesRest` says what puts newer than the snapshot leave of the rest. The skiplist's locking is not modelled.
- `MergeIterator.Seek`, the encoding of page tokens and the final table lookup of `ListEvents`.
- The merge sees its iterators as streams of keys (`KeyStream`); `Cursors` shows that the two real iterators behave as such streams, and `MemTableStreamDescends` and `IndexStreamDescends` when these descend.
- Levels.Storage.MergeLevel: models the new levels; storing them atomically and handing the index back to the writer are steps of `Lifecycle`.
- Lifecycle: the workers' loops are steps on values, memtables are sets of versions, the memtable size (16 384 in the source) is a parameter, one reader is followed at a time, and the flusher may load `pen` whenever it is idle.
- Readers.ReaderSeesIff: speaks of runs in which no batch repeats a version that is in a table, as commit timestamps ensure; without that, an item may also be seen under an equal version elsewhere.
- Strings are sequences of code points; comparing these is comparing UTF-8 bytes, so invalid UTF-8 is not modelled.
- Shutdown, timers, liveness of the channels, time zones, and the unused heap of compare.go.
