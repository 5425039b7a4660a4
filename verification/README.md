# Verified models of a telemetry engine

This project models the hard cores of the Tenzir library and proves properties of
them that hold for every input, every run, or every interleaving. `dafny verify
dfyconfig.toml` checks all of it.

**The query engine.** `Words`, `Ewah`, `EwahBitmaps`, `BitRanges` and `OneRanges`
model the compressed bitmap: 64-bit blocks whose role (marker or literal) follows
from their position alone, the two packed counters of a marker with their maxima,
the open last block, all append operations, the in-place complement, iteration run
by run, and bitwise operations on two such iterations. The class `EwahBitmap` keeps
its bits as a ghost value; its invariant says that the fields are *the* encoding of
those bits, which is why fast and slow appends leave the same blocks, why the
complement is an involution on blocks, and why comparing blocks compares bits.
`Expressions` models the query rewriter and the two-valued reference meaning of a
query. `Evaluation` evaluates bound queries on such bitmap objects and proves the
result right row by row, up to the reference meaning of the query. `Catalog` prunes
partitions with lossy synopses: never one with a match, and exactly those that the
synopses rule out.

**Protocols.** `ExecutionNode` models the pull, push and acknowledge protocol of two
neighbouring pipeline operators with message queues in both directions.
`PartitionTransforms` models the marker files that make partition transforms survive
crashes, `PartitionLifecycle` the way of a partition from active to persisted.

**Cursors and bits.** `Pseudonymize` models prefix-preserving pseudonymization,
`Columns` the recursive selection and transformation of nested columns, `MultiSeries`
the aligned splitting of chunked columns, and `EventBuilder` the signature-indexed
event builder.

Classes and loops appear where the original has them. Where a class has several
invariants, the steps of its methods are also functions on a state value (`Node`,
`State`), the methods are proved to take these steps, and the invariants are proved
for the functions. `EventBuilder` and `PartitionTransforms` also have runs of such
steps, and their objects know the run that has led to their state, so whatever holds
for all runs holds for them.

## Assumptions

- Integers are unbounded. The two marker counters and their maxima are modelled
  exactly; the 64-bit wrap-around of bit counts, sizes and ids is not.
- The block cipher is any function on 16-byte blocks.
- Data is compared by a strict order that is a parameter. `a <= b` is `!(b < a)`.
- Cell comparisons, type compatibility, congruence and synopsis lookups are
  parameters. Synopses are assumed sound where a result needs it, and it says so.
- The monotonic clock does not go back.
- Messages of one sender arrive in order; renaming one file is atomic; writes and
  renames succeed. Random ids are new.

## Where the code differs from what one might expect

- A null leaf below an odd number of negations changes its truth when a query is
  normalized; `NormalizeTruth` says exactly how.
- A query and its normal form can select different rows: on a null cell, for example, a
  test and its negation are both false (`NullCell`). All queries over a set of predicates
  select a row exactly when their normal forms do if and only if each of these predicates
  is negatable on the row: neither side is null, or it is a test for null; a label is one
  of the enumeration; and for an ordering operator the values can be compared
  (`NormalizedExactly`). For one query, only the predicates below an odd number of
  negations have to be (`NormalizedRow`).
- The normal form of a query can repeat an operand, because connectives are merged once
  more after repeated operands were dropped: `(a && a) || a` becomes `a || a`
  (`RepeatedOperands`). If no connective is directly below what becomes its own kind, the
  normal form is the simplified query, without repetitions, exactly if no connective is
  left with a single operand (`NormalizeAlternating`).
- In a list, the evaluator takes a pattern for all text that it matches, while the
  comparison of data looks for an equal element (`CellMeaning`).
- The schema test of the catalog looks at the fields of a partition, so it drops
  partitions of schemas without fields (`SchemaTest`, `SchemaTestLoses`).
- `split_multi_series` fails its assertion if equally long columns end in a different
  number of empty parts (`SplitMultiSeries`, `TrailingEmptyPart`).
- The event builder is meant to forget signatures that have been idle for ten timeouts.
  With a positive timeout it never forgets any: a round first flushes all entries that
  have timed out, which sets their time to one not before the round, and looks for stale
  ones only then (`NothingStale`, `SignaturesStay`, `IdleSignatureStays`).
- With a timeout of zero or less, an entry can be stale right after it was flushed. Then
  it is freed and used again, and it keeps the schema that it was made for
  (`ReusedEntryKeepsSchema`). In every run, all events are in entries with their schema, if
  and only if the timeout is positive (`PlacedExactly`).
- After it has erased a signature, the loop of the garbage collection passes over the next
  one, so of two stale neighbours one stays (`FreedHalf`, `StaleNeighbourStays`). Erasing
  the last signature also moves the iterator past the end, which the model takes as the
  end of the loop.
- With a negative timeout, the assertion of the garbage collection fails if and only if the
  loop comes to the entry that the same round has made for the pending event, and that was
  made more than the absolute timeout, but at most ten times that, after the beginning of
  the round, with a batch size above one (`YieldReady`, `LateEntry`, `AssertionFails`).
- A demand does not hold back a producer that runs again before its push is acknowledged
  (`Overshoots`); only the acknowledgement of a push closes a demand that is met
  (`DemandEnds`).
- Removing the last event does nothing if the event has already become ready.
- Once the previous node has quit, a started execution node that is not a source ignores
  exit messages of the next node and of the pipeline manager, although a comment says
  that these shut it down unconditionally (`HandleExit`).
- The marker of a transform that keeps its inputs has no input list, and recovery
  dereferences that list. A crash leaves such a marker behind if and only if it is
  written and not yet erased (`CrashBlocks`, `KeepingMarkerLeft`); from then on the index
  does not start any more (`KeepingMarkerBlocks`, `LoadFromDisk`).
- If the index crashes after recovery has removed the markers but before a queued
  erasure, the replaced input stays next to its output (`ForgottenInput`). In runs in
  which markers name all queued inputs at every crash, that does not happen
  (`NothingForgotten`, `NoDuplicates`).

## Model

| member | source | states |
|---|---|---|
| Words.FieldBounds | libtenzir/include/tenzir/ewah_bitmap.hpp:24-37 | the dirty and clean counters of any block stay within the maxima of their 31 and 32 bits |
| Words.MarkerFields | libtenzir/include/tenzir/ewah_bitmap.hpp:40-67 | a marker put together from a type and two counters gives exactly these back |
| Words.FieldsDetermine | libtenzir/include/tenzir/ewah_bitmap.hpp:24-67 | the three fields determine all 64 bits of a block |
| Words.Setters | libtenzir/include/tenzir/ewah_bitmap.hpp:45-67 | setting one field changes it to the given value and leaves the other two alone, as long as a counter does not exceed its maximum; a larger clean counter spills into the type |
| Words.SetterMarkers | libtenzir/include/tenzir/ewah_bitmap.hpp:45-67 | blocks made by the setters are the markers with those fields |
| Ewah.DecodeChain | libtenzir/src/ewah_bitmap.cpp:279-318 | decoding blocks by hopping over markers gives the bits of the groups that the blocks hold |
| Ewah.GroupsBits | libtenzir/src/ewah_bitmap.cpp:178-239 | integrating word after word keeps all bits, through clean runs, literals and counter overflow |
| Ewah.GroupsRun | libtenzir/src/ewah_bitmap.cpp:89-118 | putting a run of k clean words behind a chain at once gives the same chain as integrating k words one by one, also when it needs several markers |
| Ewah.GroupsFlip | libtenzir/src/ewah_bitmap.cpp:154-171 | complementing literals and non-empty marker types of a chain gives the very chain that the complemented words would have built |
| Ewah.FlipFromChain | libtenzir/src/ewah_bitmap.cpp:154-171 | walking over the blocks from marker to marker flips exactly the groups of the chain |
| Ewah.ConcatInjective | libtenzir/src/ewah_bitmap.cpp:241-245 | equal bits fall into equal full words |
| Ewah.CompressedExactly | libtenzir/src/ewah_bitmap.cpp:178-239 | the words fold into a chain if and only if the chain has their bits and is compressed: clean words are only counted, and there is a new marker only where the last one cannot count the next word |
| EwahBitmaps.IntegratedChain | libtenzir/src/ewah_bitmap.cpp:178-239 | integrating the last block in place is the same as integrating its word into the chain |
| EwahBitmaps.RunReuse | libtenzir/src/ewah_bitmap.cpp:93-104 | the last marker takes up as much of a run as the chain with that run reuses |
| EwahBitmaps.DecodesToBits | libtenzir/src/ewah_bitmap.cpp:264-318 | blocks and bit count alone give the bits back; the widths along the marker chain add up to the bit count |
| EwahBitmaps.BitsDetermineState | libtenzir/src/ewah_bitmap.cpp:35-245 | equal bits have equal blocks, last marker and bit count: the encoding is canonical |
| EwahBitmaps.MarkerChain | libtenzir/src/ewah_bitmap.cpp:178-239 | hopping dirty + 1 from block 0 ends at the last block, the last hop starts at the last marker, and the last block is an uncounted literal whose unused bits are zero |
| EwahBitmaps.EwahBitmap.constructor | libtenzir/include/tenzir/ewah_bitmap.hpp:140-142 | a new bitmap is the encoding of no bits |
| EwahBitmaps.EwahBitmap.BumpDirtyCount | libtenzir/src/ewah_bitmap.cpp:222-239 | the last marker counts one more literal, or a new marker is put in front of the last block |
| EwahBitmaps.EwahBitmap.IntegrateBlocks | libtenzir/src/ewah_bitmap.cpp:178-220 | the last block becomes clean or dirty as its bits and the last marker require |
| EwahBitmaps.EwahBitmap.IntegrateLastBlock | libtenzir/src/ewah_bitmap.cpp:178-220 | a full last block joins the chain, the bits stay, and the chain is the one of all full words |
| EwahBitmaps.EwahBitmap.AppendBit | libtenzir/src/ewah_bitmap.cpp:35-48 | one more bit, and the fields are again the encoding of all bits |
| EwahBitmaps.EwahBitmap.AppendRun | libtenzir/src/ewah_bitmap.cpp:72-124 | the run behind full words is encoded as if it had been appended bit by bit |
| EwahBitmaps.EwahBitmap.AppendCleanBlocks | libtenzir/src/ewah_bitmap.cpp:89-118 | clean blocks fill the reusable marker first and then new ones, leaving the chain of all words |
| EwahBitmaps.EwahBitmap.AppendBits | libtenzir/src/ewah_bitmap.cpp:50-124 | n equal bits more, and the fields are again the encoding of all bits |
| EwahBitmaps.EwahBitmap.AppendBlock | libtenzir/src/ewah_bitmap.cpp:126-152 | the n low bits of a word more, and the fields are again the encoding of all bits |
| EwahBitmaps.EwahBitmap.FlipBlocks | libtenzir/src/ewah_bitmap.cpp:157-171 | the loop over all blocks but the last one flips by position, never by content |
| EwahBitmaps.EwahBitmap.Flip | libtenzir/src/ewah_bitmap.cpp:154-176 | all bits are complemented and the fields are the encoding of the complement |
| EwahBitmaps.EwahBitmap.Equals | libtenzir/src/ewah_bitmap.cpp:241-245 | comparing blocks and bit count is true if and only if the bits are equal, and then the last markers agree |
| EwahBitmaps.AppendBitsIsAppendEach | libtenzir/src/ewah_bitmap.cpp:35-124 | n equal bits at once and one by one leave the same blocks, last marker and bit count |
| EwahBitmaps.AppendBlockIsAppendEach | libtenzir/src/ewah_bitmap.cpp:35-152 | the n low bits of a word at once and one by one leave the same blocks, last marker and bit count |
| EwahBitmaps.FlipTwice | libtenzir/src/ewah_bitmap.cpp:154-176 | complementing twice restores blocks, last marker and bit count |
| BitRanges.MakeRunBits | libtenzir/include/tenzir/bits.hpp:46-60 | a bit sequence made from a word and a length has that many low bits of it, or that many equal bits |
| BitRanges.DropBits | libtenzir/include/tenzir/bits.hpp:113-150 | dropping bits from the front of a sequence, runs included |
| BitRanges.BitRange.constructor | libtenzir/src/ewah_bitmap.cpp:264-271 | iteration starts with all bits of the bitmap still to come |
| BitRanges.BitRange.Next | libtenzir/src/ewah_bitmap.cpp:273-277 | the current run followed by what comes after it was what was left before, and the iteration advances |
| BitRanges.BitRange.Scan | libtenzir/src/ewah_bitmap.cpp:279-318 | the run read at a block and what follows are exactly the bits from there on |
| BitRanges.BitRange.ScanMarker | libtenzir/src/ewah_bitmap.cpp:294-317 | clean runs that go on over several markers are merged without changing the bits |
| BitRanges.Append | libtenzir/include/tenzir/bitmap_base.hpp:68-77 | all bits of one bitmap behind those of another |
| BitRanges.AppendRunTo | libtenzir/include/tenzir/bitmap_base.hpp:100-108 | a bit sequence is appended as a run or as a block |
| BitRanges.BinaryEval | libtenzir/include/tenzir/bitmap_algorithms.hpp:59-130 | the result of a bitwise operation run by run is the operation on each two bits; behind the shorter operand there is the rest of the longer one, or zeros |
| OneRanges.OneRange.constructor | libtenzir/include/tenzir/bitmap_algorithms.hpp:470-476 | the iterator over one bits starts at the first of them |
| OneRanges.OneRange.Next | libtenzir/include/tenzir/bitmap_algorithms.hpp:394-408 | the iterator moves to the next one bit, none is passed over, and it is done only behind the last |
| Expressions.OperatorMeaning | libtenzir/src/operator.cpp:53-102 | negating an operator complements the relation, flipping it swaps the operands, both are involutions and commute |
| Expressions.NegatedOperators | libtenzir/src/operator.cpp:35-77 | of an equality or membership operator and its negation exactly one counts as negated |
| Expressions.OperatorsOnValues | libtenzir/src/data.cpp:299-370 | what the operators are on numbers in their order, on text and patterns, in lists, and on addresses and subnets |
| Expressions.ConnectiveMeaning | libtenzir/src/evaluate.cpp:513-555 | a conjunction holds if all its operands do, a disjunction if some operand does, a negation if its operand does not |
| Expressions.HoistMeaning | libtenzir/src/expression_visitors.cpp:84-122 | hoisting keeps the truth of an expression, for any truth of predicates and however null leaves are read |
| Expressions.AlignMeaning | libtenzir/src/expression_visitors.cpp:124-160 | putting extractors on the left keeps the truth, for any truth of predicates that respects flipping |
| Expressions.DenegateMeaning | libtenzir/src/expression_visitors.cpp:162-197 | De Morgan with double negation, for any truth of predicates that respects negating where a predicate is negated, and what becomes of null leaves |
| Expressions.DeduplicateMeaning | libtenzir/src/expression_visitors.cpp:199-231 | dropping repeated operands keeps the truth of expressions without negations, for any truth of predicates |
| Expressions.DeduplicateDistinct | libtenzir/src/expression_visitors.cpp:203-223 | the operands left are pairwise different and are the deduplicated operands of the input |
| Expressions.DeduplicateFirsts | libtenzir/src/expression_visitors.cpp:203-223 | collecting operands in a growing result keeps the first of each deduplicated operand, in order |
| Expressions.HoistShrinks | libtenzir/src/expression_visitors.cpp:88-114 | hoisting leaves an expression alone if and only if no connective has a single operand or is directly below its own kind; otherwise fewer connectives are left |
| Expressions.NormalizeSimplifies | libtenzir/src/expression.cpp:185-192 | for every expression, the three middle passes of its normalization are one pass that pushes negations down, puts extractors on the left and keeps the first of each operand |
| Expressions.NormalizeAlternating | libtenzir/src/expression.cpp:185-192 | if no connective is directly below what becomes its own kind, the normal form is exactly the simplified expression, without repeated operands, if and only if that has no connective of a single operand |
| Expressions.NormalizeLiteral | libtenzir/src/expression_visitors.cpp:148-196 | the normal form of a predicate below any number of negations: aligned, with the operator negated if that number is odd |
| Expressions.NormalizeLiterals | libtenzir/src/expression.cpp:185-192 | the operands of a normalized connective of any number of such predicates are pairwise different and are the first of each normal form; a single one stands alone |
| Expressions.RepeatedOperands | libtenzir/src/expression.cpp:185-192 | two expressions whose normal form repeats an operand |
| Expressions.NormalizeTruth | libtenzir/src/expression.cpp:185-192 | for every expression: its normal form holds exactly when it holds with null leaves below an odd number of negations read as true |
| Expressions.NormalizeMeaning | libtenzir/src/expression.cpp:185-192 | normalization keeps the meaning under every assignment if no null leaf is below an odd number of negations |
| Expressions.SameTruth | libtenzir/src/expression.cpp:185-192 | for any truth of predicates: an expression has the truth of its normal form if its predicates respect flipping, and those below an odd number of negations also negating |
| Expressions.SameTruthExactly | libtenzir/src/expression.cpp:185-192 | for any truth of predicates: all expressions over a set of predicates have the truth of their normal forms if and only if these predicates respect both |
| Expressions.NullBelowNegation | libtenzir/src/expression_visitors.cpp:162-193 | with such a null leaf the meaning can change |
| Expressions.NormalizeForm | libtenzir/src/expression_visitors.cpp:88-227 | the normal form has no negation, no predicate with data left of an extractor and no connective of a single operand; it is a last hoisting of an expression in which no operand is repeated; and deduplication never meets a negation |
| Expressions.NormalizeNulls | libtenzir/src/expression.cpp:185-192 | normalization neither makes nor loses null leaves |
| Expressions.NormalizeLeaves | libtenzir/src/expression.cpp:185-192 | the operands of aligned predicates stay together, so bound expressions stay bound |
| Expressions.ValidatedMeaning | libtenzir/src/expression.cpp:194-199 | what passes validation is in normal form and means the same as the input |
| Expressions.ValidatedExactly | libtenzir/src/expression.cpp:194-199 | an expression passes validation if and only if it has no null leaf and every predicate passes its check, aligned, and with its operator negated below an odd number of negations |
| Evaluation.Any | libtenzir/include/tenzir/bitmap_algorithms.hpp:606-619 | looking at run data only, true if and only if some bit is set |
| Evaluation.Complement | libtenzir/include/tenzir/bitmap_base.hpp:133-137 | a complemented copy; the operand does not change |
| Evaluation.Zeros | libtenzir/src/ewah_bitmap.cpp:15-17 | a bitmap made of n zeros has exactly these |
| Evaluation.EvaluateCells | libtenzir/src/evaluate.cpp:233-253 | the result of a column has exactly the selected rows with a non-null cell that passes, up to the end of the slice; what passes is said by `CellMeaning` |
| Evaluation.EvaluateNull | libtenzir/src/evaluate.cpp:255-301 | tests for null select exactly the selected null or non-null rows |
| Evaluation.EvaluateColumn | libtenzir/src/evaluate.cpp:303-330 | the choice between null tests, labels of enumerations and cells gives the row meaning of the predicate |
| Evaluation.EvaluatePredicate | libtenzir/src/evaluate.cpp:462-511 | metadata and column predicates pick exactly the selected rows that satisfy them |
| Evaluation.EvaluateConjunction | libtenzir/src/evaluate.cpp:527-535 | threading the selection through the operands, with the early exit, is the conjunction row by row |
| Evaluation.EvaluateDisjunction | libtenzir/src/evaluate.cpp:536-545 | threading the shrinking mask through the operands, with the early exit, is the disjunction row by row |
| Evaluation.EvaluateExpression | libtenzir/src/evaluate.cpp:513-555 | the result is inside the selection and has exactly the rows that satisfy the expression; XOR is a correct negation |
| Evaluation.NormalizeHints | libtenzir/src/evaluate.cpp:556-573 | without hints all rows of the slice are selected, else exactly the hinted ones of the slice |
| Evaluation.Evaluate | libtenzir/src/evaluate.cpp:458-578 | length offset + rows, nothing before the offset, and a bit is set if and only if its row is selected and satisfies the expression |
| Evaluation.CellMeaning | libtenzir/src/evaluate.cpp:34-231 | a test on a cell agrees with the reference meaning, for all ten operators, if and only if it is not one for membership that only a pattern in the list passes, as long as the compared values are alike for both |
| Evaluation.LeafMeaning | libtenzir/src/evaluate.cpp:233-511 | a bound predicate selects a row exactly when its reference test holds: null only passes tests for null, labels stand for their keys, unknown labels for nothing |
| Evaluation.RowMeaning | libtenzir/src/evaluate.cpp:513-555 | a row satisfies an expression if and only if the expression holds with the reference tests of its predicates |
| Evaluation.AnswerMeaning | libtenzir/src/evaluate.cpp:458-578 | the bits that the evaluation returns, position by position: exactly the hinted rows, behind the offset, on which the query holds with the reference tests |
| Evaluation.NormalizedRow | libtenzir/src/evaluate.cpp:513-555 | a row satisfies a bound query if and only if it satisfies its normal form, if the predicates below an odd number of negations are negatable on the row and no null leaf is there |
| Evaluation.NormalizedExactly | libtenzir/src/evaluate.cpp:73-555 | all queries over a set of bound predicates select a row exactly when their normal forms do if and only if each of these predicates is negatable on the row |
| Evaluation.NegatablePredicate | libtenzir/src/evaluate.cpp:73-330 | negating the operator of a bound predicate complements it on a row if and only if it is negatable: a condition on nulls, labels and comparable values |
| Evaluation.NegatedTest | libtenzir/src/evaluate.cpp:73-330 | for every operator: a negated test on a cell is the complement if and only if it is a test for null, or neither side is null, a label is known, and for an ordering operator the two values can be compared |
| Evaluation.NullCell | libtenzir/src/evaluate.cpp:243-245 | a null cell for which an expression and its normal form differ |
| Catalog.MatchesNames | libtenzir/src/catalog.cpp:383-407 | for all keys, the comparison by cases is true if and only if the key ends the qualified field name at its start or behind a dot |
| Catalog.NoFalseNegatives | libtenzir/src/catalog.cpp:172-448 | a partition with a matching event, null values included, is selected, for every expression tree, unless the partition has no fields and the expression tests the schema outside negations |
| Catalog.PrunedLeaf | libtenzir/src/catalog.cpp:247-448 | a partition is pruned by a predicate if and only if every field that the extractor means has a synopsis, its own or else that of its type, that rules the value out, or the known import times, schema names, schema id or internal flag fail the test |
| Catalog.PrunedExactly | libtenzir/src/catalog.cpp:172-448 | a partition is pruned by an expression if and only if one operand of a conjunction, or all operands of a disjunction, prune it; negations never do |
| Catalog.SchemaTest | libtenzir/src/catalog.cpp:307-325 | exactly when a test of the schema name selects a partition |
| Catalog.SchemaTestLoses | libtenzir/src/catalog.cpp:307-325 | a partition without fields with a matching event that a schema test loses |
| Catalog.InplaceIntersect | libtenzir/include/tenzir/detail/set_operations.hpp:23-39 | erasing in place leaves the sorted common ids |
| Catalog.InplaceUnify | libtenzir/include/tenzir/detail/set_operations.hpp:50-59 | merging and dropping repetitions leaves the sorted union |
| Catalog.Search | libtenzir/src/catalog.cpp:247-302 | exactly the partitions that have a field that the extractor means and that neither its own synopsis, nor in its absence that of its type, rules out, in order |
| Catalog.LookupAll | libtenzir/src/catalog.cpp:197-216 | the intersection of the operands' candidates, with its short circuits, in order |
| Catalog.LookupAny | libtenzir/src/catalog.cpp:217-233 | the union of the operands' candidates, with the short circuit on size, in order |
| Catalog.Lookup | libtenzir/src/catalog.cpp:172-452 | a strictly sorted list of exactly the partitions that the expression does not rule out |
| Catalog.AllPicked | libtenzir/src/catalog.cpp:223-225 | as many candidates as partitions means that all partitions are candidates |
| Pseudonymize.PadBitPrefix | libtenzir/src/ip.cpp:68-95 | bit k of the one-time pad depends on the first k bits of the data only |
| Pseudonymize.AddressEncryptor.GenerateOneTimePad | libtenzir/src/ip.cpp:68-95 | each bit of the pad is the first bit of the cipher of the data's bits before it followed by padding |
| Pseudonymize.AddressEncryptor.Encrypt | libtenzir/src/ip.cpp:51-58 | each bit from the offset on is xored with its bit of the pad, the bytes before it stay |
| Pseudonymize.PseudonymizeAddress | libtenzir/src/ip.cpp:100-107 | IPv4-mapped addresses are encrypted from byte 12 on, others from the start; `PseudonymBits` says bit by bit how |
| Pseudonymize.MappedBits | libtenzir/src/ip.cpp:109-111 | an address is IPv4-mapped if and only if it starts with eighty zeros and sixteen ones |
| Pseudonymize.PseudonymBits | libtenzir/src/ip.cpp:51-107 | for every cipher: the first 96 bits of an IPv4-mapped address stay, of others none; any other bit is flipped exactly as the first cipher bit of a block says, which is made of the encrypted bits before it and the padding |
| Pseudonymize.AllFlipped | libtenzir/src/ip.cpp:100-107 | with a cipher that answers with ones, exactly the first 96 bits of IPv4-mapped addresses stay |
| Pseudonymize.EncryptedAgree | libtenzir/src/ip.cpp:51-95 | encrypted addresses agree on their first k bits if and only if the addresses do |
| Pseudonymize.PrefixPreserved | libtenzir/src/ip.cpp:100-107 | the common prefix of two pseudonyms of one family is exactly as long as that of the addresses |
| Pseudonymize.Injective | libtenzir/src/ip.cpp:100-107 | different addresses of one family have different pseudonyms |
| Pseudonymize.StaysV4 | libtenzir/src/ip.cpp:100-111 | pseudonyms of IPv4-mapped addresses are IPv4-mapped |
| Pseudonymize.SubnetsPreserved | libtenzir/src/ip.cpp:100-156 | two addresses of one family fall into the same subnet of any size if and only if their pseudonyms do |
| Pseudonymize.Mask | libtenzir/src/ip.cpp:139-156 | in place, all bits behind the first ones are cleared; a length over 128 changes nothing and is reported |
| Pseudonymize.Compare | libtenzir/src/ip.cpp:185-199 | true if and only if the first k bits agree, for every k up to 128 |
| Columns.LessTotal | libtenzir/src/offset.cpp:19-43 | the comparison at the first mismatch is a total order |
| Columns.LessTransitive | libtenzir/src/offset.cpp:19-39 | and it is transitive |
| Columns.AdjacentSuffices | libtenzir/src/arrow_table_slice.cpp:283-293 | after sorting, no path is a prefix of any other if none is a prefix of its successor |
| Columns.NoAdjacentPrefix | libtenzir/src/arrow_table_slice.cpp:283-293 | the check of neighbours passes if and only if no path is a prefix of another |
| Columns.Walk | libtenzir/src/arrow_table_slice.cpp:314-383 | the walk with a shared cursor reaches the end of its paths if and only if all resolve, and then every addressed column was replaced and all others kept or dropped |
| Columns.TransformColumns | libtenzir/src/arrow_table_slice.cpp:275-437 | for paths in any order: the outcome and the new columns in every case, including empty records and the empty path |
| Columns.SelectColumns | libtenzir/src/arrow_table_slice.cpp:467-581 | for paths in any order: exactly the columns at the paths, if they are prefix-free and all resolve, else failure |
| Columns.Untouched | libtenzir/src/arrow_table_slice.cpp:325-381 | a layer below which no path leads stays as it is, or is dropped as a whole |
| Columns.SameRewritten | libtenzir/src/arrow_table_slice.cpp:282-401 | the result does not depend on the order of the given paths |
| Columns.RewrittenListing | libtenzir/src/arrow_table_slice.cpp:314-383 | the resulting columns, in order and with all names, are what becomes of each column by its path alone: replaced at a given path, gone below it, rebuilt above it, otherwise kept or dropped |
| MultiSeries.SplitMultiSeries | libtenzir/src/multi_series.cpp:18-69 | the rounds have equally long slices that concatenate to the columns; it succeeds if and only if the columns are equally long and end in equally many empty parts; without empty parts no slice is empty |
| MultiSeries.NextRound | libtenzir/src/multi_series.cpp:34-66 | a round cuts the same number of rows off every column and makes progress |
| MultiSeries.WithoutEmptyParts | libtenzir/src/multi_series.cpp:25-28 | without empty parts, equal lengths are enough |
| MultiSeries.TrailingEmptyPart | libtenzir/src/multi_series.cpp:39-47 | two equally long columns that cannot be split |
| MultiSeries.MappedRows | libtenzir/src/multi_series.cpp:81-91 | mapping round by round a function that works row by row maps the columns row by row |
| MultiSeries.MapSeries | libtenzir/src/multi_series.cpp:81-91 | the rows of the result do not depend on how the columns are cut into parts |
| EventBuilder.MultiSeriesBuilder.CompleteLastEvent | libtenzir/src/multi_series_builder.cpp:605-716 | the new state in full: the pending event goes to the entry of its signature, in ordered mode the previous entry is flushed before; the entry has the schema of the event if and only if it was there with it, was made for it, or is new |
| EventBuilder.MultiSeriesBuilder.EntryForPending | libtenzir/src/multi_series_builder.cpp:696-706 | the signature has an entry of its own afterwards: its own, else the first free one, else a new one; for a new signature the schema is right if and only if there is no free entry or the first free one has that schema |
| EventBuilder.MultiSeriesBuilder.NextFreeIndex | libtenzir/src/multi_series_builder.cpp:723-730 | the first free entry, or none if there is none |
| EventBuilder.MultiSeriesBuilder.AddEvent | libtenzir/src/multi_series_builder.cpp:530-537 | the pending event is completed, then the new one is pending behind all earlier ones |
| EventBuilder.MultiSeriesBuilder.RemoveLast | libtenzir/src/multi_series_builder.cpp:575-587 | in ordered mode the last event is gone if it was pending or still open in its builder, else nothing changes |
| EventBuilder.MultiSeriesBuilder.MakeEventsAvailableWhere | libtenzir/src/multi_series_builder.cpp:742-750 | once the pending event is completed, exactly the entries that satisfy the condition are flushed, at readings of the clock not before the call, their events become ready in the order of the entries, and all other entries stay as they are |
| EventBuilder.MultiSeriesBuilder.GarbageCollect | libtenzir/src/multi_series_builder.cpp:761-778 | after the flush of the same round: the signatures that the loop frees, exactly, with their entries; all others stay; it fails if and only if one of these has events |
| EventBuilder.MultiSeriesBuilder.YieldReady | libtenzir/src/multi_series_builder.cpp:501-522 | what a round does: the flush, what is freed, what is handed out, and exactly when the assertion fails; with a positive timeout it never fails and nothing is freed |
| EventBuilder.MultiSeriesBuilder.Finalize | libtenzir/src/multi_series_builder.cpp:589-597 | in ordered mode all events were handed out in the order of the input; in any mode those of each signature were |
| EventBuilder.StaleIsTimedOut | libtenzir/src/multi_series_builder.cpp:510-520 | an age that is stale has timed out, for all ages, if and only if the timeout is not negative |
| EventBuilder.SeparateBuilders | libtenzir/src/multi_series_builder.cpp:605-778 | two signatures never share a builder, free builders are empty, and in ordered mode at most one builder has events |
| EventBuilder.RegisterValid | libtenzir/src/multi_series_builder.cpp:696-706 | taking a free or new entry keeps signatures apart and all streams complete |
| EventBuilder.CommitValid | libtenzir/src/multi_series_builder.cpp:713-715 | committing keeps the order of the input, and of each signature |
| EventBuilder.FlushValid | libtenzir/src/multi_series_builder.cpp:707-712 | flushing keeps the order of the input, and of each signature |
| EventBuilder.CollectValid | libtenzir/src/multi_series_builder.cpp:766-777 | freeing an empty entry loses nothing |
| EventBuilder.ReusedEntryKeepsSchema | libtenzir/src/multi_series_builder.cpp:699-705 | for every timeout that is not positive: a possible run in which an entry is flushed, collected in the same round and used again, so that an event of another schema ends up in it |
| EventBuilder.SchemasPlaced | libtenzir/src/multi_series_builder.cpp:605-716 | throughout any run, with any timeout, all events are in entries with their schema if and only if every free entry that was used again had the schema of its new signature |
| EventBuilder.PlacedExactly | libtenzir/src/multi_series_builder.cpp:501-522 | in all runs with a timeout, all events are in entries with their schema if and only if the timeout is positive |
| EventBuilder.NothingStale | libtenzir/src/multi_series_builder.cpp:510-520 | with a positive timeout, no signature is stale after the flush of a round |
| EventBuilder.NeverFreed | libtenzir/src/multi_series_builder.cpp:766-777 | with a positive timeout, no entry is ever free, in any run |
| EventBuilder.SignaturesStay | libtenzir/src/multi_series_builder.cpp:761-778 | with a positive timeout, a signature keeps its entry in every continuation of a run |
| EventBuilder.IdleSignatureStays | libtenzir/src/multi_series_builder.cpp:510-520 | for every positive timeout: a signature that has been idle for ten timeouts when a round begins is not stale after its flush, and stays for ever |
| EventBuilder.LateEntry | libtenzir/src/multi_series_builder.cpp:501-522 | after the flush of a round, a signature is stale and has events if and only if its entry was made for the pending event in this round, in a window of time that is empty unless the timeout is negative |
| EventBuilder.AssertionFails | libtenzir/src/multi_series_builder.cpp:766-777 | for every negative timeout and every time in the window: a round in which the loop comes to such an entry |
| EventBuilder.FreedHalf | libtenzir/src/multi_series_builder.cpp:766-777 | of any set of stale signatures, the loop frees at least half, and all if and only if no two are neighbours in the order of the map |
| EventBuilder.StaleNeighbourStays | libtenzir/src/multi_series_builder.cpp:766-777 | for every timeout that is not positive: a possible run that ends with two stale signatures, flushed in the same round, of which only one is freed |
| EventBuilder.RunValid | libtenzir/src/multi_series_builder.cpp:501-778 | order, completeness and separate builders hold after every run of arriving, completing, reading the clock, flushing, collecting, yielding and removing |
| ExecutionNode.ExecNode.IssueDemand | libtenzir/src/execution_node.cpp:778-792 | a pull is sent if and only if none is in flight, there is a previous node and the buffer has room for the minimum; it asks for exactly what the buffer has room for, or for nothing while there are too many batches |
| ExecutionNode.ExecNode.Pull | libtenzir/src/execution_node.cpp:865-884 | which promises a pull answers at once, and what demand it leaves open |
| ExecutionNode.ExecNode.AdvanceGenerator | libtenzir/src/execution_node.cpp:631-668 | only with open demand, which is reduced by what is pushed; empty outputs are not pushed and end the node if they are the last |
| ExecutionNode.ExecNode.PushAcked | libtenzir/src/execution_node.cpp:669-688 | a met demand is answered once, and the node quits after its last push |
| ExecutionNode.ExecNode.Push | libtenzir/src/execution_node.cpp:886-904 | the buffer and its size grow together |
| ExecutionNode.ExecNode.NextInput | libtenzir/src/execution_node.cpp:715-732 | the next batch, or the end only without a previous node and with an empty buffer; the size never underflows |
| ExecutionNode.ExecNode.HandleExit | libtenzir/src/execution_node.cpp:915-956 | all cases: a node that has not started quits for a reason, a source always quits, without a previous node the message is ignored, its graceful exit ends the input, and any other exit shuts the node down |
| ExecutionNode.ExecNode.RunOnce | libtenzir/src/execution_node.cpp:819-828 | demand is issued before the operator advances |
| ExecutionNode.AlwaysInv | libtenzir/src/execution_node.cpp:615-904 | the invariants of pulls, batches and the end hold in every interleaving |
| ExecutionNode.OnePull | libtenzir/src/execution_node.cpp:778-884 | in every interleaving at most one pull is unanswered, each is answered once, and none finds an older one open |
| ExecutionNode.StreamFidelity | libtenzir/src/execution_node.cpp:632-956 | in every interleaving the consumer has received a prefix of what the producer yielded, the rest is buffered or on its way, and the end is seen only after all was received |
| ExecutionNode.YieldedFilled | libtenzir/src/execution_node.cpp:644-668 | pushed batches are never empty |
| ExecutionNode.NoDeadlock | libtenzir/src/execution_node.cpp:778-884 | in every interleaving something can happen until the stream has ended |
| ExecutionNode.BackPressure | libtenzir/src/execution_node.cpp:631-884 | in every interleaving, the open demand is what its pull asked for without the elements yielded since that arrived; these are fewer than asked for unless a push is not yet acknowledged |
| ExecutionNode.DemandEnds | libtenzir/src/execution_node.cpp:631-884 | an open demand ends if and only if the producer quits, or a push is acknowledged and as many elements as asked for have been yielded |
| ExecutionNode.Overshoots | libtenzir/src/execution_node.cpp:615-668 | one pull can be followed by any number of elements before the first acknowledgement |
| ExecutionNode.ArrivalDecreases | libtenzir/src/execution_node.cpp:631-904 | each message that arrives decreases a measure of what messages can still cause |
| ExecutionNode.BecomesQuiet | libtenzir/src/execution_node.cpp:631-904 | from every state of every run messages can arrive until none is on its way; then an unanswered pull is open at a running producer that has yielded fewer elements than it asked for, so a pull is answered once its demand is met or the producer quits |
| PartitionTransforms.AlwaysValid | libtenzir/src/index.cpp:365-472 | the invariants of the disk and the index hold after every run with crashes at any step |
| PartitionTransforms.NothingLost | libtenzir/src/index.cpp:1505-1749 | in every run, each partition that ever held data is in the index directory, staged under a written marker, or replaced by a committed transform |
| PartitionTransforms.InputsOrOutputs | libtenzir/src/index.cpp:1505-1749 | in every run, before the marker all inputs of a transform are there, afterwards all outputs are |
| PartitionTransforms.Completes | libtenzir/src/index.cpp:1547-1749 | from every state of every run, a running transform can go on until it is done; then its marker is gone and its outputs have taken the place of its inputs, unless these are kept |
| PartitionTransforms.Settled | libtenzir/src/index.cpp:365-472 | at rest nothing is staged, abandoned outputs are gone, and replaced inputs are gone if and only if no forgotten one is left |
| PartitionTransforms.ForgottenErasure | libtenzir/src/index.cpp:421-466 | an erasure is forgotten if and only if the index goes down while it is queued and no marker names it any more |
| PartitionTransforms.NothingForgotten | libtenzir/src/index.cpp:421-466 | a run forgets no erasure if and only if markers name all queued inputs whenever the index goes down |
| PartitionTransforms.NoDuplicates | libtenzir/src/index.cpp:365-472 | at rest after such a run, the inputs of every committed transform that does not keep them are gone, and its outputs are there or replaced in turn |
| PartitionTransforms.ForgottenInput | libtenzir/src/index.cpp:421-466 | a run that ends with an input next to the output that replaced it |
| PartitionTransforms.KeepingMarkerBlocks | libtenzir/src/index.cpp:412-436 | once a run has left the marker of a transform that keeps its inputs, the index never runs again, whatever happens |
| PartitionTransforms.CrashBlocks | libtenzir/src/index.cpp:1588-1749 | a crash leads there if and only if such a marker is written and not yet erased |
| PartitionTransforms.KeepingMarkerLeft | libtenzir/src/index.cpp:265-290 | a run of five steps that leads there |
| PartitionTransforms.MarkerContents | libtenzir/src/index.cpp:265-290 | a marker names the outputs of its transform, and the inputs unless they are kept, in which case the list is absent |
| PartitionTransforms.IndexDirectory.LoadFromDisk | libtenzir/src/index.cpp:375-472 | recovery takes the steps of a run; it gets through if and only if each marker has an input list; it moves exactly the staged outputs of markers and queues exactly their existing inputs |
| PartitionTransforms.IndexDirectory.Select | libtenzir/src/index.cpp:1516-1545 | exactly the known partitions that no other transform works on, without repetitions |
| PartitionTransforms.Recover | libtenzir/src/index.cpp:375-472 | recovery with its erasures replaces the inputs of exactly the marked transforms by their outputs, and ends in the state of the run that it has continued |
| PartitionLifecycle.IndexState.HandleSlice | libtenzir/src/index.cpp:697-739 | the slice goes to one partition of its schema, rotated exactly if it does not fit; the capacity assertion never fails |
| PartitionLifecycle.IndexState.CreateActivePartition | libtenzir/src/index.cpp:743-779 | a new partition with full capacity becomes the active one |
| PartitionLifecycle.IndexState.DecommissionActivePartition | libtenzir/src/index.cpp:781-797 | the active partition of a schema moves to the unpersisted ones |
| PartitionLifecycle.IndexState.ActivePartitionTimeout | libtenzir/src/index.cpp:757-776 | a timeout rotates its own partition if that is still active, and changes nothing otherwise |
| PartitionLifecycle.NeverActiveAgain | libtenzir/src/index.cpp:743-849 | a partition that was rotated is never active again, whatever happens |
| PartitionLifecycle.StaleTimeout | libtenzir/src/index.cpp:757-776 | so its timeout changes nothing, whenever it fires and whichever partition has taken its place |
| PartitionLifecycle.IndexState.PersistDone | libtenzir/src/index.cpp:800-848 | an unpersisted partition becomes persisted, or is evicted if that fails |
| PartitionLifecycle.IndexState.Flush | libtenzir/src/index.cpp:851-884 | all active partitions become unpersisted and none is left active |
| PartitionLifecycle.SendValid | libtenzir/src/index.cpp:727-738 | a slice that fits, or goes to a fresh partition, keeps all invariants |
| PartitionLifecycle.Lifecycle | libtenzir/src/index.cpp:697-849 | the partitions of a schema hold its slices in order and once each, a partition is in exactly one place, and holds at most its capacity or the rows of a single slice |

## Left out

- Bit counts that wrap around at 64 bits, and the 32-bit loop counter of `flip`, which cannot count more blocks than fit in it.
- Other bitmap kinds (WAH, null bitmap) and the conversion of bitmaps to flatbuffers.
- Evaluation.Evaluate: the typed cell comparisons are parameters. `AnswerMeaning` relates them to the comparison of data for pairs of values on which the two agree; which types these are is not modelled.
- Resolving extractors over several matching columns, taxonomies, and pruning of unprunable fields.
- Catalog.Lookup: candidates are modelled by their ids, on which the original compares them; the final sort by import time, `merge` and `erase` are not modelled.
- Pseudonyms of two addresses of different families: an IPv6 pseudonym may become IPv4-mapped by chance, so nothing is claimed across families.
- Columns.TransformColumns: flattening a record pushes its nulls down to its fields; the model keeps fields as they are and treats column contents as opaque.
- Joining a multi series into one series (`to_series`).
- EventBuilder.MultiSeriesBuilder.YieldReady: events that become ready are one list; how they are cut into batches is not modelled. The merging mode writes to one builder directly and is left out.
- Computing signatures and schemas of events; they are attributes of the events here. `SchemasPlaced` takes the schema to depend on the signature.
- EventBuilder.MultiSeriesBuilder.GarbageCollect: the order of the map is any order; that erasing can move the first signatures of the hash table to its end is not modelled.
- ExecutionNode.StreamFidelity: a consumer that quits first, and operators that abort, shut the whole pipeline down; that is not modelled, nor are pausing, timers and back-off. Runs may happen at any time instead.
- ExecutionNode.ExecNode.RunOnce: one round; waiting, pausing and scheduling the next round are not modelled.
- ExecutionNode.NoDeadlock: some step can happen in every state, and messages that arrive lead to a quiet state (`BecomesQuiet`); that the original schedules the runs of a node is not modelled.
- PartitionTransforms.NothingLost: store files and synopsis files. Synopses are made again from partitions at startup; the original says that recovery does not cover stores. I/O errors and erasing partitions on request are left out.
- PartitionTransforms.Settled: duplicates are counted by partition, not by event; a transform may still pick up an input whose erasure is queued.
- PartitionLifecycle.IndexState.Erase: only persisted partitions can be erased; a request that hits a partition while it is being persisted is not modelled.
- Query scheduling, metrics, diagnostics, configuration and all network and file formats.
