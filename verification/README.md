# skbx in Dafny

A model of the algorithmic core of skbx, a packet tracer with a kernel side in
BPF C and a userspace in Rust, with the properties its code and documentation
rely on proved for all inputs and all runs.

* **Cross-host matching.** `SparseMatching` proves that the in-place successive
  shortest path algorithm returns a matching no other matching exceeds, and of
  least cost for its size: `BellmanFord` relaxes over the residual graph of
  `FlowNetwork`, `Augmentation` pushes a unit along the predecessors, and node
  prices (`Matching`, a duality argument) certify the answer. `Sweep` and
  `Correlation` carry this through candidate discovery and the partition by
  flow to whole traces; `CorrelationExists` shows that what an edge claims can
  always be met, and `SharedClock` what the two clocks and the smallest traces
  come to.
* **Loss ledger.** `LossLedger` lets CPUs interleave between any two map
  operations; `LossReadout` lets userspace read while they run. Ghost books
  (`LossBooks`) of true losses make conservation provable, and the worth of the
  verdict on a packet: `LossVerdict` for the footer of a whole capture,
  `SegmentVerdict` for the footer of a rotated segment, which is the difference
  of two checkpoints (`ReliabilityDelta`). `LossWitness` holds the runs on which
  a verdict or a breakdown is off.
* **Scalar filters.** `FilterSyntax`, `FilterParser`, `FilterGrammar`,
  `FilterAccepts` and `FilterPrinter` settle the language of the parser and the
  trees it can return; `FilterDnf`, `KernelFilter` and `FilterCompiler` carry a
  tree's Kleene value through expansion, layout and the in-kernel evaluator;
  `FilterLiteral` (with `ByteOrder`) says which comparisons survive masking and
  byte swapping, and `FilterMeaning` what a compiled filter says about a packet. `FilterTruth` puts rows, texts and
  verdicts in plain numbers and plain logic.
* **Classic BPF.** `Cbpf` gives structured programs a plain meaning, down to the
  bits in `CbpfAlu`; `CbpfVm` proves that the validator accepts exactly the
  closed ones and that the step-bounded interpreter agrees on them;
  `CbpfPrograms` says what every raw opcode does and what small filters match.
* **Evidence stream.** `BoundedMap`, `Routes`, `RouteSummary` and `Replay` are
  the replayer; `Segments` is the rotating writer, and `ReplayMeaning` says what
  both of them promise field by field; `ProbeLoop` is the separate route prober
  and `RouteTrace` its validator.
* **State machines.** `ArcState`, `ArcRuns` and `ControlPlane` are Arc's control
  plane, `ArcAnswers` what its clients may rely on; `Lineage` is the packet
  lineage kept in BPF maps, and `LineageSharing` what it passes on.

Where the code and `docs/arc.md` differ the model follows the code: the cost of
a pair is timestamp distance plus a packet-length penalty plus an evidence
penalty, and equal costs are not broken by event handle.

## Results that carry a condition

Five properties hold only under a condition the code does not check. Each is
stated with that condition, and a concrete run or input shows why it is needed.

* With the footer of a whole capture, fully attributed, the verdict is exact for
  every packet if and only if the footer's ledger adds up to its total
  (`VerdictExactIffLedgerAddsUp`); a loss still in flight makes such a footer
  clear a packet that lost an observation (`UnsettledLossMisleads`).
* With the footer of one rotated segment that comparison is not enough. The
  verdict on a packet is exact if and only if the ledger was late with as many
  of the packet's losses at the later checkpoint as at the earlier one
  (`SegmentVerdictExactIff`). That both checkpoints add up is sufficient
  (`SettledSegmentRulesExactly`), that the segment adds up is only necessary
  (`ExactSegmentAddsUp`): `LateFilingMisleads` is a run whose segment adds up,
  charges a packet that lost nothing in it and clears the one that did. A
  segment that lost nothing rules exactly as well (`EmptySegmentRulesExactly`);
  beyond that no test of the footers decides, because two runs with the same
  checkpoints can be right about every packet and wrong about two
  (`FootersDoNotDecide`).
* A segment's loss breakdown stays within the segment's total if and only if the
  earlier checkpoint lagged no further behind than the later one, and otherwise
  exceeds it by the difference (`SegmentFitsIffLagGrew`, with the run of
  `OneSegmentMayExceed`); summed over a run it always fits
  (`ProbeSegmentsAddUp`, `PacketSegmentsAddUp`).
* One comparison with one literal means what it says on every field value if and
  only if `Meant` holds of it (`ComparisonMeansWhatItSays`). A negative literal
  on a narrow signed field never matches (`MinusOneNeverMatches`), no ordered
  comparison within range is right on a signed bit-field (`SignedBitFields`),
  and in network order an ordered comparison with a literal that fits is right
  only if the field is one byte or the literal is all zeros or all ones
  (`NetworkOrderComparisons`).
* A probe stream is accepted by its own validator if and only if every parsed
  socket error came from ICMP (`AcceptedIffIcmp`); `ForeignErrorIsRefused` is a
  one-probe stream that is refused.

The documentation of the packet ledger (`crates/skbx-contract/src/lib.rs:675-684`)
calls it exhaustive when nothing is unattributed; the first two results say when
it is.

## Model

| member | source | states |
|---|---|---|
| FlowKeys.SameFlow | crates/skbx-mission/src/lib.rs:266-285 | two tuples share a flow key exactly when they join the same two endpoints, in either direction, by the same protocols |
| FlowKeys.StringLeqMeans | crates/skbx-mission/src/lib.rs:342-354 | strings are ordered as dictionaries are: a prefix comes first, and otherwise the first difference decides |
| Sweep.CorrelationCandidates | crates/skbx-mission/src/lib.rs:436-488 | the two-pointer sweep returns exactly the pairs of the quadratic filter, in its order, with saturating arithmetic; the left side has one uncertainty, as a single sensor's events do |
| Sweep.AllPairsHolds | crates/skbx-mission/src/lib.rs:460-488 | the quadratic filter contains a pair exactly when its distance is within window plus uncertainties, with the code's cost |
| FlowNetwork.AddResidualEdge | crates/skbx-mission/src/lib.rs:622-646 | adds an edge and its reverse that name each other, and changes nothing else |
| FlowNetwork.BuildGraph | crates/skbx-mission/src/lib.rs:533-555 | the network has exactly the source, candidate and sink edges, each mirrored, with the candidates' costs |
| BellmanFord.RelaxStep | crates/skbx-mission/src/lib.rs:568-578 | one relaxation keeps the predecessors a tree from the source and every distance attained by a walk |
| BellmanFord.RoundsSuffice | crates/skbx-mission/src/lib.rs:562-583 | after one round fewer than there are nodes no edge can improve a distance, even with negative costs |
| BellmanFord.ShortestPaths | crates/skbx-mission/src/lib.rs:558-583 | distances are least costs of walks, and predecessors form a tree that leads back to the source |
| Augmentation.Augment | crates/skbx-mission/src/lib.rs:589-596 | the predecessor walk reaches the source, moves one unit from source to sink, balances every other node, and adds only edges of zero reduced cost |
| Augmentation.NextPricesFeasible | crates/skbx-mission/src/lib.rs:557-597 | the distances are prices under which the residual graph still has no negative cycle after the augmentation |
| Matching.Duality | crates/skbx-mission/src/lib.rs:519-523 | prices that certify a matching bound the cost of every matching of its size and the size of every matching |
| SparseMatching.StuckIsOptimal | crates/skbx-mission/src/lib.rs:585-611 | when the sink cannot be reached the matching read off is maximum and of least cost |
| SparseMatching.FlowIsBounded | crates/skbx-mission/src/lib.rs:557-597 | the number of augmentations never exceeds either side |
| SparseMatching.ReadOff | crates/skbx-mission/src/lib.rs:599-611 | what is read off the saturated edges is drawn from the candidates and follows the flow |
| SparseMatching.SparseMinCostMatching | crates/skbx-mission/src/lib.rs:524-611 | the result is one-to-one, drawn from the candidates, of maximum size, and of least cost among the matchings of that size, ordered by left index |
| Correlation.BestOfUnion | crates/skbx-mission/src/lib.rs:337-354 | best pairings of disjoint flows make up a best pairing of both |
| Correlation.MatchFlow | crates/skbx-mission/src/lib.rs:342-354 | within one flow the pairing is best among all pairings of the whole traces that stay in the flow |
| Correlation.MatchFlows | crates/skbx-mission/src/lib.rs:318-354 | the pairing over all flows is maximum, then cheapest, among all one-to-one pairings of events with equal flow within the window |
| Correlation.CorrelatePair | crates/skbx-mission/src/lib.rs:318-413 | the edge counts the pairs of such a best pairing, is Correlated exactly when all of them are strong, and shows its events in time order |
| Correlation.UnknownMeansNoPair | crates/skbx-mission/src/lib.rs:356-362 | an edge is Unknown exactly when the traces admit no pair at all |
| Correlation.ClaimsAgree | crates/skbx-mission/src/lib.rs:356-413 | two edges for the same traces may show different best pairings but agree on the number of matches, the total cost and on being Unknown |
| Correlation.CorrelateAdjacent | crates/skbx-mission/src/lib.rs:300-316 | one edge per neighbouring pair of targets; a missing trace leaves the edge Unknown |
| CorrelationExists.BestExists | crates/skbx-mission/src/lib.rs:519-523 | any two traces have a best pairing, of maximum size and least cost among those |
| CorrelationExists.SoundServicesExist | crates/skbx-mission/src/lib.rs:300-316 | there is a way to correlate that meets every edge's claims for all targets, traces and windows |
| SharedClock.ComparesEventsWithTuples | crates/skbx-mission/src/lib.rs:415-430 | exactly the events with a tuple are compared, in order, with everything they carry and at their unix time |
| SharedClock.MonotonicOriginIsFree | crates/skbx-mission/src/lib.rs:240-243 | shifting a host's monotonic clock, start and events alike, changes nothing that is compared |
| SharedClock.UnixOriginMoves | crates/skbx-mission/src/lib.rs:240-243 | starting later in unix time moves every event by as much |
| SharedClock.OneEventEach | crates/skbx-mission/src/lib.rs:318-413 | of two one-event traces the edge is Unknown unless both are of one conversation and their unix times differ by at most window and uncertainties; then it is one match, Correlated at 9000 if length and headers agree and a candidate at 5500 otherwise |
| SharedClock.NearerIsMatched | crates/skbx-mission/src/lib.rs:464-482 | with two events to choose from the edge shows the one less far off, counting time, a millisecond per byte of length and the window for headers that differ |
| SharedClock.EdgeMeans | crates/skbx-mission/src/lib.rs:356-413 | an edge is Unknown without pairs, Correlated exactly when all its pairs are strong, and shows the first eight |
| LossLedger.StepKeepsInvariant | crates/skbx-sensor/bpf/skbx.bpf.c:543-595 | every map operation of every CPU keeps the books balanced with both tables and all counters, through the insertion race and full tables |
| LossReadout.Conservation | crates/skbx-sensor/bpf/skbx.bpf.c:543-595 | in every run true losses per packet and site are table count plus unattributed plus in flight, and the totals add up likewise |
| LossReadout.SiteConservation | crates/skbx-sensor/bpf/skbx.bpf.c:574-595 | the same for the per-CPU probe-site table, site by site and in total: what the table holds, the unattributed failures and the CPUs still counting make up all reserve failures |
| LossReadout.GivenUpOnlyWhenFull | crates/skbx-sensor/bpf/skbx.bpf.c:543-595 | a loss is left unattributed only by a table that is really full, with 4096 packets at sites or 512 sites; the insertion race never costs one |
| LossLedger.FilingEnds | crates/skbx-sensor/bpf/skbx.bpf.c:543-595 | filing a loss takes at most six map operations, whatever the other CPUs do |
| LossReadout.Collect | crates/skbx-sensor/src/live.rs:684-720 | a key read twice keeps its last reading and a zero reading is dropped |
| LossBooks.LastReadingCounts | crates/skbx-sensor/src/live.rs:684-720 | the last reading of a key that is not zero is the one that counts |
| LossReadout.ToLedger | crates/skbx-sensor/src/live.rs:659-720 | the ledger lists every key once with its count, in the order of the readout: packets by key, probes heaviest first |
| LossVerdict.ReadFooter | crates/skbx-sensor/src/raw.rs:628-653 | readings of both tables and counters, taken while the kernel runs, are put together into a footer that says exactly what was read: a line for exactly the CPUs that lost something, the worst probe and the smallest packet first, and the other counters as they came |
| LossBooks.WalkIsReadout | crates/skbx-sensor/src/live.rs:626-720 | a walk over live keys that may repeat keys reads a ledger between the table at its start and at its end |
| LossVerdict.AttributionFits | crates/skbx-cli/src/main.rs:1184-1195 | attribution read before totals never exceeds them, in sum or for any packet |
| LossVerdict.SiteAttributionFits | crates/skbx-contract/src/lib.rs:658-665 | over a whole capture the per-probe breakdown plus the unattributed failures never exceeds the total |
| Reliability.LedgerSums | crates/skbx-contract/src/lib.rs:774-781 | the losses of a packet are the entries of the ledger that name it |
| Reliability.WithheldExactly | crates/skbx-contract/src/lib.rs:749-772 | no ruling on any packet without a footer or when one of the five counters of unfiled losses is positive, and otherwise one on every packet |
| LossVerdict.VerdictExactIffLedgerAddsUp | crates/skbx-core/src/replay.rs:646-657 | a fully attributed footer of a whole capture rules exactly on every packet if and only if its ledger adds up to its total |
| LossVerdict.QuietVerdictIsExact | crates/skbx-core/src/replay.rs:646-657 | for a whole capture, with no loss in flight or landing during the readout the ruling is exact: cleared means nothing lost, and a count is the true count |
| LossVerdict.ClearedMeansNothingSettled | crates/skbx-core/src/replay.rs:646-657 | in any whole capture a cleared packet had no settled loss when the readout began |
| LossVerdict.VerdictSaysWhatWasLost | crates/skbx-core/src/replay.rs:646-657 | the ruling is withheld exactly when some observation was given up or lost to recursion, decoding, enrichment or output; a packet is cleared only if no such loss happened at all, and in a quiet capture without one it is ruled on exactly |
| LossVerdict.CompleteMeansNothingLost | crates/skbx-contract/src/lib.rs:784-792 | a capture is complete exactly when no observation of any packet was lost at any stage, and then every packet is cleared |
| SegmentVerdict.SegmentVerdictExactIff | crates/skbx-cli/src/main.rs:1164-1182 | the verdict read from a fully attributed segment footer is exact for a packet if and only if the ledger was late with as many of its losses at both checkpoints |
| SegmentVerdict.SettledSegmentRulesExactly | crates/skbx-core/src/replay.rs:646-706 | if both checkpoints add up, the segment between them rules exactly on every packet |
| SegmentVerdict.EmptySegmentRulesExactly | crates/skbx-core/src/replay.rs:646-706 | a fully attributed segment with an empty total and ledger rules exactly on every packet, even if neither checkpoint adds up |
| SegmentVerdict.QuietSegmentRulesExactly | crates/skbx-core/src/replay.rs:646-706 | so it does if both readouts were quiet |
| SegmentVerdict.ExactSegmentAddsUp | crates/skbx-core/src/replay.rs:646-706 | a segment that rules exactly on every packet adds up itself |
| SegmentVerdict.SegmentClearedMeansNothingFiled | crates/skbx-core/src/replay.rs:646-706 | a packet the segment clears had no loss filed between the earlier ledger and the start of the later walk |
| LossWitness.UnsettledLossMisleads | crates/skbx-contract/src/lib.rs:766-772 | a run whose footer is fully attributed and clears a packet that lost an observation |
| LossWitness.LateFilingMisleads | crates/skbx-cli/src/main.rs:1164-1182 | a run with a segment footer that is fully attributed and adds up, charges a packet that lost nothing in the segment and clears the one that lost an observation |
| LossWitness.FootersDoNotDecide | crates/skbx-cli/src/main.rs:1164-1182 | two runs with the same two checkpoints and the same segment footer, which is exact for every packet of one and wrong about two packets of the other |
| FilterParser.BooleanParser.ParseAll | crates/skbx-core/src/filter.rs:142-235 | the cursor-and-counter parser computes the parser function on the whole text |
| FilterParser.BooleanParser.ParsePrimaryHere | crates/skbx-core/src/filter.rs:171-216 | a primary leaves the cursor, the clause counter and the nesting as the parser function says, also on errors |
| FilterParser.BooleanParser.ScanClause | crates/skbx-core/src/filter.rs:189-203 | a clause ends at the next operator or closing parenthesis and loses its trailing whitespace |
| FilterGrammar.PrintedTextParses | crates/skbx-core/src/filter.rs:142-235 | a tree printed with any whitespace and needed parentheses parses back to itself, within four clauses and sixteen levels; beyond the clauses it is refused as too many, beyond the levels as invalid |
| FilterAccepts.AcceptsExactlyTheGrammar | crates/skbx-core/src/filter.rs:142-235 | a text parses to a tree if and only if it spells that tree in the grammar within both bounds |
| FilterPrinter.EveryTreeIsWritten | crates/skbx-core/src/filter.rs:142-235 | every tree of proper clauses has a printed text, which parses back to the tree up to four clauses and is refused beyond |
| FilterPrinter.ParserImage | crates/skbx-core/src/filter.rs:142-235 | the trees the parser can return are exactly those of at most four proper clauses, whatever their nesting |
| FilterTruth.AndBindsTighter | crates/skbx-core/src/filter.rs:155-169 | in literal texts `&&` binds tighter than `||` |
| FilterTruth.Grouping | crates/skbx-core/src/filter.rs:155-188 | in literal texts parentheses override that, and both operators associate to the left |
| FilterDnf.DnfKeepsValue | crates/skbx-core/src/filter.rs:238-264 | the expansion has the tree's three-valued value under every assignment |
| FilterDnf.SubexpressionsAreSmaller | crates/skbx-core/src/filter.rs:238-264 | an operand's expansion is never larger than the whole expansion |
| FilterDnf.BoundedDnf | crates/skbx-core/src/filter.rs:238-264 | succeeds with the full expansion exactly when that has at most four literals, so inner checks reject nothing extra |
| KernelFilter.ScalarFilterMatch | crates/skbx-sensor/bpf/skbx.bpf.c:1085-1180 | the loop over conditions gives the verdict of the row-by-row semantics, including malformed groups, unknown comparisons and oversized counts |
| KernelFilter.RunIsValue | crates/skbx-sensor/bpf/skbx.bpf.c:1085-1180 | on contiguous groups the verdict is 1, 0 or -1 as the Kleene value of the groups, whatever can be read |
| FilterTruth.UnsignedRow | crates/skbx-sensor/bpf/skbx.bpf.c:1148-1180 | the verdict of one row is its comparison, operator by operator for the six codes, and -1 for any other |
| FilterTruth.SignedRow | crates/skbx-sensor/bpf/skbx.bpf.c:1122-1147 | the same for signed rows between the numbers in two's complement |
| FilterTruth.OddRows | crates/skbx-sensor/bpf/skbx.bpf.c:1093-1121 | no rows match anything, an unreadable row decides nothing, and a first row in group two or later is refused |
| FilterTruth.GroupOutOfTurn | crates/skbx-sensor/bpf/skbx.bpf.c:1104-1115 | a row that neither stays in its group nor opens the next is refused, unless a group has matched before it |
| FilterTruth.VerdictIsSafe | crates/skbx-sensor/bpf/skbx.bpf.c:1085-1180 | a definite verdict holds whatever the fields that could not be read hold, and is ordinary true or false when all were read |
| FilterTruth.PortEquals | crates/skbx-core/src/filter.rs:360-373 | equality with a field in network order compares its bytes as they come on the wire |
| FilterCompiler.ResolveScalarFilter | crates/skbx-core/src/filter.rs:66-115 | nothing for a blank text; otherwise rows exactly when the text is short enough, parses, expands within bounds and resolves |
| FilterTruth.LengthsAdd | crates/skbx-core/src/filter.rs:72-77 | the length that is bounded adds up over the text |
| FilterTruth.LengthOfOne | crates/skbx-core/src/filter.rs:72-77 | and is one to four bytes for each character, as UTF-8 has it |
| FilterCompiler.CompilationIsCorrect | crates/skbx-core/src/filter.rs:86-111 | the kernel's verdict on the compiled rows is the tree's Kleene value |
| FilterCompiler.TextIsCorrect | crates/skbx-core/src/filter.rs:66-115 | the same from the printed text, whatever its whitespace and parentheses |
| FilterLiteral.ComparisonMeansWhatItSays | crates/skbx-core/src/filter.rs:352-373 | one comparison with one literal comes out as written, for every field value, if and only if the stated condition holds of operator, literal, width, sign and byte order; bit-fields included |
| FilterMeaning.LiteralMeansWhatItSays | crates/skbx-core/src/filter.rs:352-373 | every comparison with a literal is right if and only if the literal is in the stated range for the field |
| FilterLiteral.UnmeantDiffers | crates/skbx-core/src/filter.rs:352-373 | outside the condition some field value makes the comparison come out wrong |
| FilterMeaning.MinusOneNeverMatches | crates/skbx-core/src/filter.rs:357-359 | `== -1` on a 32-bit signed field that holds -1 is false |
| FilterMeaning.SignedBitFields | crates/skbx-sensor/bpf/skbx.bpf.c:1060-1083 | on a signed bit-field, read without its sign, a literal in range is right for equality tests and wrong for every ordered comparison |
| FilterMeaning.FilterIsCorrect | crates/skbx-core/src/filter.rs:86-111 | if every comparison meets the condition the kernel's verdict is the Kleene value of the text over the numbers the fields hold, in either byte order |
| FilterMeaning.NetworkOrderComparisons | crates/skbx-core/src/filter.rs:360-373 | with a literal that fits, a comparison on a network-order field is right if and only if it is an equality test, the field is one byte, or the literal is all zeros or all ones |
| ByteOrder.ReadingsDisagree | crates/skbx-core/src/filter.rs:360-373 | for every other literal some field lies on different sides of it in the two byte orders |
| Cbpf.CompileForLinktype | crates/skbx-cli/src/pcap_filter.rs:65-94 | succeeds exactly on accepted instruction lists and copies them unchanged |
| CbpfVm.ValidInstructionDecodes | crates/skbx-cli/src/pcap_filter.rs:111-168 | the mask tests accept exactly the encodings of instructions whose slots and targets fit where they stand |
| CbpfVm.AcceptsExactlyClosedPrograms | crates/skbx-cli/src/pcap_filter.rs:65-168 | a list is accepted exactly when it encodes a closed structured program of at most 4096 instructions that ends in a return |
| CbpfVm.CbpfLoad | crates/skbx-sensor/bpf/skbx.bpf.c:779-807 | loads one, two or four bytes in network order, and nothing when out of bounds, unreadable or of another width |
| CbpfVm.LoadValue | crates/skbx-sensor/bpf/skbx.bpf.c:830-857 | every load mode finds what its meaning says, and fails only on a packet fault or an index overflow |
| CbpfVm.Alu | crates/skbx-sensor/bpf/skbx.bpf.c:873-899 | the dispatch on the operation bits computes the operation the decoder names |
| CbpfAlu.ComputeMeans | crates/skbx-sensor/bpf/skbx.bpf.c:873-899 | sums, differences, products and negations agree with the unbounded ones modulo 2^32, division and remainder truncate and fail only on zero, and the bit operations and shifts are what they are bit by bit |
| CbpfVm.JumpTarget | crates/skbx-sensor/bpf/skbx.bpf.c:901-925 | a jump moves forward inside the program; an accepted one is never refused |
| CbpfVm.TakeTurn | crates/skbx-sensor/bpf/skbx.bpf.c:819-938 | one turn on a fitting instruction is one step of its plain meaning |
| CbpfVm.RunCbpf | crates/skbx-sensor/bpf/skbx.bpf.c:810-941 | on every accepted program the bounded interpreter matches exactly when the unbounded, unchecked meaning returns a nonzero value; no bound or check interferes |
| CbpfPrograms.ConstantFilters | crates/skbx-sensor/bpf/skbx.bpf.c:899-927 | the smallest filter of each conditional jump with a constant passes exactly when equal, greater, at least, or sharing a bit |
| CbpfPrograms.IndexFilters | crates/skbx-sensor/bpf/skbx.bpf.c:899-927 | and with the index register |
| CbpfPrograms.EtherTypeFilter | crates/skbx-sensor/bpf/skbx.bpf.c:779-927 | the filter for an EtherType passes exactly the frames that carry it |
| CbpfPrograms.Jumps | crates/skbx-sensor/bpf/skbx.bpf.c:899-923 | every conditional opcode goes to its first target if its comparison holds and to its second otherwise |
| CbpfPrograms.JumpsAlways | crates/skbx-sensor/bpf/skbx.bpf.c:901-902 | `ja` skips as many instructions as it says |
| CbpfPrograms.Returns | crates/skbx-sensor/bpf/skbx.bpf.c:925-926 | `ret` gives its constant or the accumulator |
| CbpfPrograms.Moves | crates/skbx-sensor/bpf/skbx.bpf.c:830-863 | the register moves and the loads of constants and of the packet length, opcode by opcode |
| CbpfPrograms.Remembers | crates/skbx-sensor/bpf/skbx.bpf.c:836-871 | the sixteen scratch slots are written and read by the four opcodes for them, and there is no seventeenth |
| CbpfPrograms.LoadsBytes | crates/skbx-sensor/bpf/skbx.bpf.c:779-863 | the six packet loads read one, two or four bytes in network order, from a fixed place or counted from the index register |
| CbpfPrograms.LoadsFail | crates/skbx-sensor/bpf/skbx.bpf.c:779-863 | and end the program without a match where a byte is missing |
| CbpfPrograms.LoadsHeaderLength | crates/skbx-sensor/bpf/skbx.bpf.c:848-854 | the header-length load takes the low four bits times four |
| CbpfPrograms.Computes | crates/skbx-sensor/bpf/skbx.bpf.c:873-897 | every arithmetic opcode does what its operation means |
| CbpfPrograms.NoInstruction | crates/skbx-cli/src/pcap_filter.rs:111-168 | the modes, sizes and operations left over are no instruction |
| CbpfPrograms.GoesOn | crates/skbx-sensor/bpf/skbx.bpf.c:810-941 | in an accepted program each instruction has that effect, and the program goes on from there |
| BoundedMap.Bounded.Insert | crates/skbx-core/src/bounded.rs:33-43 | moves the key to the end of the list and drops the oldest entry above capacity, counting that eviction, and returns the old value |
| BoundedMap.Bounded.EvictToCapacity | crates/skbx-core/src/bounded.rs:75-98 | never runs out of queue, evicts at most the oldest entry, and leaves a queue of at most four times the capacity |
| BoundedMap.Bounded.Get | crates/skbx-core/src/bounded.rs:45-47 | finds the value in the list |
| BoundedMap.Bounded.Remove | crates/skbx-core/src/bounded.rs:55-57 | removes the key from the list and returns its value |
| BoundedMap.EntriesMatchMap | crates/skbx-core/src/bounded.rs:33-98 | every live key has exactly one current queue node |
| Routes.ChunksAreTheEvents | crates/skbx-core/src/replay.rs:130-157 | the batch definition loses, adds and reorders no event |
| Routes.ChunksSplitAtRestarts | crates/skbx-core/src/replay.rs:137-148 | it splits exactly before the events that start again |
| Routes.ObserveEvent | crates/skbx-core/src/replay.rs:130-157 | one event changes the bounded map, the completed routes and the evictions as the step function says |
| Routes.RoutesBalance | crates/skbx-core/src/replay.rs:130-157 | always routes started are completed plus live plus evicted |
| Routes.RoomForAll | crates/skbx-core/src/replay.rs:97-105 | with capacity for every identity nothing is evicted and the live entries are the identities seen |
| Routes.StreamingIsBatch | crates/skbx-core/src/replay.rs:28-52 | then each identity's completed and live routes are the routes of its chunks, hops cut at 256 and marked truncated |
| RouteSummary.TalliesAddUp | crates/skbx-core/src/replay.rs:299-342 | pattern counts sum to the number of routes |
| RouteSummary.SummarizeRoutes | crates/skbx-core/src/replay.rs:283-379 | one pattern per shape with its count, most frequent first with ties by handle, and a consensus whose confidence is the floored share in basis points, which is ambiguous exactly on a tie and otherwise marks every other pattern an outlier |
| Replay.LinesInjective | crates/skbx-core/src/replay.rs:65-246 | a stream spells at most one capture |
| Replay.Replay | crates/skbx-core/src/replay.rs:65-246 | accepts exactly the streams that spell a valid capture (one header, contiguous valid events, at most one matching footer) and summarises that capture, patterns and consensus included |
| Replay.PatternsCountRoutes | crates/skbx-core/src/replay.rs:208-229 | the patterns of a replayed stream count every route that was started and not evicted |
| ReplayMeaning.CaptureMeans | crates/skbx-core/src/replay.rs:65-281 | a capture is accepted exactly when its events, at most a million, are numbered on without a gap and each is evidence of it, and its footer, if there is one, agrees with the header and with the events and claims completeness only without loss |
| ReplayMeaning.SummaryTells | crates/skbx-core/src/replay.rs:208-246 | the summary repeats header and footer, and its packets are those of the events |
| ReplayMeaning.RoomForEveryPacket | crates/skbx-core/src/replay.rs:87-95 | with room in the header for every packet, and no more than 65536 of them, no route is evicted and every pass of every packet is there |
| ReplayMeaning.CacheIsBounded | crates/skbx-core/src/replay.rs:87-95 | the cache never holds more than the header and the bound allow, nor less than one |
| ReplayMeaning.LineageIsIdentity | crates/skbx-core/src/replay.rs:381-387 | events of one lineage are of one packet whatever buffer they saw |
| ReplayMeaning.RouteTells | crates/skbx-core/src/replay.rs:28-52 | a route lists the functions of its pass, up to 256, and where it began and ended |
| ReplayMeaning.PassesSplit | crates/skbx-core/src/replay.rs:132-148 | a new pass begins exactly where a filter match sees the same buffer in the function the pass began with |
| Segments.SegmentedTraceWriter.Open | crates/skbx-cli/src/segmented_output.rs:29-89 | opens exactly when the bounds and the header leave room |
| Segments.SegmentedTraceWriter.WriteEvent | crates/skbx-cli/src/segmented_output.rs:91-135 | accepts an event exactly when it is next in sequence and fits here or after a rotation; appends exactly that event, closes a full segment with the reliability at the boundary, and otherwise changes no output |
| Segments.SegmentedTraceWriter.FinishSegment | crates/skbx-cli/src/segmented_output.rs:152-179 | closes the open segment with a matching footer exactly when it fits |
| Segments.SegmentedTraceWriter.Rotate | crates/skbx-cli/src/segmented_output.rs:109-131 | starts the next segment where the closed one said, and keeps all events written |
| Segments.SegmentedTraceWriter.Finish | crates/skbx-cli/src/segmented_output.rs:137-144 | leaves a finished chain that holds exactly the events written, every segment within the byte bound |
| Segments.SegmentsReplayAlone | crates/skbx-core/src/replay.rs:248-281 | a segment of a finished run is a valid capture on its own if and only if its events are valid, they are at most a million, and it is not a last segment that stopped with a rotation; otherwise its lines are refused |
| Segments.EndedRunReplays | crates/skbx-core/src/replay.rs:248-281 | every segment of a run of valid events that did not stop with a rotation replays, but for segments of more than a million events |
| Segments.RotationIsNotAnEnd | crates/skbx-core/src/replay.rs:270-274 | a last segment that stops with a rotation is refused |
| Segments.ChainCounts | crates/skbx-cli/src/segmented_output.rs:91-135 | sequence numbers run through all segments without a gap |
| ReplayMeaning.SegmentsTell | crates/skbx-cli/src/segmented_output.rs:146-172 | headers and footers of a finished run say which segment it is, how many events came before, how many it holds, whether any observation was lost, why it stopped and where the next goes on |
| ReliabilityDelta.SortedDelta | crates/skbx-cli/src/main.rs:1770-1803 | the sorted ledger of a segment is a rearrangement of the difference of two checkpoints |
| ReliabilityDelta.SegmentReliability | crates/skbx-cli/src/main.rs:1724-1766 | the record of a segment is the difference of two checkpoints field by field, with its ledgers in order |
| ReliabilityDelta.FieldsAddUp | crates/skbx-cli/src/main.rs:1724-1766 | counter by counter, and CPU by CPU, what a segment reports and what had been counted before make up what has been counted since |
| ReliabilityDelta.CountOfDelta | crates/skbx-cli/src/main.rs:1770-1803 | site by site the difference of the two counts |
| ReliabilityDelta.CountsSurviveReordering | crates/skbx-cli/src/main.rs:1847-1880 | reordering a ledger changes no site's count |
| ReliabilityDelta.DeltasTelescope | crates/skbx-cli/src/main.rs:1724-1768 | the segments of a run sum to the last checkpoint at every site |
| ReliabilityDelta.SegmentsAddUp | crates/skbx-cli/src/main.rs:1724-1880 | and as a whole, site by site and in total |
| ReliabilityDelta.NoZeroLines | crates/skbx-cli/src/main.rs:1784-1800 | no segment lists a site that lost nothing |
| ReliabilityDelta.CpuDeltaCounts | crates/skbx-cli/src/main.rs:1887-1912 | CPU by CPU the difference of both counts, with no line where both are zero |
| ReliabilityDelta.CpuDeltasTelescope | crates/skbx-cli/src/main.rs:1887-1912 | the per-CPU differences of a run sum to the last checkpoint |
| ReliabilityDelta.SummedSegmentsFit | crates/skbx-contract/src/lib.rs:667-673 | summed over a run, attributed plus unattributed stays within the total if it does at the end |
| ReliabilityDelta.SegmentFitsIff | crates/skbx-contract/src/lib.rs:667-673 | one segment's breakdown stays within its total exactly when the earlier checkpoint lagged no further behind, and otherwise exceeds it by the difference |
| SegmentVerdict.SegmentFitsIffLagGrew | crates/skbx-contract/src/lib.rs:667-673 | the same for the probe and packet breakdowns of two readouts of one kernel run |
| SegmentVerdict.StartIsLog | crates/skbx-cli/src/main.rs:1107-1182 | the default record a run starts from is a checkpoint: what a reading before the first loss would say |
| SegmentVerdict.LogGrows | crates/skbx-cli/src/main.rs:1107-1182 | a readout begun after the last one is over is the next checkpoint of the run |
| SegmentVerdict.LogCheckpoints | crates/skbx-cli/src/main.rs:1107-1182 | successive readouts of one run have distinct sites and never shrink, as the difference of checkpoints needs |
| SegmentVerdict.PacketSegmentsAddUp | crates/skbx-contract/src/lib.rs:667-673 | over the segments of one run the packet ledgers add up to the last checkpoint and stay within the summed totals |
| SegmentVerdict.ProbeSegmentsAddUp | crates/skbx-contract/src/lib.rs:667-673 | and so do the probe breakdowns |
| LossWitness.OneSegmentMayExceed | crates/skbx-contract/src/lib.rs:667-673 | a run with two readouts between which both breakdowns exceed the segment's total |
| RouteTrace.BoundedUdp | crates/skbx-route/src/lib.rs:79-143 | a plan exists exactly for parameters within every bound, with at most 256 packets |
| RouteTrace.PlanMeans | crates/skbx-route/src/lib.rs:79-143 | the bounds of a plan in numbers |
| RouteTrace.OutcomesMean | crates/skbx-route/src/lib.rs:1338-1354 | what a report says of a probe: reached exactly by port unreachable from the target, and only ICMP says anything |
| RouteTrace.ProbesTell | crates/skbx-route/src/lib.rs:1172-1262 | an observation carries its number, the responder and the ICMP type and code |
| RouteTrace.CountersCount | crates/skbx-route/src/lib.rs:1151-1268 | the counters are the numbers of probes sent, answered, met with silence and failed, and the target is reached exactly when it refused the port of one |
| ProbeLoop.ProbeHop | crates/skbx-route/src/lib.rs:1151-1268 | a hop's observations are the next probes in sequence, counted as the loop counts them, each sent after a budget check that found time left, and all of them unless a check did not |
| ProbeLoop.TraceUdp | crates/skbx-route/src/lib.rs:1144-1297 | the stream holds the hops from the first on in order and exactly the probes made, every hop whole but the last, until the target answers, the plan is done or, if the clock does not run backwards, the first check that finds the budget spent; the footer carries the counters and that reason |
| ProbeLoop.TraceIsDetermined | crates/skbx-route/src/lib.rs:1144-1297 | plan, clock and answers determine the hops, their probes and the reason to stop |
| RouteTrace.CountsDifferByMisfiled | crates/skbx-route/src/lib.rs:1338-1354 | loop counters and hop outcomes differ exactly by the parsed errors that are not ICMP, and attempted is replies plus timeouts plus local errors |
| RouteTrace.ReplayRoute | crates/skbx-route/src/lib.rs:698-856 | accepts exactly the framed streams of valid hops whose footer matches them |
| RouteTrace.RouteMeans | crates/skbx-route/src/lib.rs:698-856 | a stream is accepted exactly when it is framed by one trace, every hop record has its handle, a TTL above the last and within the plan and no more probes than planned, and the footer counts outcomes as they are |
| ProbeLoop.AcceptedIffIcmp | crates/skbx-route/src/lib.rs:698-856 | what the loop writes is accepted if and only if every parsed error has ICMP origin |
| ProbeLoop.ForeignErrorIsRefused | crates/skbx-route/src/lib.rs:1338-1354 | one parsed error of another origin, and the stream the loop writes is refused |
| ArcRuns.StepKeepsInvariant | crates/skbx-arc/src/state.rs:78-337 | every operation keeps assignments, artifacts, leases and statuses consistent |
| ArcRuns.RunKeepsInvariant | crates/skbx-arc/src/state.rs:78-337 | so does every run from the empty control plane |
| ArcRuns.RunCorrelates | crates/skbx-arc/src/state.rs:299-310 | in every state of every run a mission with artifacts shows exactly what correlating its stored traces gives, and one without shows nothing |
| ArcRuns.RunEvolves | crates/skbx-arc/src/state.rs:78-337 | over any stretch of a run ended missions never change, accepted artifacts are never replaced, and new leases have higher generations |
| ArcRuns.GenerationsNameLeases | crates/skbx-arc/src/state.rs:190-214 | below saturation a generation names one lease for ever |
| ArcRuns.MissionFacts | crates/skbx-arc/src/state.rs:218-337 | assignments cover exactly the targets once armed, submitted means an artifact is stored, a mission has ended exactly when all targets submitted and is complete exactly when all their artifacts are; its correlations equal those recomputed from the stored traces, and claim what `Correlation.CorrelateAdjacent` lets them claim if correlating does |
| ArcControl.ControlPlane.RegisterSensor | crates/skbx-arc/src/state.rs:78-94 | records the sensor, keeping its state and mission if it was known |
| ArcControl.ControlPlane.CreateMission | crates/skbx-arc/src/state.rs:96-127 | adds a draft for a valid request with a new name and registered targets, and otherwise changes nothing |
| ArcControl.ControlPlane.ArmMission | crates/skbx-arc/src/state.rs:129-152 | arms exactly the drafts, with a pending assignment for every target; the failure half way through the targets cannot happen |
| ArcControl.ControlPlane.NextAssignment | crates/skbx-arc/src/state.rs:154-216 | answers for the first waiting mission by name: a live lease unchanged, otherwise a lease of the next generation for thirty seconds, with mission and sensor marked |
| ArcControl.ControlPlane.SubmitArtifact | crates/skbx-arc/src/state.rs:218-337 | answers as the order of checks says, stores a first artifact with the manifest made of it, repeats the manifest for the same hash and refuses another, and changes nothing unless it stores |
| ArcAnswers.RetryIsAnswered | crates/skbx-arc/src/state.rs:263-271 | once an upload has been stored, a later one for the slot that passes the limits changes nothing: with the same hash it is answered with the first manifest, with another it is a conflict; the same bytes always pass |
| ArcAnswers.FirstIsStored | crates/skbx-arc/src/state.rs:262-335 | an upload that is stored is answered with mission, sensor, hash, completeness and event count, and that is what is kept |
| ArcAnswers.RefusalsHaveReasons | crates/skbx-arc/src/state.rs:218-271 | each refusal of an upload is given exactly for its own reason, in the order of the checks |
| ArcAnswers.PollMeans | crates/skbx-arc/src/state.rs:154-216 | a poll during a live lease changes no lease, and otherwise issues the next generation for thirty seconds with the plan of the mission |
| ArcAnswers.LeaseLasts | crates/skbx-arc/src/state.rs:174-214 | a poll within thirty seconds of a lease finds the same generation and plan, one at or after that the next |
| ArcAnswers.RequestMeans | crates/skbx-mission/src/lib.rs:42-113 | a mission request is valid exactly within the documented bounds and with proper names |
| ArcAnswers.MissionsAreBounded | crates/skbx-mission/src/lib.rs:42-113 | every mission in every run is within those bounds |
| ArcAnswers.IdentifierMeans | crates/skbx-mission/src/lib.rs:672-685 | names are one to sixty-four ASCII letters, digits and four signs |
| ArcControl.CountDecides | crates/skbx-arc/src/state.rs:308-319 | counting submissions against targets is asking whether all targets have submitted |
| Lineage.StepKeepsInvariant | crates/skbx-sensor/bpf/skbx.bpf.c:1236-1315 | every map operation of every CPU, and every eviction, leaves only identities whose origin the log vouches for |
| Lineage.SharingIsDescent | crates/skbx-sensor/bpf/skbx.bpf.c:1392-1434 | in every run a stored identity was issued, and two places share one if and only if they descend from the same issue |
| Lineage.BuffersShareByCopying | crates/skbx-sensor/bpf/skbx.bpf.c:2161-2270 | two buffer addresses share an identity only if one of them got it from a data head, a clone or a replacement |
| Lineage.RunIssuesOnce | crates/skbx-sensor/bpf/skbx.bpf.c:1296-1305 | no run issues an identity twice |
| LineageSharing.CloneIsRemembered | crates/skbx-sensor/bpf/skbx.bpf.c:2183-2195 | however the CPUs interleave, entering a clone puts the original's identity in the thread's slot |
| LineageSharing.CloneIsTracked | crates/skbx-sensor/bpf/skbx.bpf.c:2198-2216 | leaving it gives the clone, and then its data head, the identity in the slot, and empties the slot |
| LineageSharing.ReplacementIsRemembered | crates/skbx-sensor/bpf/skbx.bpf.c:2218-2236 | entering a replacement remembers the identity and the slot |
| LineageSharing.ReplacementIsTracked | crates/skbx-sensor/bpf/skbx.bpf.c:2251-2270 | leaving it gives the new buffer and its data head that identity |
| LineageSharing.HeadHandsOver | crates/skbx-sensor/bpf/skbx.bpf.c:1261-1279 | an untracked buffer takes over the identity of its data head |
| LineageSharing.FirstMatchIsTracked | crates/skbx-sensor/bpf/skbx.bpf.c:1289-1309 | a matching buffer seen for the first time is tracked under the next identity, and one already tracked keeps its own |
| LineageSharing.XdpMatchIsTracked | crates/skbx-sensor/bpf/skbx.bpf.c:1417-1429 | a match at XDP puts the next identity on the data head |
| LineageSharing.LifetimeEnds | crates/skbx-sensor/bpf/skbx.bpf.c:2162-2170 | a buffer that goes away is forgotten, and nothing else |

## Left out

- Distances in the matching are unbounded integers; the source uses `i128` with saturation, which costs below 2^64 never reach.
- The sort of the matching by left and right index is the identity on what is read off in that order; it is not modelled as a step.
- Edge identifiers, basis strings and content hashes: digests are abstract functions, and no property assumes they are injective.
- Correlation.CorrelateAdjacent: states what each edge may claim of the two traces rather than one fixed edge, because equal-cost pairings are not ordered by anything but candidate order.
- Correlation.ClaimsAgree: says what the claims alone determine. That correlating twice gives the same edges, level and shown events included, is determinism of the code, which the control plane has because it correlates by a function.
- ArcRuns.MissionFacts: correlating is an abstract function, as replaying, hashing and parsing are; that it keeps the claims proved of `Correlation.CorrelateAdjacent` is a condition, which `CorrelationExists.SoundServicesExist` shows can be met.
- Loss counters and the lineage sequence do not wrap at 2^64, and each per-CPU structure is read at one moment.
- A CPU runs one probe at a time; nested interrupts on one CPU are not modelled.
- A value found by a map lookup in `Lineage` is read together with the lookup; an element that an eviction reuses between the two is not modelled.
- Byte, segment-event and hop counters are unbounded naturals, except where a bound is part of a check.
- BoundedMap.Bounded.Insert: requires fewer than 2^64 insertions, because a wrapped generation number can match a stale node.
- FilterCompiler.ResolveScalarFilter: splitting a clause into field, operator and literal text, number parsing and the BTF lookup are one abstract resolver; the order in which their errors are reported is not modelled.
- FilterLiteral.ComparisonMeansWhatItSays: leaves out fields of several bytes that are signed and in network order, because no kernel type is both.
- Serialization: envelopes are datatypes and their length is an abstract function; blank lines and malformed JSON do not occur.
- Replay.Replay: the summary leaves out the tallies per function and per process and the number of packets lost entirely, which are counts.
- RouteSummary.SummarizeRoutes: leaves out the example lists and sequence spans of a pattern, and `explain` its neighbourhood: list truncation.
- File rotation, compression and pruning: the sink is a sequence of segments.
- ReliabilityDelta.SegmentReliability: the two sort orders of a segment's ledgers are parameters; every property holds for any order.
- Probe timing, round-trip times and enrichment; an I/O error while polling or reading the error queue, which ends a trace with no stream at all.
- Clocks and budgets are arbitrary inputs; the network's answers to probes are an arbitrary function of the probe number.
- ProbeLoop.ProbeHop: takes the socket's answer for each probe as given rather than the system calls that produce it.
- The console snapshot and its timeline, and HTTP transport.
- XDP entry and exit pairing, stack anchors and map-associated events, which only read lineage.
- Attaching probes, ring buffers, symbol tables and packet field reading.
