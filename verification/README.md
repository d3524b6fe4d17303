# Verified model of the secret-shared machine and its protocols

This project models, in Dafny, the deterministic core of a library of secure multi-party protocols:
function secret sharing over binary trees, four-party oblivious memory, arithmetic and comparisons on
additive shares, an n-party garbled-circuit protocol, a secret-shared RISC machine, additive shares with
commitments, oblivious decision trees, and the block-framed byte channel under all of them.

All players of a protocol live in one state and exchange messages in synchronous rounds. A value per player
is a `Four<T>` (players 0 to 3), a `Two<T>` (two parties) or a sequence (any number of parties). Random bytes
are arbitrary values of their type. The pseudo-random function and the hash are function parameters about which
nothing is known, so every statement below holds for all keys, all inputs and all randomness. Machine words are
bounded integers, and every wrap-around of the C++ code is written out (`W32`, `W64`, `W33`, `% m`).

Where two players' random leaves could collide, freedom from the collision is a named precondition that can
be read off the keys (`HeadsDiffer`, `ReadFresh`, `WriteFresh`, `EqFresh`, `R != 0`), or the statement is an
if-and-only-if with the collision on one side.

The vocabulary of the contracts is tied to plain arithmetic by lemmas beside the definitions, so that no contract
rests on a word that only the code explains: `Words.WordsAre`, `Players.SharesAre`, `Bits.BitXorIs`, `Bits.ShrIsDiv`,
`Bits.LowIsMod`, `Blocks.XorIs`, `FssCommon.ChildIs`, `FssLt.AddLevelIs`, `FssLt.ValueWalk`, `FssEq.EqShareIs`,
`FssEq.LeafGapIs`, `FssEq.LeafIntInjective`, `FssEq32.Eq32ShareIs`, `FssEq32.HeadsDifferIs`, `Operations.EqFreshIs`,
`Ram.PairFreshIs`, `Ram.FreshIs`, `Ram.ApplyIs`, `Ram.Ram.ContentsAre`, `Ram.IndexSharedBy`, `Ram.AfterIs`,
`Compare.CarryMeans`, `PartyCounts.HalvesAre`, `PartyCounts.SizesAre`, `FssMParty.AllAnswersAre`,
`BooleanCircuit.HoldsIs`, `BooleanCircuit.Satisfied`, `Bmr.GivenAt`, `Risc.ProgramSharedAt`, `PlainMachine.RunSteps`,
`Machine.Machine.RepresentsIs`, `Machine.ReplacedIs`, `DecisionTree.DecidesIs`, `PathCosts.TurnsIs`, `Net.JoinedAt`.

## How the parts build on each other

1. **Words, Congruence, WordModuli, Bits, Blocks, ModPower**: words with explicit wrap-around, congruences for
   any modulus, bit prefixes, bitwise xor, powers modulo a number.
2. **FssCommon, FssLt, FssEq, FssEqFull, FssEq32, KeyHeap, SeedRing, PartyCounts, FssMParty**: key generation
   walks one path of the tree; the tree invariant (equal seeds and control bits off the path, different control
   bits on it) gives point functions, comparison functions and the parity scheme for p parties. The breadth-first
   evaluators compute the pointwise values as long as their ring of seeds is large enough.
   **SampleTrees, RingLoss, KeyCollisions**: concrete keys that fail outside the stated conditions.
3. **Players, RamOffset, Selection, Ram**: reads and writes of a secret-shared array refine a plain array.
4. **Gate, Convert, Compare, DoubleWords, Mul, IntervalContainment**: one masked comparison gate carries the
   most significant bit, carry, borrow, the extension from 32 to 33 and 64 bits, the exact 64-bit product, and
   interval containment.
5. **BooleanCircuit, Garbling, GarbledEvaluation, Bmr**: the garbled circuit computes the plaintext circuit.
6. **Instruction, Operations, Slots, PlainMachine, Risc, Machine**: one step on shares simulates one plaintext
   step, and any run any plaintext run.
7. **Spdz**, **Openings**, **GroupOrder**: products under commitments, the exact condition on the generators under
   which their checks pass, and why the program's own modulus does not meet it.
8. **DecisionTree**, **PathCosts**, **Net**: table walks, path costs, framing.

## Where the code and its documentation part

- `generateTreeEq` only compares the two leaf integers for inequality, but its output word needs their difference
  to be invertible modulo the prime. `FssEq.EqCorrect` states exactly when the keys work, and
  `KeyCollisions.GapCollides` gives keys that do not. For b = 1 the 32-bit lift in `equal` is right exactly when
  the first party's value is not zero: `FssEq.LiftCorrect`, `KeyCollisions.ZeroValueFails`.
- `generateTreeEq_32` gives up when the first four bytes of the two leaves agree, and then the keys are wrong at
  the point (unless b = 0): `FssEq32.Eq32Correct` takes the condition into account, `KeyCollisions.HeadsCollide`
  shows it.
- The breadth-first evaluator addresses its seeds with 32-bit byte offsets, so its array is a ring of 2^28 seeds.
  From 30 bits on seeds are overwritten before they are expanded, and keys without any collision give wrong shares:
  `RingLoss.RingExact`. Hence a shared array works for up to 2^29 entries; `Selection.LongListsFail` has keys that
  fail for every longer one.
- The level counter of both breadth-first evaluators is a 32-bit word that wraps to 0 at row 32, so that for more
  bits nothing is written: `FssEqFull.EvaluateEqFull`, `FssEq32.EvaluateEq32`. A loop counter of type int that
  reaches 2^31 is taken to compare as the unsigned word that it is converted to.
- In the p-party scheme a zero seed is skipped by the evaluator but counted by key generation:
  `FssMParty.MPartyCorrect` gives the exact residue, `FssMParty.ZeroSeedsFail` keys that fail.
- The p-party scheme allocates too few rows: for three parties or more some point always lacks its row, whatever
  the number of bits. `PartyCounts.RowThere` says which points have theirs, `PartyCounts.AllRowsIff` for which
  numbers of bits and parties all have. With 4 bits and two parties there are 3 rows, and the point 12 belongs to a
  fourth (`PartyCounts.MissingRow`). The number of words a column has is the square root that the doubles
  stand for, rounded up; where both of its factors are irrational the doubles may come to one more, and
  every statement covers both.
- `prf` writes whole blocks of 16 bytes only, so the last one to three words of a column's expansion stay
  uninitialised, and a column of fewer than 4 words, that is for n + p <= 4 (two bits and two parties, say), is never
  written at all. `PartyCounts.WordsWritten` shows that every point's word is written if and only if a column has at
  least 4 words, and `PartyCounts.AllServedIff` that every point is served only for one party and an even number of
  bits from 4 on.
- The flag slot of a plain move is never assigned, nor are the slots of opcode 0. The sums over all slots select
  the opcode's slot exactly if every slot repeats within the pairs of players, assigned or not:
  `Slots.SelectsExactly`. `Machine.Machine.RetRes` is stated for arbitrary slots; a step asks that the unassigned ones
  repeat within the pairs, and says what they hold after a move.
- Every step loads and stores, whatever the opcode. Since the memory has 8192 words, which divides 2^32, an address
  out of range stands for its residue; the plain machine wraps addresses, the program counter likewise at 32.
- A garbled-circuit party whose offset R is zero reads every AND gate's masked output as 0, so it evaluates rightly
  exactly if all of them are: `GarbledEvaluation.Evaluate`, `Bmr.Bmr.Online`.
- `SPDZ::share` leaves the commitments with the owner, so the invariant that products rest on holds exactly if the
  owner is the verifier: `Spdz.SPDZ.Share`.
- The commitments are powers modulo p, but the shares are opened modulo q. The checks of all openings pass, and so do
  the checks of all products, if and only if the q-th powers of both generators are 1 modulo p:
  `Openings.OpeningsExactly`, `Openings.ProductsExactly`. `init_` sets q to 4294967311 and p to 2q + 1, which is
  3 * 1381 * 2073361 (`GroupOrder.ShippedFactors`; the search for a prime is commented out). With these numbers only
  generators that are 1 satisfy the condition: `GroupOrder.ShippedOrders`. With any other invertible g, such as 2
  (`GroupOrder.SampleUnits`), the check of 0 against a triple of ones fails, and so does the commitment to 1 times 1:
  `GroupOrder.ShippedFails`. The opened values are the products whatever the generators: `Openings.MultiplyVectors`.
- The sender's padding is read from behind the buffered bytes and can pass the buffer's end: `Net.Sender.Flush` says
  when, and by how much.

## Model

| member | source | states |
|---|---|---|
| FssCommon.TreeInvariant | fss/fss-client.cpp:332-431 | at every depth the two parties' seeds and control bits agree at each node off the key's path and their control bits differ at the node on it |
| FssCommon.NodeWalk | fss/fss-server.cpp:289-328 | the node of a path is where the walk from the root along the path's bits, the highest first, ends, one expansion and one correction word a level |
| FssCommon.DrawRoots | fss/fss-client.cpp:275-314 | whatever the random bytes, the two roots agree off the first path bit and differ in control bit on it |
| FssCommon.DrawWords | fss/fss-client.cpp:357-403 | whatever the random bytes, one level's correction words cancel the difference of the two expansions off the path and keep the control bits apart on it |
| FssCommon.GenerateTree | fss/fss-client.cpp:255-431 | the loop over the path yields keys that satisfy the tree invariant's premises for every bit length, and returns the two last path nodes |
| FssCommon.PathExtends | fss/fss-client.cpp:387-430 | adding a level of correction words keeps all earlier levels and extends the path by one node |
| KeyHeap.LevelCount | fss/fss-server.cpp:135-141 | the 32-bit level counter is the number of nodes of a row up to row 31, and 0 from row 32 on |
| KeyHeap.RowOf | fss/fss-server.cpp:128-140 | the row of depth j of the breadth-first array holds exactly the nodes of depth j, in order |
| SeedRing.NothingLostIff | fss/fss-server.cpp:146-191 | since 32-bit byte offsets make the array a ring of 2^28 seeds, no node is expanded after its seed has been overwritten if and only if there are at most 29 bits |
| SeedRing.RingNodeIs | fss/fss-server.cpp:146-191 | then every node that the ring evaluates is the node of the key tree |
| FssLt.LtInvariant | fss/fss-client.cpp:668-904 | at every depth the parties' values differ by b exactly at the nodes left of the path |
| FssLt.LtCorrect | fss/fss-server.cpp:342-379 | for n up to 64 and all x the shares differ by b modulo 2^64 when x mod 2^n < a mod 2^n and by 0 otherwise |
| FssLt.DrawValues | fss/fss-client.cpp:821-841 | one level's random values make the gap b on the lost side of the path and 0 on the kept side |
| FssLt.GenerateTreeLt | fss/fss-client.cpp:668-904 | the generated keys give the comparison function for every x |
| FssLt.EvaluateLt | fss/fss-server.cpp:342-379 | the loop returns the party's share of the comparison function |
| FssEq.InvertibleIff | fss/fss-client.cpp:450-459 | modulo a prime a difference is invertible exactly if the prime does not divide it |
| FssEq.EqOffPath | fss/fss-server.cpp:289-338 | the leaves at x are the same node off the point and have different control bits on it |
| FssEq.LeafIntIs | fss/fss-client.cpp:436-447 | the 34 bytes of a last expansion hold, from the top, both seeds and both control bits |
| FssEq.EqCorrect | fss/fss-server.cpp:289-338 | off the point the shares agree modulo the prime; on it they differ by b if and only if b is 0 modulo the prime or the prime does not divide the difference of the two last expansions, given seed by seed and bit by bit |
| FssEq.LiftCorrect | include/scmp.hpp:629-657 | the low words of the two values, one negated, add up to the answer if and only if the point is missed or the first value is not 0 |
| FssEq.LastWord | fss/fss-client.cpp:450-460 | the key's last word times the leaf gap is b modulo the prime whenever the gap is invertible |
| FssEq.GenerateTreeEq | fss/fss-client.cpp:255-461 | the generated keys satisfy that statement, with the same condition on seeds and bits, for every x |
| FssEq.EvaluateEq | fss/fss-server.cpp:289-338 | the loop returns the party's share at the low n bits of x |
| FssEqFull.EvaluateEqFull | fss/fss-server.cpp:201-286 | up to 31 bits the evaluator with two queues writes at every x below lens the pointwise value and touches nothing else; from 32 bits on it writes nothing |
| FssEq32.CorrectionWorks | fss/fss-client.cpp:640-664 | whichever party holds the control bit, the last word makes the two corrected leaf words differ by b modulo 2^32 if and only if the leaf words differ or b is 0 |
| FssEq32.HeadIs | fss/fss-client.cpp:646-651 | a leaf's word is the top 32 of the 128 bits of its seed |
| FssEq32.Eq32Correct | fss/fss-server.cpp:109-199 | the shares differ by b modulo 2^32 at the point if and only if the two leaves' seeds differ in their top 32 bits or b is 0, and agree elsewhere |
| FssEq32.GenerateTreeEq32 | fss/fss-client.cpp:462-665 | the generated keys satisfy that statement at every point of the domain |
| FssEq32.WriteLeaves | fss/fss-server.cpp:155-178 | one last-level expansion writes two leaf words unless the requested length is reached |
| FssEq32.ExpandRow | fss/fss-server.cpp:146-194 | one row of the ring is replaced by the next, or its leaves are written |
| FssEq32.EvaluateEq32 | fss/fss-server.cpp:109-199 | the seed ring and the bit queue give at every x below lens the share that the ring evaluates, nothing else is written, and from 33 bits on nothing at all |
| FssEq32.RingShareIs | fss/fss-server.cpp:109-199 | up to 29 bits that is the share of the key tree |
| RingLoss.MarkLost | fss/fss-server.cpp:146-191 | with 30 bits or more a seed on the path of the sample keys is lost from entry 2^29 - 2 on, but for the entries named |
| RingLoss.WrongAtPoint | fss/fss-server.cpp:109-199 | with 30 bits or more there are keys without a collision whose shares at their point differ by b + 1 instead of b |
| RingLoss.RingExact | fss/fss-server.cpp:109-199 | for every PRF, all keys without a collision and all x the ring gives shares of the point function, if and only if there are at most 29 bits |
| KeyCollisions.GapCollides | fss/fss-client.cpp:450-460 | different leaf numbers whose difference the prime divides: keys whose shares do not differ by b at the point |
| KeyCollisions.ZeroValueFails | include/scmp.hpp:629-657 | a first value 0 at the point: keys whose shares are right modulo the prime while the lifted words are wrong |
| KeyCollisions.HeadsCollide | fss/fss-client.cpp:650-664 | different seeds with equal first words, for any number of bits: keys whose 32-bit shares do not differ by b at the point |
| PartyCounts.RowThere | fss/fss-client.cpp:919-927 | row g is among the allocated rows if and only if g times the words of a column is below 2^n |
| PartyCounts.AllRowsIff | fss/fss-client.cpp:919-927 | every point has its row only for one party and an even number of bits, and for two parties and 2 bits; with three parties or more some point never has |
| PartyCounts.WordThere | fss/fss-client.cpp:921-925 | every point has its word in the columns |
| PartyCounts.WordsWritten | fss/fss-common.cpp:15-41 | every point's word lies in the blocks of a column's expansion that are written if and only if a column has at least 4 words, that is n + p is at least 5 |
| PartyCounts.AllServedIff | fss/fss-client.cpp:919-927 | every point has its row and a written word only for one party and an even number of bits from 4 on |
| FssMParty.ColumnTotal | fss/fss-client.cpp:934-1022 | the parties' terms of one column add up to the base word exactly in the key's row, by parity of the owners |
| FssMParty.NoZeroSeeds | fss/fss-server.cpp:410-417 | when no seed is zero nothing is skipped |
| FssMParty.MPartyCorrect | fss/fss-server.cpp:388-435 | with the code's own counts, columns of at least 4 words and for every point whose row exists, the xor of all answers is b at a and 0 elsewhere if and only if the residue of skipped zero seeds vanishes |
| FssMParty.ZeroSeedsFail | fss/fss-server.cpp:409-417 | among the keys that the generator may hand out for one party and 4 bits are ones with zero seeds whose answer at the point is not b |
| FssMParty.Expand | fss/fss-common.cpp:15-41 | the expansion of a seed fills the whole blocks of four words of a buffer and leaves the rest of it as it was |
| FssMParty.OwnerRow | fss/fss-client.cpp:934-971 | the seed-ownership matrix has every column of the wanted parity, for any number of parties |
| FssMParty.DrawColumnWords | fss/fss-client.cpp:988-1022 | whatever the buffers held before, at the written words the column words cancel the expansions of all seeds except at the key's word, where b is left |
| FssMParty.GenerateTreeEqMParty | fss/fss-client.cpp:913-1062 | for a point whose row exists, keys with these properties in the code's own numbers of rows, columns and words |
| FssMParty.EvaluateEqMParty | fss/fss-server.cpp:388-435 | whatever its buffer held before, with columns of at least 4 words the loop returns the party's answer at every point whose row exists |
| RamOffset.SharesOpen | include/preliminaries.hpp:582-598 | index shares less rotation shares, revealed, stand for the index less the rotation, for exact shares and for shares modulo a length that divides 2^32 |
| RamOffset.Rewind | include/preliminaries.hpp:600-601 | the loop that adds the length while the word is above 2^31 terminates, and the remainder is the difference modulo the length |
| Selection.RotatedSelects | include/preliminaries.hpp:561-564 | key shares turned by the offset are shares of b at the index and of 0 elsewhere |
| Selection.LongListsFail | include/preliminaries.hpp:561-564 | for 30 bits or more, and so for more than 2^29 entries, there are keys without a collision whose lists select nothing |
| Selection.DotSelects | include/preliminaries.hpp:629-637 | two sums of products against such lists differ by the indexed entry, modulo every divisor of 2^32 |
| Ram.OpenRead | include/preliminaries.hpp:582-601 | both pairs rebuild the index less their keys' point, from index shares of either kind |
| Ram.OpenWrite | include/preliminaries.hpp:838-865 | all four players rebuild the same offset |
| Ram.DeltaVOk | include/preliminaries.hpp:828-837 | all four players open target less original less the random word, also when the target is shared among all four |
| Ram.UpdatedAdds | include/preliminaries.hpp:873-884 | the two sides' updates add up to the old array with one entry changed |
| Ram.LogN | include/preliminaries.hpp:20-26 | for every word the smallest exponent whose power of two reaches it |
| Ram.Ram.PrepareRead | include/preliminaries.hpp:440-474 | fresh read keys with their rotation shares are appended |
| Ram.Ram.PrepareWrite | include/preliminaries.hpp:478-532 | fresh write keys with their rotation shares and random word are appended |
| Ram.Ram.RecoverList | include/preliminaries.hpp:533-567 | the lists are shares of 1 at the index and of 0 elsewhere, in both pairs |
| Ram.Ram.Read | include/preliminaries.hpp:568-643 | the four results with alternating signs add up to the indexed entry |
| Ram.Ram.Write | include/preliminaries.hpp:784-888 | the indexed entry becomes itself plus target less original, so target if original is right, and nothing else changes; players 0 and 1, and 2 and 3, keep equal arrays |
| Ram.Access | include/preliminaries.hpp:568-888 | one access with given shares, each index and value in either of its forms, returns the entry, puts the value in its place, or adds the difference to it, and changes nothing else |
| Ram.Run | include/preliminaries.hpp:440-888 | every sequence of reads, writes and adjustments, with indices and values in any of their forms, refines a plain array |
| Convert.MaskedKeeps | protocol/convert.h:47-62 | adding masks of zero and revealing within the pairs turns additive shares into replicated shares of the same value |
| Convert.Convert.FourpcZeroshare | protocol/convert.h:20-46 | the buffer holds fresh sharings of zero |
| Convert.Convert.FourpcToReplicated | protocol/convert.h:47-62 | the shares are rewritten in place and keep their values, or nothing happens when no masks were dealt or too few are left |
| Gate.OpenModTotal | include/preliminaries.hpp:250-275 | every player's fold of the four words, in its own order, is their sum modulo N |
| Gate.Sides | include/scmp.hpp:496-529 | two tests of the masked value against masked thresholds tell whether the value lies outside [p, q), across the wrap-around |
| Gate.GateCorrect | include/scmp.hpp:496-529 | the four flags are additive shares of that answer, and replicated shares with the extra keys |
| Compare.DrawMsb | include/scmp.hpp:147-202 | keys and mask shares make a gate for the most significant bit |
| Compare.Msb33 | include/scmp.hpp:430-529 | the flags are shares of bit 32 of the share sum |
| Compare.WidenAllCorrect | include/scmp.hpp:726-739 | shares less the shares of bit 32 add up modulo 2^33 to the value shared modulo 2^32 |
| Compare.CombinedBit | include/scmp.hpp:716-745 | bit 32 of the combined shares is the carry of the sum, or the borrow of the difference |
| Compare.CarryCorrect | include/scmp.hpp:716-745 | the whole computation yields shares of carry or borrow |
| Compare.Compare.MsbOff | include/scmp.hpp:147-202 | gate keys are appended, with the extra keys beside them when asked for |
| Compare.Compare.Msb | include/scmp.hpp:430-475 | both rounds at once; the keys used are dropped from the front |
| Compare.Compare.Overflow | include/scmp.hpp:716-745 | replicated carries or borrows for all elements |
| Compare.Compare.OverflowSplit | include/scmp.hpp:747-856 | the split rounds give the same carries or borrows |
| DoubleWords.TakeOffTotal | protocol/operation.h:207-218 | pair sums of 32-bit shares less bits 32 and 33 are 64-bit shares of the same word |
| DoubleWords.CrossProducts | protocol/operation.h:219-220 | products of shares held by crossing pairs add up to the product |
| DoubleWords.SplitWords | protocol/operation.h:225-243 | halves of the product's shares, with the carry, are shares of the exact low and high words |
| Mul.Bit33 | include/scmp.hpp:496-529 | the 34-bit gate's flags are replicated shares of bit 33 of the share sum |
| Mul.FactorWide | protocol/operation.h:192-218 | the first factor in 64 bits, replicated within the pairs |
| Mul.FactorDiag | protocol/operation.h:192-218 | the second factor in 64 bits, replicated across the pairs, from keys dealt across |
| Mul.WideGate | include/scmp.hpp:375-425 | the interval gate's flags are replicated shares of the test against 2^32 |
| Mul.DrawInterval | include/scmp.hpp:92-127 | keys and mask shares make a gate for [p, q) modulo 2^64 |
| Mul.Mul.Offline | protocol/operation.h:184-191 | the keys of all six gates |
| Mul.Mul.Round2 | protocol/operation.h:207-223 | the product is shared among all four players modulo 2^64 |
| Mul.Mul.Round3 | protocol/operation.h:224-233 | low word and flag are replicated, the high word lacks the carry |
| Mul.Mul.RoundEnd | protocol/operation.h:234-248 | low word, high word and both flag slots are right and replicated |
| Mul.Multiply | protocol/operation.h:184-248 | from additive shares of x and y to replicated shares of both words of x*y and of x*y >= 2^32 |
| IntervalContainment.Sides | include/scmp.hpp:999-1013 | the identity behind the correction: all comparisons together equal membership, for every mask, interval and query |
| IntervalContainment.IcCorrect | include/scmp.hpp:1043-1060 | the two answers add up modulo N to 1 exactly when p <= (R - r) mod N <= q, for every N = 2^L up to 2^32 |
| IntervalContainment.IntervalQuery.Deal | include/scmp.hpp:990-1042 | keys and correction shares for each masked query are appended |
| IntervalContainment.IntervalQuery.AnswerAll | include/scmp.hpp:1043-1065 | all answers are right, and the queries are reduced in place |
| BooleanCircuit.OneAssignment | protocol/mparties/BMR.cpp:149-198 | for every well-formed circuit and input there is exactly one assignment of the input and driven wires that starts with the input and satisfies every gate: an AND output is 1 exactly if both inputs are, an XOR output exactly if they differ, a NOT output exactly if the input is 0 |
| BooleanCircuit.OutputIs | protocol/mparties/BMR.cpp:149-198 | what the circuit computes are the last wires of every satisfying assignment |
| Garbling.MaskGates | protocol/mparties/BMR.cpp:434-444 | after the pass every xor gate's and inverter's mask is what it must be |
| Garbling.OpenBits | protocol/mparties/BMR.cpp:445-454 | every party opens the parity of all masks, in whatever order |
| Garbling.ParityGate | protocol/mparties/BMR.cpp:434-454 | the public mask of a gate follows from its inputs' public masks; exactly one party flips an inverter's |
| Garbling.Garble | protocol/mparties/BMR.cpp:456-501 | labels come in pairs, free gates need no table, and the party's tables hide exactly its own output labels |
| GarbledEvaluation.RowsAdd | protocol/mparties/BMR.cpp:467-515 | the parties' rows add up to everybody's hashes and the owner's output label |
| GarbledEvaluation.OpenTables | protocol/mparties/BMR.cpp:502-515 | every party opens the sum of all tables |
| GarbledEvaluation.RowDecodes | protocol/mparties/BMR.cpp:153-165 | the row named by the masked inputs decodes to the label of the masked output |
| GarbledEvaluation.FreeGate | protocol/mparties/BMR.cpp:184-197 | xor gates and inverters keep labels and masked bits right |
| GarbledEvaluation.JudgeReads | protocol/mparties/BMR.cpp:168-183 | a valid label is never taken for corrupted, and is read rightly if and only if the offset is not zero or the bit is 0 |
| GarbledEvaluation.Evaluate | protocol/mparties/BMR.cpp:147-198 | a party finds nothing corrupted and ends with value xor mask and everybody's matching label on every wire, if and only if its offset is not zero or every AND gate's masked output is 0 |
| Bmr.Bmr.Offline | protocol/mparties/BMR.cpp:432-516 | all parties hold the same opened masks and tables, which fit everybody's labels |
| Bmr.Bmr.Online | protocol/mparties/BMR.cpp:105-207 | the same for every party, which then also outputs the plaintext circuit's value |
| Bmr.RunProtocol | protocol/mparties/BMR.cpp:105-207 | from random masks, labels and offsets on, for any well-formed circuit, inputs and party count, every party with a non-zero offset outputs the last wires of the one assignment that satisfies the circuit; the exact condition for the others |
| Instruction.UnpackPack | protocol/src/risc.cpp:7-36 | unpacking undoes packing for fields in range |
| Instruction.UnpackIs | protocol/src/risc.cpp:7-21 | the places of the fields in the 64-bit word, from the opcode at the top to the immediate at the bottom |
| Instruction.PackUnpack | protocol/src/risc.cpp:7-36 | packing undoes unpacking for every 64-bit word |
| Instruction.SharesOfIns | protocol/src/risc.cpp:47-54 | field-wise subtraction and addition of packed words are inverse |
| Instruction.SumIns | include/preliminaries.hpp:629-637 | the fold with the packed callbacks is, in every field, the sum of products modulo the field's size |
| Instruction.FetchedField | protocol/src/risc.cpp:122-129 | after players 1 and 3 negate, every field's shares add up to the fetched field |
| Operations.AddSub | protocol/operation.h:51-131 | replicated sum or difference, and carry or borrow |
| Operations.CompareGe | protocol/operation.h:258-321 | replicated flag of greater-or-equal |
| Operations.CompareEq | include/scmp.hpp:658-715 | replicated flag of equality |
| Operations.DrawEq | include/scmp.hpp:48-91 | keys for one equality test and shares of their point |
| Operations.ChooseAdds | protocol/operation.h:364-382 | the conditional move's terms are additive shares of the chosen word |
| Operations.JumpAdds | protocol/operation.h:625-642 | the jump's terms add up to target less program counter if the opcode is selected, else to 0 |
| Operations.JumpIfAdds | protocol/operation.h:643-669 | the same for jumps on the flag and on its complement |
| Operations.StoreAdds | protocol/operation.h:478-499 | the store's target is the register if selected, else the old entry |
| Slots.BetasFromLists | protocol/src/risc.cpp:144-149 | the recovered list, partly negated, is a one-hot selection in both pairs |
| Slots.SlotsSelected | protocol/src/risc.cpp:432-440 | for arbitrary slots the sums add up to the opcode's slot (0 past the last one) and the spills of slots that differ within a pair |
| Slots.NoLeak | protocol/src/risc.cpp:436-440 | slots that repeat within the pairs spill nothing |
| Slots.SelectsExactly | protocol/src/risc.cpp:432-440 | the sums select the opcode's slot, for all selection bits and opcodes, if and only if every slot repeats within the pairs |
| Slots.UnequalSlotLeaks | protocol/src/risc.cpp:436-440 | whichever slot differs within a pair, some selection bits give a wrong sum |
| Risc.DealProgram | protocol/src/risc.cpp:80-82 | random words and the field-wise differences are shares of the program |
| Risc.FetchIns | protocol/src/risc.cpp:122-129 | shares of the instruction at the shared program counter |
| Risc.ReadOperand | include/preliminaries.hpp:360-371 | shares of the second operand: immediate, or register through the doubled view |
| Risc.ReadBetas | protocol/src/risc.cpp:144-149 | selection bits for the fetched opcode |
| Risc.Jumps | protocol/operation.h:600-672 | the shares of the next program counter |
| PlainMachine.StepMemory | protocol/operation.h:478-499 | opcode 19 puts register i at the memory entry that the operand names modulo 8192, the operand being the immediate or a register; nothing else in the memory changes, and nothing at all on another opcode |
| PlainMachine.StepCounter | protocol/risc.h:43-45 | opcode 16 goes to the operand, 17 if the flag is 1, 18 if it is 0, all others to the next instruction |
| PlainMachine.StepRegister | protocol/risc.h:31-50 | only register i changes, to what the opcode's number says in plain arithmetic |
| PlainMachine.StepFlag | protocol/risc.h:31-50 | the flag is the carry, borrow, overflow or comparison that the opcode's number stands for, or stays |
| Risc.Memory | protocol/operation.h:393-499 | load fetches the entry; store replaces it on opcode 19 and on no other |
| Risc.ComputeAll | protocol/src/risc.cpp:161-410 | every computed slot holds its opcode's result and flag, a foreign one whatever its operation left there, any other what it held |
| PlainMachine.RunIndependent | protocol/src/risc.cpp:432-448 | a run depends on slots that are not computed only through the opcodes that it executes |
| PlainMachine.FlagStaysBit | protocol/src/risc.cpp:161-448 | a flag that starts as a bit stays one, as long as foreign flags are bits |
| PlainMachine.Conditionals | protocol/operation.h:364-382 | with a bit in the flag the conditional move and jumps choose between their two words |
| Machine.Machine.LoadIns | protocol/src/risc.cpp:111-156 | operands, flag and selection bits are shared in the shapes the operations need; opcode 0 stops the machine |
| Machine.Machine.RunOp | protocol/src/risc.cpp:161-431 | all slots, the program counter and the memory are those of the plain step |
| Machine.Machine.RetRes | protocol/src/risc.cpp:432-448 | register and flag receive the selected result and the spills, for arbitrary slots |
| Machine.Machine.Step | protocol/src/risc.cpp:111-448 | whatever the foreign operations leave in their slots, shares of a plain state become shares of its successor, whose memory, program counter and registers are given by the opcode's number: 19 alone writes to the memory, 16 to 18 alone jump |
| Machine.Machine.Run | protocol/src/risc.cpp:111-448 | any number of instructions keeps pace with the plain machine, with other words from the foreign operations at every step |
| Machine.OthersForgotten | protocol/src/risc.cpp:338-391 | these words are of no account as long as no foreign opcode is executed |
| Spdz.DecommitIff | protocol/auditable/spdz.h:27-39 | the check of a reduced commitment passes if and only if the commitment is congruent to the powers of both generators |
| Spdz.OpenMasked | protocol/auditable/spdz.h:291-348 | for all generators every party opens the difference modulo q; when they are invertible the verifier's check passes if and only if the exponents that the commitments carry agree with the opened ones as powers |
| Spdz.ProductHolds | protocol/auditable/spdz.h:349-368 | for all generators the shares sum to x*y modulo q, and the commitment carries exactly the exponents that the protocol computes, which are x*y and the randomness modulo q |
| Spdz.ShareOne | include/io.hpp:72-90 | random shares sum to the value, and the owner's commitment carries it |
| Spdz.SPDZ.Prepare | protocol/auditable/spdz.h:372-396 | valid triples of ones are appended |
| Spdz.SPDZ.Share | protocol/auditable/spdz.h:206-226 | for every owner and all generators the shares sum to the given values and randomness modulo q and the owner's commitments carry them; for invertible generators the verifier's commitments do if and only if it is the owner |
| Spdz.BlankHoldsNothing | protocol/auditable/spdz.h:208-222 | for invertible generators a commitment left at 0 opens to nothing |
| Spdz.SPDZ.Add | protocol/auditable/spdz.h:247-258 | for every place and all generators the shares sum to both values' sum modulo q, and the product of the commitments carries the sum |
| Spdz.SPDZ.Mult | protocol/auditable/spdz.h:281-371 | for all generators the products' shares sum to the products modulo q and their commitments carry the computed exponents; for invertible ones the verifier's check passes if and only if every opening does, and it passes whenever both orders divide q |
| Spdz.SPDZ.Reveal | protocol/auditable/spdz.h:227-246 | the owner of the opening gets the values modulo q; if it holds the commitments its check passes if and only if every carried exponent agrees with its remainder as a power |
| Openings.OpeningExactly | protocol/auditable/spdz.h:291-348 | for reduced values the check of an opening passes if and only if the q-th powers that the two differences borrow multiply to 1 |
| Openings.OpeningsExactly | protocol/auditable/spdz.h:291-348 | every reduced value opens against every triple that is dealt if and only if the q-th powers of both generators are 1 |
| Openings.RevealExactly | protocol/auditable/spdz.h:227-246 | the check of an opened value passes if and only if the q-th powers that its commitment has gathered multiply to 1 |
| Openings.ProductsExactly | protocol/auditable/spdz.h:349-368 | the commitments of all products of reduced values open if and only if the q-th powers of both generators are 1 |
| Openings.MultiplyVectors | protocol/auditable/testAB.cpp:52-62 | from two shared vectors to the opened result: the opened values are the products modulo q for all generators, with the exact conditions of both checks, which pass when both orders divide q |
| GroupOrder.ShippedOrders | protocol/auditable/spdz.h:166-184 | with the program's q and p both orders divide q if and only if both generators are 1 modulo p |
| GroupOrder.ShippedFails | protocol/auditable/spdz.h:166-184 | with them, for every invertible g but 1, opening 0 against a triple of ones fails, and so does the commitment to 1 times 1 |
| Net.Sender.SendData | include/net.hpp:64-73 | the batch grows by the message, whether buffered or written through |
| Net.Sender.Flush | include/net.hpp:55-62 | the batch is in the stream, padded to whole blocks with what lies behind the buffered bytes; the padding stays inside the buffer if and only if no more is buffered than the last block holds |
| Net.Receiver.RecvData | include/net.hpp:95-116 | the next bytes of the batch, across any number of blocks |
| Net.Receiver.Flush | include/net.hpp:90-93 | the receiver stands at the next batch |
| Net.Batch | include/net.hpp:52-130 | one batch of messages of any lengths comes out in pieces of any lengths |
| Net.Run | include/net.hpp:52-130 | any run of batches is handed out byte for byte in order |
| DecisionTree.FindDeep | protocol/3_parties/outsource_dt.h:57-66 | the number of levels of the tree |
| DecisionTree.HeightIs | protocol/3_parties/outsource_dt.h:57-66 | the number of levels is the length of the longest chain of nodes and children in the file |
| DecisionTree.Dt.FromPath | protocol/3_parties/outsource_dt.h:74-93 | every table entry field by field: nl and xl from the file's left child, nr and xr from its right one, with a dummy node behind the table that leads to itself |
| DecisionTree.Dt.Round | protocol/3_parties/outsource_dt.h:501-509 | a round adds a leaf's value once and nothing otherwise |
| DecisionTree.Dt.NextStands | protocol/3_parties/outsource_dt.h:511-519 | the next indices are the chosen child's, or the dummy node's |
| DecisionTree.Dt.Online | protocol/3_parties/outsource_dt.h:494-523 | the walk of fixed length returns y if and only if a path of file nodes from the root, left where the comparison holds and right where it does not, ends at a node without children whose weight is y, or at a missing child with y = 0 |
| PathCosts.FillCosts | protocol/3_parties/outsource_dt.h:394-409 | every heap entry holds the party's cost share |
| PathCosts.CostsAdd | protocol/3_parties/outsource_dt.h:394-409 | the two costs reconstruct to the sum of the random words at the wrong turns |
| PathCosts.OneLeaf | protocol/3_parties/outsource_dt.h:394-409 | exactly the leaf that the decisions reach has no wrong turn |
| PathCosts.ReachIs | protocol/3_parties/outsource_dt.h:394-409 | that leaf is where every walk from the root ends that goes to 2i + 1 where the decision holds and to 2i + 2 where it does not |
| PathCosts.PickLeaf | protocol/3_parties/outsource_dt.h:364-365 | the first leaf whose cost shares cancel is the reached one if and only if no leaf before it costs 0 by accident |

## Left out

- The byte layout of the PRF, AES and its key schedule: the PRF is one uninterpreted function from a block to an expansion. The
  four AES keys that are drawn first are enough for columns of fewer than 20 words; for longer ones `prf` draws more
  into memory that it frees again before it uses them (fss/fss-common.cpp:15-33), which is not modelled.
- The hash of labels, gate and party numbers in garbled tables is one uninterpreted function.
- Sockets, connection set-up, flushing policy, configuration, timers, argument parsing: the rounds are synchronous.
- The `mpz` list evaluator at fss/fss-server.cpp:16: it reads 16-byte leaves that do not fit the word the key holds.
- The REDUCE_FSS, USE_MPC_GEN, THREE_ROUND_MSB and SIGLE_TEST branches, which are not compiled in.
- FssEq32.EvaluateEq32: from 2 bits on, as with 1 bit the source reads a correction word that its keys do not have
  (`FssEq32.WordsThere`); up to 58 bits, after which the array's size in bytes no longer fits 64 bits; and at most
  2^n results, as the queue of bits runs empty after them.
- FssMParty.GenerateTreeEqMParty: up to 32 bits and where sizes fit 32 bits; a point without its row is not evaluated, as the source
  indexes a row that was never allocated. The doubles are modelled by the numbers that they stand for.
- Ram.Ram.constructor: from 3 up to 2^29 entries; shorter arrays have keys of 1 bit or none, for longer ones see
  `Selection.LongListsFail`.
- Ram.Ram.Read: the instruction, operand and selection arrays of the machine use the same keys through `RecoverLists`; their
  data are held by the machine instead of by an array object.
- Compare.Compare.Overflow: not with the extra keys in the one-piece form,
  and not extended to 64 bits; no caller does either.
- IntervalContainment.IcCorrect: for the default value 1 and 32-bit words.
- The operations of the machine other than the product are methods whose statements are the rounds in order, not objects with one
  method per round; interleaving the rounds of independent operations is not modelled.
- Machine.Machine.Step: what the bitwise opcodes and READ compute is not modelled; their slots receive arbitrary words at every
  step, which repeat within the pairs.
- Bmr.Bmr.Online: single instance only; the batched forms stride by the number of gates and overlap.
- Spdz.SPDZ.Mult: the sharing and opening of differences are done place by place instead of for the whole vector at once. For a
  triple's commitment without an inverse the verifier's check is left open.
- `SPDZ::neg`, `SPDZ::sum` and the xor-sharing variant: their commitments do not follow the shares.
- Net.Sender.Flush: the padding bytes that are read past the buffer's end are arbitrary.
- DecisionTree.Dt.Online: the oblivious look-ups and selections are ideal, the comparison is a parameter, and sharing of the table's
  entries is not modelled.
- PathCosts.PickLeaf: the rotation of the leaves is the identity, as in the source. The hand-out of the leaf's value is not
  modelled: it goes through the `mpz` list evaluator named above, whose results do not fit the keys.
- Secrecy and probabilities: nothing is said about what a player learns.
- GMW, `Oram`, `FSS_MPC`, `DCF_MPC`, CSOT, SOT and the benchmark stand-ins.
