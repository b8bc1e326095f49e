# Dafny models of the BTX node

Dafny models of the algorithmic cores of the node, with proofs of what they guarantee over
every run and every input. `dafny verify dfyconfig.toml` checks all of it.

Code that updates objects in place is modelled by classes and loops (`AddrManImpl`,
`ArithUint`, `CompactBlockDownload`, `BanManImpl`, `ChaCha20`, `Bip324Impl`, the codecs); each
method is proved to compute a function of the old state, and the properties are proved of those
functions. Protocols between threads or peers are step systems whose runs are all the
interleavings (`CheckQueue*`, `BanMan`, `Bip324Runs`).

The main results:

- **Address manager.** Every operation keeps all six indexes in step, over every run; the
  consistency check always returns 0; an occupied tried slot never becomes vacant, so the branch
  for a collision that is none any more cannot be reached. It is stated exactly when an entry
  that waits for a tried slot gets it, and what a call makes of all that wait. Writing to disk and
  reading back gives the same state up to a renumbering of ids; reading under another AS map, or
  any well-formed file, gives a state that meets the invariant.
- **Check queue.** In every interleaving `Complete` returns nothing exactly if all checks of its
  round pass, and otherwise a failure of that round; every check is taken once; the master never
  waits in vain, and the steps within `Complete` are bounded in number.
- **Big numbers.** All operators of `base_uint`, for any width, are the integer operations modulo
  2^BITS, division included. The compact form is monotone, rounds down by less than one part in
  2^15, is idempotent, and its overflow flag is exact.
- **Codecs.** Base58 buffers always suffice and both round trips hold. Bech32 and Bech32m round
  trips hold, accepted strings are canonical, changes within six places in a row and changes of
  up to three values within 1023 are always detected. `LocateErrors` is exact: it names every
  wrong character, and otherwise one or two places at which a change gives a valid string, the
  fewest there are, or none if no two changes do. One changed character is reported at its
  place. All of this goes by way of GF(1024).
- **Compact blocks.** A block is reconstructed from its compact form; the bookkeeping of a
  malformed one stays exact; a transaction that is known is found. **Block filters.** Matching is
  exactly equality of hashes, with no false negatives; a filter that is read back holds exactly
  its values.
- **Ban list.** Sweeping and saving never show in an answer for an address or a valid subnet; the
  sweep is always scheduled in time; a clean list is the one on disk.
- **Encrypted transport.** Two endpoints stay in step over any packets in any order, across the
  hybrid rekey; the bytes of every packet are given, and no nonce repeats. The buffered stream
  cipher does not show how a message was cut into calls.
- **Transfer planner.** Plans pay every destination exactly; packing uses the fewest blocks.

Three properties turned out to hold only under a condition, which is stated exactly:

- `BanManRuns.BanKeepsExactly`: a ban that ends at time 0 or before, on a subnet without one,
  leaves an empty entry in the map that is not marked for saving (src/banman.cpp:194), so a list
  that counts as clean can differ from the one on disk. `EmptyEntryUnsaved` says when a ban does
  this: exactly if it takes the default ban time (an offset of at most 0) and that time is at most
  minus the clock, so never with a default of 0 or more after 1970.
- `BanManRuns.SweptAnswersExactly`: sweeping drops entries of invalid subnets before they end
  (src/banman.cpp:249), so asking for exactly that subnet changes its answer; `InvalidBanSwept` is
  a run in which it does. For valid subnets and for addresses it never does.
- `Bech32Located.Bech32mErrorLocated`: both encodings are tried and the one with fewer errors is
  reported, Bech32 if equal (src/bech32.cpp:460-588). One changed character of a Bech32m string is
  reported at its place unless its value changes by 19 at 33 or 192 places before the end and both
  of these places are behind the separator; then the other place is reported, as an error in a
  Bech32 string. With at most 192 values, so under both limits of the source, 90 and 127
  characters (src/bech32.h:38-41), this cannot happen. `Mislocated` gives the strings for which it
  does. For Bech32 strings there is no exception. Changes by 19 at both of
  these places turn a valid string into a valid one of the other encoding
  (`Bech32Repair.TwoChangesReported`).

Abstract throughout: hash functions, block functions and key exchange are arbitrary functions of
the right range; random numbers, clocks and answers of other programs are arguments. Integers are
unbounded unless a width is part of the code's logic (32-bit limbs and 64-bit accumulators, the
unsigned counters of the check queue, the 16-bit slots of a compact block, the 32-bit number of
elements of a filter).

## Model

| member | source | states |
|---|---|---|
| `AddrManRuns.RunAdvances` | src/addrman.cpp:416-1001 | over every run of calls with positive times: all indexes agree (the whole invariant), no occupied tried slot becomes vacant, the number of tried entries never falls, no id names two addresses |
| `AddrManRuns.StepAdvances` | src/addrman.cpp:416-1001 | each single call keeps the invariant and never goes back |
| `AddrManRuns.InitialInv` | src/addrman_impl.h:189-215 | the cleared manager is empty, counts from the first second as the last success, and meets the invariant |
| `AddrManCheck.CheckAddrman` | src/addrman.cpp:1063-1166 | the check returns 0 exactly if the state is consistent: counts, places, reference counts, both tables and the per-network counts |
| `AddrManCheck.InvIsConsistent` | src/addrman.cpp:1063-1166 | the invariant implies that consistency, so in every reachable state the check returns 0 |
| `AddrManOperations.ScanRemovesAllRefs` | src/addrman.cpp:491-509 | the bucket scan, which stops when the count is 0, removes exactly all references of the entry and nothing else |
| `AddrManOperations.MakeTriedKeepsCore` | src/addrman.cpp:491-548 | moving an entry to the tried table keeps all indexes, counts and reference counts |
| `AddrManOperations.MakeTriedFrame` | src/addrman.cpp:491-548 | the tried table changes at the entry's slot only; the number of tried entries grows by one unless the slot was taken |
| `AddrManOperations.MakeTriedLater` | src/addrman.cpp:491-548 | no tried slot is vacated and ids keep their addresses |
| `AddrManOperations.ClearNewKeepsCore` | src/addrman.cpp:473-489 | clearing a new slot keeps all indexes, deleting the entry with its last reference |
| `AddrManOperations.ClearNewFrame` | src/addrman.cpp:473-489 | exactly that slot becomes vacant; the tried table, ids and collisions stay |
| `AddrManSteps.CreateKeepsCore` | src/addrman.cpp:416-430 | a created entry is in every index |
| `AddrManSteps.SwapKeepsCore` | src/addrman.cpp:432-454 | swapping two places keeps the random order a permutation that entries know their place in |
| `AddrManSteps.DeleteKeepsCore` | src/addrman.cpp:456-471 | a deleted entry is in no index |
| `AddrManRuns.AddSingleKeepsInv` | src/addrman.cpp:550-624 | adding an address keeps the invariant, found or not, and on every branch of placing it |
| `AddrManRuns.AddKeepsInv` | src/addrman.cpp:681-691 | so does adding a list |
| `AddrManRuns.GoodKeepsInv` | src/addrman.cpp:626-679 | marking an address good keeps the invariant; without the test no collision is recorded |
| `AddrManRuns.AttemptKeepsInv` | src/addrman.cpp:693-711 | recording an attempt keeps the invariant |
| `AddrManRuns.ConnectedKeepsInv` | src/addrman.cpp:877-894 | so does a connection |
| `AddrManRuns.SetServicesKeepsInv` | src/addrman.cpp:896-910 | so does a change of services |
| `AddrManRuns.ResolveKeepsInv` | src/addrman.cpp:912-973 | resolving all collisions keeps the invariant and adds no collision |
| `AddrManRuns.CollisionStillCollides` | src/addrman.cpp:961-964 | a recorded collision always finds its tried slot taken |
| `AddrManRuns.ResolveNeverVacant` | src/addrman.cpp:912-973 | while the collisions are resolved one after another none of them finds its slot vacant |
| `AddrManRuns.SelectReadsTried` | src/addrman.cpp:975-1001 | the entry selected for a live collision is a live tried entry |
| `AddrManRuns.GetAddrKeepsInv` | src/addrman.cpp:812-851 | the partial shuffle keeps the invariant |
| `AddrManRuns.GetAddrCollects` | src/addrman.cpp:812-851 | the addresses returned are of distinct live entries that pass the filter, no more than allowed, and with room left every live entry that passes the filter is among them |
| `AddrManEffects.AddSingleEffect` | src/addrman.cpp:550-624 | the answer is true exactly if the address gained a place in the new table, at the slot its source selects; the new table changes nowhere else; an address that is not routable changes nothing |
| `AddrManEffects.AddCounts` | src/addrman.cpp:681-691 | Add counts the addresses of the list that gained a place when it was their turn |
| `AddrManEffects.AddNewEffect` | src/addrman.cpp:594-622 | an unknown address is taken in exactly if its slot is vacant or its occupant is terrible or has other references; otherwise no trace is left |
| `AddrManEffects.AddAgainEffect` | src/addrman.cpp:565-622 | a known one gains a reference exactly if it is new, announced with a later time, below eight references and drawn with chance one in 2^references, and its slot is vacant or held by a terrible entry |
| `AddrManEffects.GoodEffect` | src/addrman.cpp:626-679 | statistics are reset; the entry moves exactly if it is new and its slot is free or no test is wanted; otherwise a new one waits among the collisions while there is room, and the tables stay |
| `AddrManEffects.MakeTriedEffect` | src/addrman.cpp:491-548 | afterwards the entry is at its tried slot and nowhere in the new table; the entry it evicts has exactly one reference, at the slot its own source selects |
| `AddrManEffects.ReplaceEffect` | src/addrman.cpp:912-973 | a collision decided for the newcomer leaves it at the tried slot it competed for, and is forgotten |
| `AddrManCollisions.ResolveOneEffect` | src/addrman.cpp:917-972 | a collision is decided for the newcomer exactly if the holder of the slot had no success for four hours and was either tried in vain between 60 seconds and four hours ago, or not tried for four hours while the newcomer has waited over 40 minutes; a success within four hours drops the collision and changes nothing else; so does a dead entry; in every other case nothing changes |
| `AddrManCollisions.ResolveStepSettles` | src/addrman.cpp:912-973 | every round of the loop does this to the state the rounds before it left |
| `AddrManCollisions.ResolveSettles` | src/addrman.cpp:912-973 | after a whole call each slot is held by the first of its collisions, in order of id, that the holder yields to, or else by its old holder; a collision is left exactly if none up to it was decided for its slot and the holder had no recent success |
| `AddrManRecords.AttemptEffect` | src/addrman.cpp:693-712 | a try is recorded, and counts as a failure exactly if it is to be counted and none was since an address was last reached; nothing else changes |
| `AddrManRecords.FailuresCountOnce` | src/addrman.cpp:693-712 | however often an address is tried, its failures count once until some address is reached again |
| `AddrManRecords.GoodRecords` | src/addrman.cpp:626-645 | success and try get the time, failures are forgotten, and nothing new is recorded of any other entry |
| `AddrManRecords.ConnectedEffect` | src/addrman.cpp:877-894 | the time moves on exactly if it is more than 20 minutes behind, so it never is afterwards; nothing else changes |
| `AddrManRecords.SetServicesEffect` | src/addrman.cpp:896-910 | the services are replaced and nothing else |
| `AddrManRecords.RefreshedTime` | src/addrman.cpp:565-577 | an announced time is taken over, less the penalty and not below 0, exactly if the one known is more than an hour behind it, or a day if it is a day old; the time never goes back; services add up |
| `AddrManRecords.AddSingleRecords` | src/addrman.cpp:550-624 | the address announced has its first record or its refreshed one, without a penalty if it announces itself; nothing new is recorded of any other |
| `AddrManRecords.SlotsExactly` | src/addrman.cpp:48-67 | slots are the keyed bucket and the keyed position in that bucket |
| `AddrManRecords.TerribleExactly` | src/addrman.cpp:69-93 | exactly when an entry is worth nothing, in seconds and attempts |
| `AddrManRecords.WantedExactly` | src/addrman.cpp:838-845 | exactly which entries GetAddr gives out |
| `AddrManRecords.LimitExact` | src/addrman.cpp:817-825 | a number is within the limit exactly if it is within the percentage of all entries and within the maximum, as far as these are given |
| `AddrManRecords.AnySelection` | src/addrman.cpp:827-848 | every choice of entries that pass the filter can come out, in every order, for some random numbers |
| `AddrManImpl.AddrMan.constructor` | src/addrman_impl.h:189-215 | the object begins as the empty manager |
| `AddrManImpl.AddrMan.Create` | src/addrman.cpp:416-430 | the fields and tables become those of the creation step |
| `AddrManImpl.AddrMan.SwapRandom` | src/addrman.cpp:432-454 | the fields become those of the swap step |
| `AddrManImpl.AddrMan.Delete` | src/addrman.cpp:456-471 | the fields become those of the deletion step |
| `AddrManImpl.AddrMan.ClearNew` | src/addrman.cpp:473-489 | the fields and the new table become those of the clearing step |
| `AddrManImpl.AddrMan.MakeTried` | src/addrman.cpp:491-548 | the loops over both tables compute the step whose effect is stated by MakeTriedEffect |
| `AddrManImpl.AddrMan.AddSingle` | src/addrman.cpp:550-624 | new state and answer are those of the step of AddSingleEffect |
| `AddrManImpl.AddrMan.Add` | src/addrman.cpp:681-691 | the loop over the list is the fold of that step; the answer says whether any address was added |
| `AddrManImpl.AddrMan.Good` | src/addrman.cpp:626-679 | new state and answer are those of the step of GoodEffect |
| `AddrManImpl.AddrMan.Attempt` | src/addrman.cpp:693-711 | new state of recording an attempt, and the invariant |
| `AddrManImpl.AddrMan.Connected` | src/addrman.cpp:877-894 | new state of recording a connection, and the invariant |
| `AddrManImpl.AddrMan.SetServices` | src/addrman.cpp:896-910 | new state of setting the services, and the invariant |
| `AddrManImpl.AddrMan.ResolveCollisions` | src/addrman.cpp:912-973 | the loop resolves the collisions in ascending order, with the outcome of ResolveSettles if the call takes less than four hours |
| `AddrManImpl.AddrMan.SelectTriedCollision` | src/addrman.cpp:975-1001 | the entry of SelectReadsTried, and a dead collision dropped |
| `AddrManImpl.AddrMan.GetAddr` | src/addrman.cpp:812-851 | the in-place shuffle computes the result of GetAddrCollects, misses none while there is room, and keeps all indexes |
| `AddrManRoundTrip.RoundTrip` | src/addrman.cpp:133-399 | reading back what was written, with the same asmap and in whatever order entries are walked, succeeds and gives the state up to a bijective renumbering: same slots, reference counts, counters and persisted fields, and the invariant |
| `AddrManReading.AnyFileReads` | src/addrman.cpp:231-399 | a well-formed file of any format, bucket count and checksum, with a key, distinct addresses, valid new ones and tried ones that once succeeded, is read without an error; the invariant holds, every entry comes from a record of the file, every tried slot that a valid tried record hashes to is taken; references stand in the recorded buckets exactly if count and checksum agree, otherwise where the source selects, and none is lost while its slot is free |
| `AddrManReading.OtherMapReads` | src/addrman.cpp:133-399 | what was written is accepted under any other AS map; the invariant holds, every entry was there before in the same table with its persisted fields, no tried slot that is hashed to stays vacant; if the checksum differs all references stand where the sources select, and every such slot is taken |
| `AddrManReading.HeaderRefused` | src/addrman.cpp:243-280 | a file is refused as too new exactly above 36, as corrupt below 32 or with counts out of range; what is accepted is consistent |
| `AddrManRoundTrip.RestoredIsRenumbered` | src/addrman.cpp:231-399 | entries and references read one by one make up the whole state |
| `AddrManRoundTrip.RestoreAll` | src/addrman.cpp:341-376 | restoring the references recorded for the buckets gives every entry exactly its references |
| `AddrManRoundTrip.NewFits` | src/addrman.cpp:268-273 | the number of new entries always passes the plausibility check on reading |
| `AddrManRoundTrip.TriedFitsTable` | src/addrman.cpp:275-280 | so does the number of tried entries |
| `AddrManRoundTrip.HeaderReads` | src/addrman.cpp:133-265 | the header written is accepted, with the format, key and counts it was written with |
| `CheckQueueRuns.CompleteIsRight` | src/checkqueue.h:72-189 | in every interleaving each return of Complete is nothing exactly if all checks of its round pass, and otherwise the failure of one of them, stale local results notwithstanding |
| `CheckQueueRuns.RoundsPartition` | src/checkqueue.h:166-189 | the rounds are exactly the checks added, cut at the returns of Complete |
| `CheckQueueRuns.AllAccounted` | src/checkqueue.h:80-127 | at every point nTodo is the queued checks plus those in flight (as an unsigned number), every check added is queued, in flight or done exactly once, and a batch is between 1 and the length of the queue |
| `CheckQueueRuns.NeverStuck` | src/checkqueue.h:98-110 | while the master is in Complete some useful step is possible; if it waits without having been notified, the queue is empty and a worker holds a batch and can go on |
| `CheckQueueRuns.StepWeighs` | src/checkqueue.h:80-136 | within Complete every step but an idle wake-up lowers a measure, and an idle wake-up changes nothing |
| `CheckQueueRuns.CompleteEnds` | src/checkqueue.h:166-169 | so the steps within Complete are bounded in number |
| `CheckQueueRuns.CompleteReturns` | src/checkqueue.h:166-169 | from every reachable state the steps within Complete are bounded, and until the master is out one can be taken |
| `CheckQueueRuns.RunSettles` | src/checkqueue.h:72-137 | every run keeps the condition that NeverStuck needs |
| `CheckQueueSafety.RunKeeps` | src/checkqueue.h:72-189 | every run keeps the invariant of threads, counters, results and history, if workers times batch size fits in an unsigned int |
| `CheckQueueSafety.StepKeeps` | src/checkqueue.h:72-189 | so does every step |
| `CheckQueueSafety.BatchInRange` | src/checkqueue.h:121-124 | a batch has at least one check, at most all that are queued, and no more than the batch size |
| `CheckQueueSafety.BatchExact` | src/checkqueue.h:115-121 | a batch is the largest within the batch size such that all threads, idle ones included, could take as much, but at least one check |
| `CheckQueueSafety.NoneInFlight` | src/checkqueue.h:98-106 | when the count is 0 and the queue empty no batch is in flight and all that was added is done |
| `CheckQueueSafety.CleanUpKeeps` | src/checkqueue.h:84-96 | the account of a finished batch keeps the invariant, with a local result swapped in or not |
| `ArithUint.BaseUint.Add` | src/arith_uint256.h:116-126 | addition modulo 2^BITS, for any width and also onto itself |
| `ArithUint.BaseUint.Increment` | src/arith_uint256.h:154-161 | plus one, modulo 2^BITS |
| `ArithUint.BaseUint.Decrement` | src/arith_uint256.h:171-178 | minus one, modulo 2^BITS |
| `ArithUint.BaseUint.Complement` | src/arith_uint256.h:50-56 | 2^BITS - 1 minus the number |
| `ArithUint.BaseUint.Negate` | src/arith_uint256.h:58-65 | the number that adds to 0 modulo 2^BITS |
| `ArithUint.BaseUint.Subtract` | src/arith_uint256.h:128-132 | subtraction modulo 2^BITS |
| `ArithUint.BaseUint.Set` | src/arith_uint256.h:69-76 | the 64-bit value |
| `ArithUint.BaseUint.GetLow64` | src/arith_uint256.h:226-230 | the number modulo 2^64 |
| `ArithUint.BaseUint.TimesWord` | src/arith_uint256.cpp:47-57 | the product with a 32-bit number modulo 2^BITS |
| `ArithUint.BaseUint.AddProduct` | src/arith_uint256.cpp:63-71 | one row of long multiplication; the accumulator never exceeds 64 bits |
| `ArithUint.BaseUint.Times` | src/arith_uint256.cpp:59-73 | the product modulo 2^BITS, also of the number with itself |
| `ArithUint.BaseUint.ShiftLeft` | src/arith_uint256.cpp:13-28 | times 2^shift modulo 2^BITS, for every shift |
| `ArithUint.BaseUint.ShiftRight` | src/arith_uint256.cpp:30-45 | the floor quotient by 2^shift, for every shift |
| `ArithUint.BaseUint.CompareTo` | src/arith_uint256.cpp:101-111 | the sign of the difference |
| `ArithUint.BaseUint.Bits` | src/arith_uint256.cpp:155-168 | n with 2^(n-1) <= value < 2^n, or 0 |
| `ArithUint.BaseUint.LongDivide` | src/arith_uint256.cpp:87-98 | the shift-subtract loop ends with dividend == quotient * divisor + rest and rest below the divisor |
| `ArithUint.BaseUint.Divide` | src/arith_uint256.cpp:75-99 | the floor quotient, with the rest left in the dividend; dividing by 0 is the error, and only that |
| `Compact.SetCompact` | src/arith_uint256.cpp:175-193 | the number is mantissa times 256^(size-3) modulo 2^256, the sign flag is set exactly for a nonzero mantissa with the sign bit, the overflow flag exactly if the number needs more than 256 bits |
| `Compact.GetCompact` | src/arith_uint256.cpp:195-216 | the compact form of the number, with the sign bit for a negative nonzero one |
| `Compact.OverflowExact` | src/arith_uint256.cpp:189-191 | the three byte tests hold exactly if the number is at least 2^256 |
| `Compact.MantissaRange` | src/arith_uint256.cpp:195-216 | a nonzero mantissa has its highest bit among bits 15 to 22 |
| `Compact.CompactMonotone` | src/arith_uint256.cpp:195-216 | the compact form keeps the order of numbers |
| `Compact.RoundedClose` | src/arith_uint256.cpp:175-216 | decoding the compact form gives at most the number, short of it by at most one part in 2^15 |
| `Compact.CompactIdempotent` | src/arith_uint256.cpp:175-216 | what has been through the compact form is not changed by it again |
| `Compact.CompactRoundTrip` | src/arith_uint256.cpp:175-216 | SetCompact of GetCompact: rounded as above, sign kept, and compacting again gives the same word |
| `Compact.Examples` | src/test/arith_uint256_tests.cpp:426-524 | the values of some compact words |
| `Bech32.PolyMod` | src/bech32.cpp:115-201 | the loop computes the fold of the step that the lemmas below are about |
| `Bech32.StepXor` | src/bech32.cpp:183-196 | a step is linear |
| `Bech32.StepKernel` | src/bech32.cpp:183-196 | a step loses nothing: only 0 goes to 0 |
| `Bech32.FoldXor` | src/bech32.cpp:115-201 | the checksum is linear in the values and in the start |
| `Bech32.DifferenceStays` | src/bech32.cpp:115-201 | a difference stays, however many equal values follow |
| `Bech32.FewValues` | src/bech32.cpp:115-201 | up to six values are told apart |
| `Bech32.BurstDetected` | src/bech32.cpp:115-201 | values of any length that differ, but only within six places in a row, have different checksums |
| `Bech32.SubstitutionDetected` | src/bech32.cpp:297-309 | one substituted value never verifies under the same encoding, at any length |
| `Bech32.PreparePolynomialCoefficients` | src/bech32.cpp:345-359 | the expanded human-readable part, then the values |
| `Bech32.VerifyChecksum` | src/bech32.cpp:297-309 | Bech32 exactly if the remainder is 1, Bech32m exactly if it is 0x2bc830a3 |
| `Bech32.CreateChecksum` | src/bech32.cpp:312-323 | six values after which the remainder is 1 for Bech32 and 0x2bc830a3 for Bech32m |
| `Bech32.ChecksumVerifies` | src/bech32.cpp:297-323 | with the created checksum behind them the values verify as that encoding |
| `Bech32Strings.CheckCharacters` | src/bech32.cpp:272-294 | the places of bad characters, and none exactly if the string is clean |
| `Bech32Strings.ScanFindsErrors` | src/bech32.cpp:272-294 | no error is found exactly for strings of printable characters in one case |
| `Bech32Strings.ScanExact` | src/bech32.cpp:272-294 | the places are, in order and without repetition, exactly those of characters that cannot be printed and of letters whose case is not that of the first letter |
| `Bech32Strings.Encode` | src/bech32.cpp:362-410 | the lower-case string of human-readable part, separator, values and checksum, which Decode reads back (RoundTrip) and which is the published one for the published strings |
| `Bech32Strings.Decode` | src/bech32.cpp:378-417 | the result of parsing and verifying, Invalid on every error; AcceptedExactly says for which strings |
| `Bech32Strings.RoundTrip` | src/bech32.cpp:362-417 | Decode of Encode gives back encoding, human-readable part and values, within the limit |
| `Bech32Strings.ChecksumUnique` | src/bech32.cpp:297-323 | only one checksum verifies |
| `Bech32Strings.Canonical` | src/bech32.cpp:378-417 | every accepted string is, up to case, the one its contents encode to |
| `Bech32Located.AcceptedExactly` | src/bech32.cpp:370-417 | a string is accepted as an encoding exactly if it is printable and of one case, within the limit, has a last separator with a character before it and at least six behind it, data in the alphabet, and the remainder of that encoding |
| `Bech32Published.ShortDecodes` | src/test/bech32_tests.cpp:18-18 | A12UEL5L is Bech32 for a, and is what is written for it up to case |
| `Bech32Published.ShortMDecodes` | src/test/bech32_tests.cpp:38-38 | A1LQFN3A is Bech32m for a |
| `Bech32Published.WholeDecodes` | src/test/bech32_tests.cpp:21-21 | the published string of the whole alphabet is Bech32 for abcdef and the values 0 to 31 in order |
| `Bech32Field.Order` | src/bech32.cpp:31-100 | the generator of GF(1024) is primitive: its powers below 1023 are not 1 |
| `Bech32Field.EInjective` | src/bech32.cpp:31-100 | its powers below 1023 are all different |
| `Bech32Field.IterIsMul` | src/bech32.cpp:31-100 | multiplying by the generator k times is multiplying by its k-th power |
| `Bech32Syndrome.EvalStep` | src/bech32.cpp:204-224 | at a root of the generator polynomial, a checksum step multiplies by a power and adds the value |
| `Bech32Syndrome.ErrorSyndrome` | src/bech32.cpp:204-263 | the value there of what one error leaves is the error times a power that tells its place |
| `Bech32Locate.GenerateGF32` | src/bech32.cpp:33-61 | exponent and logarithm tables of GF(32) are inverse to one another |
| `Bech32Locate.GenerateGFTables` | src/bech32.cpp:31-100 | exponent and logarithm tables of GF(1024) are inverse to one another |
| `Bech32Locate.GenerateSyndromeConstants` | src/bech32.cpp:225-239 | the 25 constants are the values of single bits at the three roots |
| `Bech32Locate.Syndrome` | src/bech32.cpp:246-263 | the table sum is the value of the remainder, as a polynomial, at the three roots |
| `Bech32Locate.FindErrors` | src/bech32.cpp:463-577 | none if the checksum is right, otherwise the places of PossibleErrors, which SearchIsExact says are right |
| `Bech32Locate.LocateErrors` | src/bech32.cpp:420-589 | message and positions on every branch, over both encodings; what they mean is stated by SearchIsExact and in Bech32Located |
| `Bech32Locate.CompareEncodings` | src/bech32.cpp:460-588 | of the encodings that explain the string by errors the one with fewer is reported, the first if equal; a string that verifies has none |
| `Bech32Algebra.PowerOf` | src/bech32.cpp:31-100 | every nonzero element of GF(1024) is a power of the generator |
| `Bech32Algebra.MulAssociates` | src/bech32.cpp:31-100 | multiplication in GF(1024) is associative |
| `Bech32Errors.ErrorTerms` | src/bech32.cpp:204-263 | the three values of one error at a place are a geometric progression whose ratio tells the place |
| `Bech32Errors.ThreeErrorsDetected` | src/bech32.cpp:115-201 | up to 1023 values that differ in at most three places have different checksums, as the generator is chosen for |
| `Bech32Kernel.SyndromeInjective` | src/bech32.cpp:204-263 | the three values determine the remainder |
| `Bech32Search.SearchIsExact` | src/bech32.cpp:476-577 | one place is returned exactly if one error there explains the remainder; two exactly if two errors do, and the two returned do; at most two, and otherwise none |
| `Bech32Clash.OneKeepsApart` | src/bech32.cpp:106-110 | no one error turns a valid string of one encoding into a valid one of the other |
| `Bech32Clash.TwoThatClash` | src/bech32.cpp:106-110 | two errors within 1023 values do so exactly if both differ by 19 and they are 33 and 192 places before the end |
| `Bech32Located.Bech32ErrorLocated` | src/bech32.cpp:420-589 | a valid Bech32 string with one data character changed to another of the alphabet is reported with exactly that place |
| `Bech32Located.Bech32mErrorLocated` | src/bech32.cpp:420-589 | so is a valid Bech32m string, exactly if the change is not one by 19 at place 33 or 192 with both places in the data; then the other place is reported |
| `Bech32Located.ErrorLocated` | src/bech32.cpp:420-589 | with at most 192 values behind the separator every such change is reported at its place, for both encodings |
| `Bech32Located.Mislocated` | src/bech32.cpp:460-588 | every Bech32m string of more than 192 values has a change that is reported 159 places before where it is |
| `Bech32Located.BadValueLocated` | src/bech32.cpp:449-458 | a data character changed to one outside the alphabet is reported at exactly that place |
| `Bech32Located.BadCharacterLocated` | src/bech32.cpp:272-294 | a character that cannot be printed, or of the other case behind a letter, is reported, alone |
| `Bech32Located.BadCharactersLocated` | src/bech32.cpp:420-432 | in any string within the limit the wrong characters, if any, are reported, all and only these |
| `Bech32Located.SeparatorLocated` | src/bech32.cpp:434-441 | a data character changed into a separator is taken as the separator: it is reported if it is one of the last six characters, otherwise the search goes on behind it |
| `Bech32Located.ShapeReported` | src/bech32.cpp:420-458 | which strings are reported as too long, with wrong characters, without a separator, with a misplaced one or with a character outside the alphabet, each exactly, and with which places |
| `Bech32Repair.OneIsRepair` | src/bech32.cpp:487-506 | one error at a place explains the remainder exactly if changing the value at that place alone gives a valid string |
| `Bech32Repair.TwoIsRepair` | src/bech32.cpp:507-569 | two errors at two places explain it exactly if changing both values, and no others, does |
| `Bech32Repair.LocatedMends` | src/bech32.cpp:420-589 | for every readable string: no error exactly if it is valid; otherwise the message names the encoding that fewest changes lead to and the one or two places whose characters, changed, give a valid string; no places exactly if no one or two changes do |
| `Bech32Repair.TwoChangesReported` | src/bech32.cpp:420-589 | a valid string with two data characters changed is reported with one or two places whose change gives a valid string again, one only if it is of the other encoding; the one exception, changes by 19 at places 33 and 192, gives a valid string |
| `Base58.EncodeBase58` | src/base58.cpp:89-127 | the nested loops over the buffer compute the digits of the number, with a 1 for each leading zero byte |
| `Base58.DecodeBase58` | src/base58.cpp:40-87 | spaces around the word are skipped, the bytes of its number follow a zero for each leading 1, and any other string or a result longer than the limit is refused |
| `Base58.EncodeFits` | src/base58.cpp:98-115 | the buffer of 138/100 always holds the number, so the carry is 0 at the end |
| `Base58.DecodeFits` | src/base58.cpp:53-73 | the buffer of 733/1000 always holds the number, so the carry is 0 at the end |
| `Base58.InAlphabet` | src/base58.cpp:20-20 | the table of characters is the alphabet |
| `Base58.AlphabetDigits` | src/base58.cpp:21-38 | the reverse table has exactly the characters of the alphabet, each with its place |
| `Base58.PublishedString` | src/test/data/base58_encode_decode.json:12-12 | 10c8511e is written Rt5zm |
| `Base58.SpacesIgnored` | src/base58.cpp:42-87 | spaces around a word change nothing |
| `Base58.RoundTrip` | src/base58.cpp:40-127 | Decode of Encode is the identity on byte strings within the limit, and fails beyond it |
| `Base58.RoundTripBack` | src/base58.cpp:40-127 | Encode of Decode is the identity on accepted strings without spaces around them |
| `Base58.CheckRoundTrip` | src/base58.cpp:137-169 | the same with the checksum behind the bytes, for any checksum function |
| `Base58.CheckRoundTripBack` | src/base58.cpp:137-169 | the same the other way |
| `Radix.SizeSuffices` | src/base58.cpp:54 | if p digits of one base fit in q of another, n fit in n*q/p + 1 |
| `Radix.Sizes256To58` | src/base58.cpp:99 | 256^100 <= 58^138 |
| `Radix.Sizes58To256` | src/base58.cpp:54 | 58^1000 <= 256^733 |
| `Radix.MulAdd` | src/base58.cpp:105-110 | the inner loop multiplies the number in the buffer and adds, and counts the digits in use |
| `CompactBlockTheorems.Reconstructs` | src/blockencodings.cpp:20-228 | a block of at most 65535 transactions, not mutated and without short-id collision, sent in compact form to any mempool and extra list: InitData accepts it and FillBlock with the missing transactions gives the block |
| `CompactBlockTheorems.LookedAgrees` | src/blockencodings.cpp:50-176 | whatever InitData found for such a block is in its place in the block |
| `CompactBlockTheorems.FillGivesBlock` | src/blockencodings.cpp:186-228 | filling slots that agree with a block with its missing transactions, in order, gives the block |
| `CompactBlockTheorems.IdsInOrder` | src/blockencodings.cpp:58-105 | in any accepted message the short ids belong to the slots not prefilled, one to one and in order |
| `CompactBlockTheorems.LookedFacts` | src/blockencodings.cpp:110-171 | for any accepted message: prefilled slots are as sent, every other slot is empty or holds a known transaction with its short id, and both counters are exact, counted from where they stood |
| `CompactBlockTheorems.CountsExact` | src/blockencodings.cpp:110-171 | on first use the counted and the missing transactions are all the short ids, and those counted as extra are the slots filled from the extra list |
| `CompactBlockTheorems.FoundAndEmpty` | src/blockencodings.cpp:110-171 | found and empty slots together are the short ids |
| `CompactBlockTheorems.PrefilledPlaces` | src/blockencodings.cpp:61-77 | the prefilled transactions are acceptable exactly if none is null and each place, counted from the one before, is within 16 bits and the block so far; they fill these places and no others |
| `CompactBlockTheorems.InitStatusExact` | src/blockencodings.cpp:50-105 | for which messages InitData answers invalid, failed and ok, each exactly |
| `CompactBlockLookup.LookupExact` | src/blockencodings.cpp:110-171 | on first use a slot holds the one transaction with its short id, if the mempool has at most one and all in both lists have one witness hash; if some short id is unknown, so that no scan ends early, it is empty in every other case |
| `CompactBlockLookup.EmptyExactly` | src/blockencodings.cpp:50-176 | for a block of our own making without collision exactly the transactions in neither list are left to ask for |
| `CompactBlock.PoolScanKeeps` | src/blockencodings.cpp:110-137 | the scan of the mempool keeps slots, sources and counter in step, collisions included |
| `CompactBlock.ExtraScanKeeps` | src/blockencodings.cpp:139-171 | so does the scan of the extra list, with both counters |
| `CompactBlockDownload.PartialBlock.InitData` | src/blockencodings.cpp:50-176 | the status for every message of at most 65535 entries, the slots and counters of LookupExact and LookedFacts, and what object each kind of refusal leaves |
| `CompactBlockDownload.PartialBlock.Prefill` | src/blockencodings.cpp:61-77 | prefilled transactions go to their slots, or the message is refused; no index is out of range |
| `CompactBlockDownload.PartialBlock.MapShortIds` | src/blockencodings.cpp:83-105 | the map from short ids to slots, never beyond the last slot, unless a hash bucket is crowded |
| `CompactBlockDownload.PartialBlock.IsTxAvailable` | src/blockencodings.cpp:178-184 | false exactly for what has to be asked for, all of it if nothing is being downloaded |
| `CompactBlockDownload.PartialBlock.RequestIndexes` | src/net_processing.cpp:14936-14940 | the indexes asked for are the empty slots in order, as many as FillBlock takes |
| `CompactBlockDownload.PartialBlock.FillBlock` | src/blockencodings.cpp:186-228 | the status, the block assembled in order, the object emptied, and if too few transactions are sent the slots emptied up to the first without one |
| `GolombRice.Encode` | src/util/golombrice.h:15-29 | the code is appended to the bits |
| `GolombRice.Decode` | src/util/golombrice.h:32-43 | the first code, or nothing if the bits end in it |
| `GolombRice.CodeDecodes` | src/util/golombrice.h:15-43 | decoding a code gives the number and the length of the code, whatever follows |
| `GolombRice.DecodedIsCode` | src/util/golombrice.h:15-43 | only codes decode |
| `GolombRice.CodeShape` | src/util/golombrice.h:15-29 | a code is as many ones as the quotient by 2^P, a zero, and P bits of the remainder, the highest first |
| `GcsFilter.ScaledExactly` | src/util/fastrange.h:25-49 | the hashes that go to y are those of the y-th of f equal parts of the 64-bit range |
| `GcsFilter.ScaledInOrder` | src/util/fastrange.h:25-49 | order is kept and the result is below f |
| `GcsFilter.ScaledOnto` | src/util/fastrange.h:25-49 | every value below f is reached, for f up to 2^64 |
| `GcsFilter.BuildHashedSet` | src/blockfilter.cpp:35-44 | the hashes of exactly these elements, in order |
| `GcsFilter.NewFilter` | src/blockfilter.cpp:75-103 | the filter encodes exactly the hashes of its elements; it fails exactly for 2^32 elements or more |
| `GcsFilter.MatchInternal` | src/blockfilter.cpp:105-135 | the single walk over both lists finds whether they have a value in common, also with repeated values |
| `GcsFilter.Match` | src/blockfilter.cpp:137-141 | true exactly if the hash of the element is among the values |
| `GcsFilter.MatchAny` | src/blockfilter.cpp:143-147 | true exactly if some element has its hash among the values |
| `GcsFilter.BuildAndMatch` | src/blockfilter.cpp:35-147 | a filter of S matches Q exactly if some element of Q has the hash of some element of S, so there are no false negatives |
| `GcsFilter.ReadFilter` | src/blockfilter.cpp:50-73 | an accepted encoding holds exactly n values and no whole byte more, and every such encoding is accepted, with the values it encodes |
| `BanManRuns.FromStart` | src/banman.cpp:21-263 | from start-up on, with bans that end after time 0: at most one scheduled sweep has the current number; once sweeping has started one is scheduled no later than the end of any ban, or is due; and a clean list with no dump in flight is the one on disk |
| `BanManRuns.RunKeeps` | src/banman.cpp:39-263 | every interleaving of the locked sections and of dumps keeps that |
| `BanManRuns.StepKeeps` | src/banman.cpp:39-263 | so does every single section |
| `BanManRuns.BanKeepsExactly` | src/banman.cpp:180-211 | banning keeps it exactly if the ban ends after time 0, or the subnet has an entry, or the list is to be saved anyway and no later sweep is scheduled |
| `BanManRuns.BanEndsByZero` | src/banman.cpp:182-191 | a ban ends at time 0 or before exactly if it takes the default time and that is at most minus the clock |
| `BanManRuns.EmptyEntryUnsaved` | src/banman.cpp:180-206 | from a clean start a ban leaves an unsaved empty entry in a list that counts as clean exactly then |
| `BanManRuns.RunAnswers` | src/banman.cpp:39-263 | in every run whether a valid subnet is banned, now or later, is decided by the bans and their removal alone, as if nothing were ever swept |
| `BanManRuns.SameForAddresses` | src/banman.cpp:139-152 | and so for addresses |
| `BanManRuns.SweptAnswersExactly` | src/banman.cpp:239-257 | sweeping leaves the later answers for a subnet unchanged exactly if it is valid or was not banned |
| `BanManRuns.InvalidBanSwept` | src/banman.cpp:180-257 | a run in which the ban of an invalid subnet is gone before it ends and without being removed |
| `BanManRuns.Restart` | src/banman.cpp:79-96 | a clean list with no dump in flight gives the same answers after a restart |
| `BanManImpl.BanList.constructor` | src/banman.cpp:79-96 | the list is what the disk holds, swept, or empty and to be saved if it cannot be read |
| `BanManImpl.BanList.SweepBanned` | src/banman.cpp:239-263 | the loop drops exactly the expired and invalid entries and marks the list if there were any |
| `BanManImpl.BanList.ScheduleNextSweep` | src/banman.cpp:60-77 | one job under a new number at the earliest expiry, or none |
| `BanManImpl.BanList.FindEarliest` | src/banman.cpp:67-70 | the least expiry, or the largest time |
| `BanManImpl.BanList.EnsureSweepScheduled` | src/banman.cpp:39-45 | the first call sweeps and schedules, any other does nothing |
| `BanManImpl.BanList.Fire` | src/banman.cpp:53-58 | a job under an old number does nothing |
| `BanManImpl.BanList.AddBan` | src/banman.cpp:193-206 | the new state of the locked part, and whether the ban was longer than the one there |
| `BanManImpl.BanList.BanSubnet` | src/banman.cpp:180-211 | afterwards a valid subnet is banned at a time from then on exactly if it was before or the time is before the clock plus the offset, before the offset itself if it is since the epoch, before the clock plus the default for an offset of at most 0; the list is saved if it changed |
| `BanMan.BanHolds` | src/banman.cpp:180-211 | a ban holds until its end or that of a longer one, sweeps do not shorten it, and bans on other subnets are as they were |
| `BanManImpl.BanList.UnbanSubnet` | src/banman.cpp:219-229 | true exactly if there was an entry, which is removed and the list saved |
| `BanManImpl.BanList.ClearBanned` | src/banman.cpp:122-131 | the empty list, saved |
| `BanManImpl.BanList.DumpBanlist` | src/banman.cpp:98-120 | both parts of a dump; a failed write leaves the list to be saved |
| `BanManImpl.BanList.GetBanned` | src/banman.cpp:231-237 | exactly the valid subnets whose bans have not ended |
| `BanManImpl.BanList.IsAddressBanned` | src/banman.cpp:139-152 | true exactly if some entry that has not ended matches |
| `ChaCha20.Cipher.Keystream` | src/crypto/chacha20.cpp:282-301 | the next bytes of the key stream, from the buffer, whole blocks and part of one more |
| `ChaCha20.Cipher.Crypt` | src/crypto/chacha20.cpp:303-330 | the input XOR the next bytes of the key stream, however the message is cut into calls |
| `ChaCha20.Cipher.Seek` | src/crypto/chacha20.h:103-108 | the position in the key stream |
| `Bip324Impl.StreamCipher.Crypt` | src/crypto/chacha20.cpp:350-372 | the output and the next state, with a new key from the stream after 224 uses |
| `Bip324Impl.PacketCipher.Encrypt` | src/crypto/chacha20poly1305.cpp:69-128 | the sealed text of both parts, and the next state |
| `Bip324Impl.PacketCipher.Decrypt` | src/crypto/chacha20poly1305.cpp:83-135 | the two parts exactly if the tag is right; the state goes on in any case |
| `Bip324Impl.PacketCipher.NextPacket` | src/crypto/chacha20poly1305.cpp:106-122 | the next nonce, with a new key after 224 packets |
| `Bip324Impl.PacketEndpoint.Initialize` | src/bip324.cpp:35-79 | four ciphers by side, terminators by role, session id and rekey secret from the shared secret |
| `Bip324Impl.PacketEndpoint.RekeyHybridPQ` | src/bip324.cpp:81-118 | four new ciphers from both secrets, once; session id and terminators stay |
| `Bip324Impl.PacketEndpoint.Encrypt` | src/bip324.cpp:120-144 | the length cipher and the packet cipher, given header and contents as two parts, together make the packet of PacketOpens and the next keys |
| `Bip324Impl.PacketEndpoint.DecryptLength` | src/bip324.cpp:146-155 | the length cipher gives the length of PacketOpens; no other cipher goes on |
| `Bip324Impl.PacketEndpoint.Decrypt` | src/bip324.cpp:157-166 | contents and ignore bit exactly if the packet authenticates; only the packet cipher goes on |
| `Bip324.SealUnseal` | src/crypto/chacha20poly1305.cpp:69-97 | opening undoes sealing under the same key, nonce and associated data |
| `Bip324.LengthRoundTrip` | src/bip324.cpp:133-155 | the three length bytes give back every length up to 2^24 - 1 |
| `Bip324.PacketOpens` | src/bip324.cpp:120-166 | under the same keys a packet opens to its length, contents and ignore bit |
| `Bip324Runs.Paired` | src/bip324.cpp:35-166 | two endpoints of opposite roles agree on session and terminators; in every run of sends and receives on both sides, across a rekey at the same boundary, everything arrives in order as it was sent |
| `Bip324Runs.RunKeeps` | src/bip324.cpp:81-166 | every run keeps both directions in step, with packets of either key generation on their way |
| `Bip324Runs.RekeyFirstKeeps` | src/bip324.cpp:81-118 | the first rekey keeps the packets before and after it readable |
| `Bip324Runs.RekeySecondKeeps` | src/bip324.cpp:81-118 | the second rekey brings both directions back in step |
| `Bip324Format.PacketsCounted` | src/crypto/chacha20poly1305.cpp:106-124 | after n packets the counter is n mod 224 and the rekeys are n / 224; every 224 packets the key for contents becomes the first half of block 1 under nonce (0xFFFFFFFF, rekeys), the key for lengths the 32 bytes behind the 672 used |
| `Bip324Format.NoncesDiffer` | src/crypto/chacha20poly1305.cpp:106-136 | no two packets share a nonce, and none has the one for the next key |
| `Bip324Format.WireFormat` | src/bip324.cpp:120-144 | the bytes of the n-th packet: the length at place 3 (n mod 224) of its stream, header and contents from block 1 on under nonce (n mod 224, n / 224), the tag under the first half of block 0 |
| `Bip324Format.LengthLowFirst` | src/bip324.cpp:133-138 | the length is written lowest byte first |
| `Bip324Format.IgnoredExactly` | src/bip324.cpp:164-164 | the highest bit of the header alone decides |
| `Bip324Format.SessionKeys` | src/bip324.cpp:35-79 | salts, labels and sides of all keys of a new session, and whose half of the terminators is which |
| `Bip324Format.HybridKeys` | src/bip324.cpp:81-118 | the rekey takes kept and new secret under its own salt, once, and leaves session, side and terminators |
| `Bip324Format.RunNumbered` | src/bip324.cpp:81-166 | in every run both sides number their packets without a gap, from 0 and again from 0 after the rekey |
| `BlockPack.Pack` | contrib/shielded_transfer_builder.py:366-403 | it fails exactly if some transaction exceeds a limit by itself, naming the first, and then there is no packing at all; otherwise the blocks are a packing in order within both limits, with the right records, and no packing has fewer blocks |
| `BlockPack.Fewest` | contrib/shielded_transfer_builder.py:366-403 | a packing whose blocks, except the last, have no room for the next transaction has the fewest blocks |
| `BlockPack.NeverAhead` | contrib/shielded_transfer_builder.py:366-403 | no packing covers more transactions with as many blocks |
| `Planner.FundChunk` | contrib/shielded_transfer_builder.py:414-451 | an accepted answer is authoritative, at the required fee, for the lesser of what remains and what the gross amount leaves; at most six calls |
| `Planner.PlanDestination` | contrib/shielded_transfer_builder.py:635-684 | what remains strictly decreases, and on success the transactions add up to exactly the amount, all for this destination; each has fee, inputs and sizes of an authoritative answer of the wallet to its own amount and fee |
| `Planner.PlanAll` | contrib/shielded_transfer_builder.py:635-684 | on success every destination gets exactly its amount; on failure those before some one do, that one not yet and no later one anything; every input is locked |
| `Planner.CheckInputs` | contrib/shielded_transfer_builder.py:686-692 | true exactly if no input occurs twice, in one transaction or two |
| `Planner.Write` | contrib/shielded_transfer_builder.py:636-702 | what is written pays every destination exactly, with the total requested, no input twice and the fewest blocks; on every way out exactly the inputs of the transactions planned so far are locked, and these pay the destinations in order |
| `Planner.Plan` | contrib/shielded_transfer_builder.py:599-722 | a plan is as Write states; a failure after writing means that unlocking was refused; after success and after failure exactly the inputs of the transactions planned so far stay locked, or none if locks are to be dropped or undone and the wallet agrees to unlock |

## Left out

- File and network access, JSON, byte formats of addresses and transactions: the address file is a
  sequence of typed tokens, the ban list on disk is a map.
- AddrManDisk: writing and reading the address file are functions on values, since what counts is
  the stream; the loops of the source over a stream object are not repeated as methods.
- AddrManCheck.CheckAddrman: which of its negative codes an inconsistent state gets is not stated.
- AddrManCollisions.ResolveSettles: for calls in which the clock goes on by less than four hours; in a
  longer one a newcomer could be replaced in its turn. ResolveStepSettles has no such condition.
- AddrManReading.AnyFileReads: not for files that repeat an address or hold a new address that is not valid,
  which the node never writes.
- Floating point and probability in the address manager: `GetChance` and the random selection in
  `Select_` and `GetEntry`.
- Network-count completeness as a consequence of the consistency check: the check does not force it
  (src/addrman.cpp:1156-1163); it is part of the invariant instead.
- Stopping the check queue and its destructor; fairness of the scheduler of threads.
- CheckQueueSafety.RunKeeps: requires that (workers + 1) * max(1, batch size) is below 2^32, the
  range of the unsigned counters.
- Bech32Located.BadCharacterLocated: not for a changed letter before any other letter, where the later letters
  are reported instead; BadCharactersLocated covers it.
- Detection of four errors within 89 characters (src/bech32.cpp:126), for which the generator was
  selected by search; three within 1023, which follow from its roots, are proved.
- Strings of more than 1023 characters in Bech32Locate and Bech32Located, where logarithms wrap around.
- CompactBlockDownload.PartialBlock.InitData: the hash-bucket load of the short-id map is an arbitrary
  function; the counters are only reset by making a new object, as in the source.
- The relative encoding of prefilled indexes (src/blockencodings.h:22-42) and of requested ones.
- GcsFilter.MatchInternal: sums of differences are not cut to 64 bits; for filters built from elements
  they stay below 2^64, for an encoding from elsewhere the source may wrap.
- BanManRuns.FromStart: one clock for the ban list and the scheduler, which never goes back; delays are
  not limited by the range of the millisecond and nanosecond types of the scheduler, and times are not
  cut to 64 bits, where overflow is undefined in the source.
- The list of discouraged addresses, a probabilistic filter.
- ChaCha20.Cipher.Crypt: the block function is any function; the 32-bit block counter is unbounded.
- Planner.Plan: a failing call that locks inputs locks none; previews are any answers of the wallet.
- Matrix-multiplication proof of work, the shielded pool, difficulty adjustment, command-line tools.
