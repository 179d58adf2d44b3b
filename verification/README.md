# Bitmark core algorithms, verified in Dafny

This project models the self-contained algorithms and state machines at the heart of the
Bitmark node and proves what they are for. It follows the C and C++ code, branch by branch;
where that code updates objects, arrays or buffers in place, so does the model, and each
method is proved against a specification whose properties are then proved as lemmas.
Hash functions, bucket hashing, mixing functions, random numbers and the clock are
arbitrary functions or arbitrary choices, so every result holds for all of them.

`dafny verify dfyconfig.toml` checks the whole project. Every lemma switches automatic
induction off, so each induction is written out as a recursive call.

* **Address manager** (`AddrTables`, `AddrSteps`, `AddrMoves`, `AddrSpec`, `AddrCheck`,
  `AddrChoice`, `AddrVictims`, `AddrMan`, `AddrStore`, `AddrRestore`, `AddrRuns`). Five
  interlinked indexes are kept consistent by every operation. Operations are specified on
  the *view*: the map from addresses to entries that is left when internal ids are
  forgotten. The invariant is compared with the code's own self-check in both directions
  and over whole runs, and storing and reloading gives the same view.
* **Check queue** (`CheckQueue`, `CheckQueueRuns`). The critical sections are methods of a
  class; the interleavings of one master and any number of workers are a state machine
  over the functions that specify them, with spurious wake-ups.
* **Equihash** (`Words`, `Packing`, `IndexCodec`, `EquihashRows`, `EquihashTrees`,
  `EquihashValidator`, `EquihashMerges`, `EquihashRound`, `EquihashSolver`,
  `EquihashLeaves`, `EquihashWidths`, `EquihashNoReturn`). Bit packing through a 32-bit
  accumulator, the validator against an independent definition of a solution, and the
  basic solver, whose rounds overwrite the table they read.
* **Hash engines** (`Fugue`, `FugueMacros`, `FugueStream`, `Blake2s`, `Blake`, `Lyra2`,
  `Lyra2Input`, `Modular`, `Octets`, `ByteOrder`).
  Register renaming against physical rotation, buffering and counters against RFC 7693 and
  the SHA-3 proposal BLAKE, and the row schedule of Lyra2.
* **Codecs, trees and coins** (`Powers`, `Base58`, `Base58Text`, `Merkle`, `AuxPow`,
  `Amounts`, `Coins`, `CoinsView`).

Where code and comments disagree, the model follows the code. `SelectTried` announces the
least recently tried of the entries it inspects, but it compares the last success and
records the position an entry was taken from, after moving the entry elsewhere.
`Check_` reads as if it only looked, but its lookup enters a missing address.

Some results are about what does not hold, with the exact condition when it does. `Good_`
and `Attempt_` keep the time stamps the self-check asks for exactly when the clock reading
fits, so the self-check accepts every state of a run exactly when all readings fit
(`AddrRuns.PerformAll`). The position `SelectTried` returns holds the entry it chose
exactly when that entry was picked in place (`AddrChoice.EvictsLeastRecent`); there are
draws with which that is never so (`AddrChoice.NeverEvictsLeastRecent`). The
`CCheckQueueControl` constructor reads the counters without the mutex; its assertions hold
at every moment when the mutex is free (`CheckQueueRuns.ControlAsserts`), and the first one
fails while a thread is between entering and deciding (`CheckQueueRuns.ControlInSection`).
`BasicSolve` ends without a return statement exactly when it finds nothing and its last
table has more than one row (`EquihashSolver.BasicSolve`, `EquihashSolver.LastRows`);
`EquihashNoReturn.NoReturnHappens` gives a hash state where it does. The root of a Merkle
tree determines leaf lists of one length up to collisions, but not the length
(`Merkle.RootUnique`, `Merkle.RepeatedTail`). Undoing a spent output restores the coins
exactly when they have a height or an output was left (`Coins.SpendUndone`,
`Coins.SpendNotUndone`).

A parent coinbase with the merged-mining header fixes place, tree height and slot, so it
vouches for two block hashes only if two climbs to one root show a collision of the pair
hash (`AuxPow.OneBlockPerCoinbase`). Without the header the same holds when the script has
at most one place for a root (`AuxPow.OneSlot`); two places for a tree of one leaf always
vouch for two block hashes (`AuxPow.TwoSlots`), and such a script exists
(`AuxPow.TwoBlocksWithoutHeader`). For two places of greater height it depends on preimages
of the pair hash whether both can be used.

## Model

| member | source | states |
|---|---|---|
| `AddrMan.CAddrMan.constructor` | src/addrman.h:383-391 | an empty manager satisfies the whole invariant and knows no address |
| `AddrMan.CAddrMan.Size` | src/addrman.h:393-397 | the number of addresses is nTried + nNew and never exceeds 64*64 + 256*64 = 20480 |
| `AddrTables.SizeBound` | src/addrman.h:123-134 | the invariant bounds nTried by 4096 and nNew by 16384, and vRandom lists exactly that many ids |
| `AddrMan.CAddrMan.Find` | src/addrman.cpp:83-94 | an id is found exactly for a known network address, and it is the id of the entry with that address |
| `AddrMan.CAddrMan.SwapRandom` | src/addrman.cpp:108-126 | two positions of the random order are exchanged in vRandom and in both entries, nothing else changes |
| `AddrMan.CAddrMan.SelectTried` | src/addrman.cpp:128-150 | up to four entries are shuffled to the front of the bucket; the position returned is the one the least recently successful of them was taken from; no other bucket changes |
| `AddrChoice.EvictsLeastRecent` | src/addrman.cpp:138-146 | so the entry at that position is the least recent one inspected if and only if it was picked in place, because picking moves it |
| `AddrChoice.NeverEvictsLeastRecent` | src/addrman.cpp:138-146 | with the draws 4, 5, 6, 7 it never is, whichever was chosen |
| `AddrChoice.AlwaysEvictsLeastRecent` | src/addrman.cpp:138-146 | with the draws 0, 1, 2, 3 it always is |
| `AddrMan.CAddrMan.ShrinkNew` | src/addrman.cpp:152-204 | exactly one member leaves the bucket: with result 0 the first terrible one in id order; otherwise none was, and it is the one with the smallest nTime among the members at four random places; its last reference also deletes the entry from all indexes |
| `AddrMan.CAddrMan.OldestOfFour` | src/addrman.cpp:180-192 | of the members at the four places picked, the one with the smallest nTime, the lowest id on a tie; there always is one, so the assertion holds |
| `AddrSteps.DropKeeps` | src/addrman.cpp:162-175 | taking an id out of a new bucket, and deleting its entry with its last reference, keeps the invariant, also while Add_ has raised one count ahead |
| `AddrMoves.DropView` | src/addrman.cpp:162-175 | seen by address, the entry loses that bucket, or disappears if it was the only one; no other entry changes |
| `AddrMan.CAddrMan.FindBucket` | src/addrman.cpp:287-305 | the scan from a random start always finds a bucket holding an untried id, so the bail-out cannot be taken |
| `AddrMan.CAddrMan.UnlistNew` | src/addrman.cpp:210-218 | the id leaves every new bucket and its reference count ends at 0, so the assertion holds |
| `AddrMan.CAddrMan.Evict` | src/addrman.cpp:233-261 | a full tried bucket is permuted, one entry goes back to exactly one new bucket, and the promoted id takes its place |
| `AddrMan.CAddrMan.MakeTried` | src/addrman.cpp:206-262 | the entry moves to the tried table; if its bucket is full exactly one entry of that bucket moves to one new bucket: its own if it has room, else one the promoted id left; the invariant is kept |
| `AddrMoves.PromoteKeeps` | src/addrman.cpp:224-231 | moving an entry into a tried bucket with room keeps the invariant and changes one entry of the view |
| `AddrMoves.ExchangeKeeps` | src/addrman.cpp:233-261 | exchanging it against an evicted entry keeps the invariant, all bucket sizes included, and changes two entries of the view |
| `AddrMan.CAddrMan.Good` | src/addrman.cpp:264-311 | the invariant is kept and the addresses change as GoodSpec says: time stamps reset, and a new entry becomes tried with at most one eviction |
| `AddrSpec.GoodConserves` | src/addrman.cpp:264-311 | Good_ never loses an address and changes no other new entry; the number of tried entries grows by one when the tried bucket has room, and when it is full exactly one other entry leaves the tried table |
| `AddrSpec.GoodTimes` | src/addrman.cpp:264-311 | Good_ keeps the time stamps Check_ asks for if and only if it finds no entry or nTime is positive |
| `AddrSpec.AttemptTimes` | src/addrman.cpp:370-387 | Attempt_ keeps the time stamps if and only if it finds no entry or nTime is not negative |
| `AddrSpec.AddTimes` | src/addrman.cpp:313-368 | Add_ always keeps the time stamps |
| `AddrMan.CAddrMan.Add` | src/addrman.cpp:313-368 | the invariant is kept and the addresses change as AddSpec says: a known entry is refreshed, and enters one more bucket exactly when there is news, it is untried, in fewer than four buckets and not in this one, and the random number is 0 modulo 2^N for N buckets; an unknown one is created in its bucket; a full bucket first loses one entry; the result tells whether the address is new |
| `AddrSpec.AddDeletes` | src/addrman.cpp:313-368 | Add_ deletes at most one address, never a tried one and never the one it adds |
| `AddrVictims.TerribleIsDisposable` | src/addrman.cpp:40-58 | an entry is terrible if and only if it was not tried in the last minute and has no time stamp, one over 30 days old or over 10 minutes ahead, or three attempts and never a success, or ten attempts and none for over 7 days |
| `AddrVictims.Thresholds` | src/addrman.cpp:40-58 | each of these limits to the second and to the attempt |
| `AddrVictims.AddVictim` | src/addrman.cpp:152-204 | when Add_ enters an address in a full bucket exactly one other address leaves that bucket; if the bucket lists a disposable one, the one that leaves is disposable |
| `AddrVictims.AddServices` | src/addrman.cpp:330-331 | the service bits known afterwards are those known before together with those announced |
| `AddrVictims.Uint32Is` | src/addrman.cpp:276-326 | time stamps are kept modulo 2^32 |
| `AddrVictims.FourBuckets` | src/addrman.cpp:340-342 | a known address is tried and in no new bucket, or untried and in one to four |
| `AddrMan.CAddrMan.Create` | src/addrman.cpp:96-106 | a new id, entered in mapInfo, mapAddr and at the end of vRandom |
| `AddrMan.CAddrMan.EnterNew` | src/addrman.cpp:358-367 | the id enters its bucket, after the bucket was shrunk if it was full; reference counts are exact again afterwards |
| `AddrMan.CAddrMan.Attempt` | src/addrman.cpp:370-387 | exactly the entry with this address and port, if any, gets the time and one more attempt |
| `AddrMan.CAddrMan.Connected_` | src/addrman.cpp:509-527 | exactly the entry with this address and port gets the new time, if the old one is over 20 minutes old |
| `AddrMan.CAddrMan.GetAddr` | src/addrman.cpp:493-507 | 23 percent of the addresses, at most 2500, pairwise different, each with its service, service bits and time as stored; only the random order changes |
| `AddrMan.CAddrMan.Check` | src/addrman.cpp:434-490 | the self-check returns 0 if and only if the declarative CheckPasses holds, for any state; its only effect is that missing addresses it looks up are entered as id 0: on success that of entry 0, on failure at most one more |
| `AddrMan.CAddrMan.CheckTried` | src/addrman.cpp:468-476 | striking off ids succeeds exactly when the tried buckets together list each tried id once |
| `AddrMan.CAddrMan.CheckNew` | src/addrman.cpp:478-487 | counting down succeeds exactly when every reference count is the number of new buckets holding the id |
| `AddrCheck.CheckIsInvariant` | src/addrman.cpp:434-490 | the invariant together with the time stamps is exactly what Check_ tests plus the listed conditions it omits |
| `AddrRuns.PassesTimes` | src/addrman.cpp:434-490 | of a state that satisfies the invariant Check_ accepts exactly those with good time stamps |
| `AddrRuns.StepTimes` | src/addrman.cpp:264-387 | any operation, storing and reloading included, keeps good time stamps if and only if its clock reading fits: positive for Good_, not negative for Attempt_, when they find their entry |
| `AddrRuns.CheckAcceptsRuns` | src/addrman.cpp:264-490 | over any run of consistent states Check_ accepts every state if and only if every clock reading fits |
| `AddrRuns.Perform` | src/addrman.cpp:264-387 | every operation, reloading included, keeps the invariant and changes the addresses as its specification says |
| `AddrRuns.PerformAll` | src/addrman.cpp:83-507 | any sequence of operations on a new manager keeps the invariant at every state, and Check_ after each of them returns 0 throughout if and only if every clock reading fits |
| `AddrSpec.InvGivesViewOk` | src/addrman.h:105-115 | in terms of addresses: new entries sit in 1 to 4 buckets, tried ones in none, no bucket holds more than 64 |
| `AddrMan.CAddrMan.Serialize` | src/addrman.h:276-318 | what is written is the header, the new and tried entries in id order, and each bucket as positions among the new entries |
| `AddrMan.CAddrMan.Unserialize` | src/addrman.h:319-379 | reading any stream builds the tables the recursive Reader builds, or fails where it fails |
| `AddrRestore.ReadsNew` | src/addrman.h:328-341 | the new entries come back under ids 0, 1, ... in the order written |
| `AddrRestore.TriedRoom` | src/addrman.h:347-348 | on reading back a written file the tried bucket always has room, so no entry is lost |
| `AddrRestore.ReadsTried` | src/addrman.h:343-362 | all tried entries come back in the bucket their address hashes to |
| `AddrRestore.ReadsBuckets` | src/addrman.h:363-378 | all new buckets come back with exact reference counts; the limit of four is never hit |
| `AddrStore.UnknownMember` | src/addrman.h:367-373 | a position without an entry, as only a damaged file holds it, gets a default entry |
| `AddrRestore.RoundTrip` | src/addrman.h:249-381 | what is written reads back completely, as tables satisfying the invariant, with the same addresses, statistics (the last try reset), buckets and tried flags, and the same counts |
| `CheckQueue.CCheckQueue.constructor` | src/checkqueue.h:124-126 | an empty, idle queue with no failure recorded |
| `CheckQueue.CCheckQueue.Add` | src/checkqueue.h:138-150 | the checks are appended and nTodo grows by their number |
| `CheckQueue.CCheckQueue.Enter` | src/checkqueue.h:71-114 | the critical section after a batch: counters, outcome and notification of the master as specified, and a batch taken is a fair one |
| `CheckQueue.CCheckQueue.Resume` | src/checkqueue.h:85-114 | the critical section after a wait, with the same outcome and a fair batch |
| `CheckQueue.CCheckQueue.Take` | src/checkqueue.h:105-111 | the batch is the last nNow checks in reverse, and they leave the queue |
| `CheckQueue.BatchSize` | src/checkqueue.h:99-104 | between one and the length of the queue, and at most nBatchSize or one |
| `CheckQueue.BatchIsFair` | src/checkqueue.h:99-104 | one check, or no more than the queue divided by one more than the workers counted; and the largest such number up to nBatchSize |
| `CheckQueue.RunBatch` | src/checkqueue.h:115-119 | the result is true exactly when it was and all checks pass; the checks that ran are a prefix ending in the first failure |
| `CheckQueueRuns.RunsAsBatch` | src/checkqueue.h:115-119 | a running thread of the state machine passes its batch exactly as RunBatch does |
| `CheckQueueRuns.AddNotifies` | src/checkqueue.h:138-150 | after Add no worker sleeps if several checks came; for one check exactly one sleeping worker is woken, if there is any |
| `CheckQueueRuns.StepKeeps` | src/checkqueue.h:64-121 | every step of every thread keeps the invariant: nTodo is queued plus in-flight checks, nTotal is idle plus running threads, every check is in one place, failures are recorded, no wake-up of the master is lost |
| `CheckQueueRuns.FinishKeeps` | src/checkqueue.h:72-114 | in particular handing back a batch, with the notification of a sleeping master |
| `CheckQueueRuns.ReturnKeeps` | src/checkqueue.h:85-94 | the return of the master with its verdict: exact for its own round, and no failure left for the next |
| `CheckQueueRuns.AllRuns` | src/checkqueue.h:64-150 | in every interleaving from the initial state the invariant holds at every point, so every Wait returned true exactly when all checks added since the previous Wait pass, after evaluating each once, and false only after one that fails ran |
| `CheckQueueRuns.AnswerEndsRound` | src/checkqueue.h:85-94 | a verdict is recorded exactly when the master leaves Wait, is about all checks added since the previous one, and starts an empty round |
| `CheckQueueRuns.ControlAsserts` | src/checkqueue.h:167-174 | with nothing added since the last Wait, the three assertions of the CCheckQueueControl constructor hold at every moment when the mutex is free |
| `CheckQueueRuns.ControlInSection` | src/checkqueue.h:167-174 | the constructor does not lock: while a thread is inside its critical section, between the clean-up and the decision, nTotal is nIdle + 1, so the first assertion fails; the other two hold |
| `CheckQueueRuns.ControlRaces` | src/checkqueue.h:72-92 | between rounds every thread that enters or wakes passes through such a moment |
| `CheckQueueRuns.NoDeadlock` | src/checkqueue.h:85-98 | while the master is in Wait some thread can take a step that is no spurious wake-up |
| `CheckQueueRuns.StepsDecrease` | src/checkqueue.h:72-114 | while the master is in Wait every such step strictly lowers the work left |
| `CheckQueueRuns.WaitIsBounded` | src/checkqueue.h:133-136 | a run inside Wait takes at most as many steps as there was work, plus a constant for each spurious wake-up |
| `Packing.ExpandArray` | src/equihash.cpp:56-97 | through a 32-bit accumulator that drops high bits, the output is the input bit string cut into elements of bit_len bits, each right-aligned in its padded cell |
| `Packing.CompressArray` | src/equihash.cpp:99-136 | the output is the concatenation of the low bit_len bits of the cells, whatever the padding holds |
| `Packing.PushBits` | src/equihash.cpp:75-76 | shifting the accumulator keeps the pending bits although the word is cut to 32 bits |
| `Packing.CompressUndoesExpand` | src/equihash.cpp:56-136 | compressing what was expanded gives the input back, for every width, padding and input of whole elements |
| `Packing.ExpandUndoesCompress` | src/equihash.cpp:56-136 | expanding what was compressed gives the cells back if the padding is zero and the elements fit |
| `IndexCodec.ArrayOfIndex` | src/equihash.cpp:138-155 | the big-endian bytes of an index determine it |
| `IndexCodec.IndexOfArray` | src/equihash.cpp:138-155 | and every four bytes are those of their index |
| `IndexCodec.MemLessFlat` | src/equihash.cpp:138-141 | memcmp on the bytes of two index lists is the lexicographic order of the indices |
| `IndexCodec.MemLessIs` | src/equihash.h:95-103 | memcmp: less at the first place where two strings differ |
| `IndexCodec.GetIndicesFromMinimal` | src/equihash.cpp:170-184 | the indices unpacked are those of the bit string |
| `IndexCodec.GetMinimalFromIndices` | src/equihash.cpp:186-201 | the packed form is the bit string of the indices |
| `IndexCodec.IndicesOfMinimal` | src/equihash.cpp:170-201 | unpacking undoes packing for indices that fit |
| `IndexCodec.MinimalOfUnpacked` | src/equihash.cpp:170-201 | packing undoes unpacking for packed forms of whole indices |
| `EquihashRows.InstantiatedParametersSupported` | src/equihash.h:197-200 | the four parameter sets of the program satisfy what the model assumes of n and k |
| `EquihashMerges.MergeSymmetric` | src/equihash.cpp:226-241 | the merged row does not depend on the order of its two rows when their index lists differ |
| `EquihashTrees.MergeIsTree` | src/equihash.cpp:226-241 | merging two matching rows of valid subtrees gives the row of a valid subtree one level up |
| `EquihashTrees.TreeIsSolution` | src/equihash.cpp:702-745 | the level-by-level conditions hold if and only if the list is a solution in the sense of the puzzle: all indices distinct, every block ordered and colliding, XOR of all hashes zero |
| `EquihashValidator.CheckLevel` | src/equihash.cpp:722-740 | one level is reduced exactly when all its pairs collide, are ordered and share no index |
| `EquihashValidator.IsValidSolution` | src/equihash.cpp:701-745 | true if and only if the bytes have the right size and unpack to a solution |
| `EquihashMerges.AllMergesPermuted` | src/equihash.cpp:349-371 | the multiset of merges of all matching pairs does not depend on the order of the table |
| `EquihashRound.SortRows` | src/equihash.cpp:350-350 | the table is a permutation ordered by its first bytes |
| `EquihashRound.ScanGroup` | src/equihash.cpp:356-381 | one group of equal rows: results go to Xc or over rows already read, and the rows not yet read are intact |
| `EquihashRound.StoreInPlace` | src/equihash.cpp:373-377 | results move from Xc to the front of the table below the limit, none is lost and no row behind it changes |
| `EquihashRound.Round` | src/equihash.cpp:348-397 | a whole in-place round leaves exactly the multiset of merges of all pairs that collide and share no index |
| `EquihashSolver.GenerateList` | src/equihash.cpp:330-345 | the first table holds one row for every index below 2^(collision bits + 1) |
| `EquihashLeaves.LeafSource` | src/equihash.cpp:335-344 | compressing a leaf gives back the bytes of the hash output that it was cut from, at place i modulo the leaves per output |
| `EquihashLeaves.LeavesFillHash` | src/equihash.cpp:335-344 | the leaves of one output, compressed in order, are that output |
| `EquihashLeaves.LeafCellsFit` | src/equihash.cpp:56-93 | the bits above the element in every cell of a leaf are zero |
| `EquihashLeaves.InstantiatedSizes` | src/equihash.h:172-176 | the derived constants of the four parameter sets |
| `EquihashSolver.RoundFull` | src/equihash.cpp:347-401 | a round takes the table of all valid subtrees of one height to that of the next |
| `EquihashSolver.RoundNoTwins` | src/equihash.cpp:349-391 | a round makes no row twice, so a table has one row for each checked subtree |
| `EquihashSolver.LastRows` | src/equihash.cpp:404-434 | the last table has more than one row exactly when there are two checked subtrees of height K-1 |
| `EquihashNoReturn.NoReturnHappens` | src/equihash.cpp:404-434 | with N = 96, K = 5 and a hash state of zeros there are two such subtrees, so a call whose validBlock is never true has no result |
| `EquihashNoReturn.TwoOrderedTrees` | src/equihash.cpp:404-434 | so it is with any hash state that gives all leaves one hash, when 2^K leaves exist |
| `EquihashWidths.SolverRowsFit` | src/equihash.cpp:222-231 | the rows of every round fit the array of FullStepRow<FullWidth> and those of the final merge fill FinalFullWidth exactly, so the width assertions hold |
| `EquihashWidths.ValidatorRowsFit` | src/equihash.cpp:222-231 | the rows of every level of the validator fit FinalFullWidth |
| `EquihashSolver.FinalSound` | src/equihash.cpp:415-419 | a matching pair of last rows is a complete solution tree |
| `EquihashSolver.FinalComplete` | src/equihash.cpp:403-426 | every solution tree is a matching pair of last rows |
| `EquihashSolver.PackedAccepted` | src/equihash.cpp:419-421 | packed, such a tree is accepted by IsValidSolution |
| `EquihashSolver.AcceptedUnpacks` | src/equihash.cpp:701-717 | and every accepted solution is the packed form of one |
| `EquihashSolver.BasicSolve` | src/equihash.cpp:325-434 | every candidate offered to validBlock is accepted by IsValidSolution; the call returns true exactly when some accepted solution passes validBlock; otherwise every accepted solution was offered, and the call runs off its end without a result exactly when there are two checked subtrees of height K-1, else it returns false |
| `Fugue.RorXor` | src/fugue.c:398-438 | an XOR on renamed registers is the XOR at the plain places of the rotated state |
| `Fugue.RorTIX2` | src/fugue.c:398-403 | TIX2 commutes with rotation |
| `Fugue.RorTIX3` | src/fugue.c:405-411 | TIX3 commutes with rotation |
| `Fugue.RorTIX4` | src/fugue.c:413-420 | TIX4 commutes with rotation |
| `Fugue.RorCMIX` | src/fugue.c:422-438 | CMIX30 and CMIX36 commute with rotation |
| `Fugue.RorSMIX` | src/fugue.c:440-447 | SMIX commutes with rotation, for any mixing function |
| `FugueMacros.TIX2Words` | src/fugue.c:398-403 | the words after TIX2: 0 is the input word, 1 takes in 24, 8 the input, 10 takes in 0, and no other changes |
| `FugueMacros.TIX3Words` | src/fugue.c:405-411 | the words after TIX3, likewise |
| `FugueMacros.TIX4Words` | src/fugue.c:413-420 | the words after TIX4, likewise |
| `FugueMacros.CMIX30Words` | src/fugue.c:422-429 | the words after CMIX30: 0 to 2 and 15 to 17 each take in 4 to 6, and no other changes |
| `FugueMacros.CMIX36Words` | src/fugue.c:431-438 | the words after CMIX36: 0 to 2 and 18 to 20 each take in 4 to 6, and no other changes |
| `FugueMacros.SMIXWords` | src/fugue.c:440-511 | the mixing function replaces words 0 to 3 and no other |
| `FugueMacros.FirstRound` | src/fugue.c:754-760 | one pass of fugue2_core on a state with one bit set, without mixing: four words take the bit in |
| `Fugue.Case2Renamed` | src/fugue.c:750-797 | the literal register names of the five cases of fugue2_core are the base names rotated by 6 words a case |
| `Fugue.Case3Renamed` | src/fugue.c:811-857 | likewise for the four cases of fugue3_core, by 9 words |
| `Fugue.Case4Renamed` | src/fugue.c:871-912 | likewise for the three cases of fugue4_core, by 12 words |
| `Fugue.CaseIsRound` | src/fugue.c:742-916 | each case, on the state as CLOSE_ENTRY rotates it, is one round that physically rotates before every CMIX and SMIX, and the next entry point accounts for the rotation |
| `FugueStream.FugueContext.constructor` | src/fugue.c:658-676 | the context starts with nothing fed |
| `FugueStream.FugueContext.Core` | src/fugue.c:697-740 | for every split into calls and every pending partial word, the words absorbed and the bytes pending are those of the concatenated message, the state being that of the rotating version |
| `FugueStream.FugueContext.Words` | src/fugue.c:733-740 | the loop entered through the switch absorbs word after word and leaves one to four bytes |
| `FugueStream.FugueContext.LastBytes` | src/fugue.c:937-950 | the local buffer ends with the padding of the last word and the 64-bit length |
| `FugueStream.TopBitsIs` | src/fugue.c:933-945 | the bits kept of the last byte are its first nb |
| `FugueStream.WrapIs` | src/fugue.c:919-923 | the bit count is the sum modulo 2^64 |
| `ByteOrder.Enc64beAt` | src/fugue.c:919-923 | byte i of the length is v / 256^(7-i) modulo 256 |
| `FugueStream.FugueContext.CloseEntry` | src/fugue.c:933-954 | the state handed to the final rounds is the rotating version over the padded message with its length |
| `Powers.DecodeRoom` | src/base58.cpp:31-31 | 58^len <= 256^(len * 733 / 1000 + 1) for every len, from 58^71 <= 256^52 |
| `Powers.EncodeRoom` | src/base58.cpp:77-77 | 256^len <= 58^(len * 138 / 100 + 1) for every len, from 256^50 <= 58^69 |
| `Base58.CarryStep` | src/base58.cpp:41-45 | one position of the carry loop keeps the value of digits and carry together |
| `Base58.MultiplyAdd` | src/base58.cpp:40-46 | the digit vector is multiplied and added to in place, and the carry ends at 0 whenever the result fits |
| `Base58.SkipZeros` | src/base58.cpp:55-58 | without leading zeros the vector is the canonical digit string of its value |
| `Base58.MinimalOfValue` | src/base58.cpp:55-58 | a canonical digit string is determined by its value |
| `Base58Text.ReadDigits` | src/base58.cpp:32-48 | the digits up to a space or the end are accumulated without overflow, or the first foreign character is found |
| `Base58Text.SpaceCodes` | src/base58.cpp:25-26 | the characters skipped are tab to return and space |
| `Base58Text.EncodeBase58` | src/base58.cpp:69-101 | the string is the number in base 58 with one 1 for every leading zero byte; the assertion holds |
| `Base58Text.DecodeBase58` | src/base58.cpp:22-67 | accepted are exactly the strings over the alphabet with spaces around them, cut at the first NUL; the bytes are the number in base 256 with one zero for every leading 1; the assertion holds |
| `Base58Text.DecodeEncode` | src/base58.cpp:22-101 | decoding undoes encoding for every byte string |
| `Base58Text.DecodesEncoded` | src/base58.cpp:22-101 | what DecodeBase58 makes of an encoding, also with spaces around it, is what was encoded |
| `Base58Text.EncodeDecode` | src/base58.cpp:22-101 | encoding undoes decoding for every string over the alphabet |
| `Base58Text.EncodeBase58Check` | src/base58.cpp:111-117 | the bytes with their checksum appended, encoded |
| `Base58Text.DecodeBase58Check` | src/base58.cpp:119-138 | accepts exactly what EncodeBase58Check produces, up to surrounding spaces, and gives back what went in; for any checksum function |
| `Base58Text.ChecksEncoded` | src/base58.cpp:111-138 | what DecodeBase58Check makes of an encoding by EncodeBase58Check, also with spaces around it, is what was encoded; nothing else is encoded alike |
| `Merkle.CBlock.BuildMerkleTree` | src/core.cpp:246-263 | the flattened vector holds all levels of the tree from the leaves up, and the result is the root |
| `Merkle.CBlock.GetMerkleBranch` | src/core.cpp:265-279 | the branch holds the sibling at every level, the node itself where there is none |
| `Merkle.CBlock.CheckMerkleBranch` | src/core.cpp:281-296 | the hash climbed along the branch by the bits of the index; zero for index -1 |
| `Merkle.BranchChecks` | src/core.cpp:246-296 | for every leaf the branch leads to the root |
| `Merkle.ClimbUnique` | src/core.cpp:281-296 | if two climbs of one height at one index show no collision of the pair hash, their results are equal if and only if the hashes and the whole branches are |
| `Merkle.OnlyLeavesCheck` | src/core.cpp:246-296 | at the index of a leaf a hash and branch check against the root if and only if they are the leaf and its branch, unless the two climbs show a collision of the pair hash |
| `Merkle.RootUnique` | src/core.cpp:246-263 | two lists of one length have one root if and only if they are equal, unless their trees show a collision of the pair hash |
| `Merkle.RepeatedTail` | src/core.cpp:246-263 | for any pair hash, repeating the last 2^j leaves of a list of 2^j times an odd number above one gives a different list with the same root |
| `AuxPow.Search` | src/core.cpp:493-501 | std::search: the first occurrence at or after a position, or the end |
| `AuxPow.HeaderIs` | src/core.h:383-383 | the bytes of the merged-mining header |
| `AuxPow.Check` | src/core.cpp:400-560 | true if and only if all conditions hold: place in the parent, one header just before the root or an early root, matching size and slot |
| `AuxPow.ExpectedIndex` | src/core.cpp:562-578 | the slot lies below the number of leaves |
| `AuxPow.ExpectedIndexIs` | src/core.cpp:562-578 | modulo 2^h the slot is a*(a*nonce + b + chain id) + b, whatever wraps around at 32 bits |
| `AuxPow.SlotsDiffer` | src/core.cpp:562-578 | for one nonce two chains share a slot if and only if their ids agree in the last h bits |
| `AuxPow.Int32Is` | src/core.cpp:542-551 | tree size and nonce are read least significant byte first, as signed numbers |
| `AuxPow.OneBlockPerCoinbase` | src/core.cpp:400-560 | two proofs accepted for one coinbase script with the header have one tree height and one slot, and are for one block hash by one branch unless the two climbs show a collision of the pair hash |
| `AuxPow.OneSlot` | src/core.cpp:525-558 | the same holds without the header when the script has at most one place in its first 20 bytes that can be taken for a root followed by a tree size |
| `AuxPow.TwoSlots` | src/core.cpp:525-558 | a header-less script with two places for a tree of one leaf always vouches for two different block hashes |
| `AuxPow.OneLeafExact` | src/core.cpp:525-558 | for trees of one leaf: a header-less script vouches for one block hash only if and only if it has at most one such place |
| `AuxPow.TwoBlocksWithoutHeader` | src/core.cpp:525-533 | a script with two such places exists, so header-less scripts can vouch for two different block hashes |
| `Blake2s.SplitAdd` | src/blake2s-ref.c:61-65 | the two-word counter with its carry counts bytes modulo 2^64 |
| `Blake2s.Blake2sState.constructor` | src/blake2s-ref.c:67-113 | a state with nothing fed |
| `Blake2s.Blake2sState.Update` | src/blake2s-ref.c:214-239 | however the data is split, all full blocks but the last are compressed, each with the count of bytes so far, and the last waits |
| `Blake2s.Blake2sState.Finish` | src/blake2s-ref.c:241-263 | the digest is that of section 3.3 of RFC 7693 over the data fed; a second call or a short buffer fails and changes nothing |
| `Blake2s.Hash` | src/blake2s-ref.c:265-292 | the one-call hash, keyed or not, is that of section 3.3 of RFC 7693 for every allowed length, and fails otherwise |
| `Blake.IncSplit` | src/blake.c:828-829 | the counter increment with carry counts the bits of whole blocks |
| `Blake.Sizes` | src/blake.c:839-890 | a block is eight length fields, and the last block has room for a message of BitsOf - 2 - length bits, that is 446 or 894 |
| `Blake.AdjustedNext` | src/blake.c:856-866 | after the adjustment of close the next compression sees the bits of the whole message, or zero if its block holds none |
| `Blake.StopByteIs` | src/blake.c:854-855 | the stop byte is the last bits, a one, and zeros |
| `ByteOrder.BigEndianAt` | src/blake.c:868-885 | byte i of a w-byte length word is v / 256^(w-1-i) modulo 256 |
| `Blake.StreamJoin` | src/blake.c:800-836 | two calls in a row are one call on the concatenation |
| `Blake.BlakeContext.Update` | src/blake.c:800-836 | however a message is split, all of it has been fed; likewise for the 64-bit twin at lines 905-941 |
| `Blake.BlakeContext.Compress` | src/blake.c:827-831 | a full buffer is compressed under the incremented counter |
| `Blake.BlakeContext.Adjust` | src/blake.c:858-866 | the counter is set as described for AdjustedNext |
| `Blake.BlakeContext.Close` | src/blake.c:838-885 | the state is that of section 2.1.3 of the SHA-3 proposal BLAKE over the padded message, each block with its count of message bits; likewise for the 64-bit twin at lines 943-990 |
| `Modular.OddDivides` | src/Lyra2.c:155-161 | a power of two dividing d times an odd step divides d |
| `Lyra2.VisitsAll` | src/Lyra2.c:155-161 | stepping by an odd number modulo a power of two visits every place exactly once |
| `Lyra2.SetupDistinct` | src/Lyra2.c:145-164 | in the Setup phase row*, the previous row and the row are different and in range |
| `Lyra2.SetupCovers` | src/Lyra2.c:145-164 | while the rows from a window up to twice that are made, every row of the window is revisited exactly once |
| `Lyra2.AndMask` | src/Lyra2.c:151-151 | masking with a power of two minus one is the remainder |
| `Lyra2.Setup` | src/Lyra2.c:145-164 | the loop with its changing step, window and gap follows the closed schedule; it ends for every nRows >= 3 |
| `Lyra2.WanderCovers` | src/Lyra2.c:167-192 | in each pass of the Wandering phase every row is updated at exactly one step |
| `Lyra2.Wander` | src/Lyra2.c:167-192 | for nRows a power of two >= 4 each pass ends after nRows steps, and the phase is the closed schedule, with the row update in unsigned 64-bit arithmetic |
| `Lyra2.Lyra2` | src/Lyra2.c:46-192 | both phases in sequence, up to the wrap-up |
| `Lyra2Input.WriteInput` | src/Lyra2.c:90-121 | the front of the matrix holds password, salt and parameters with 10*1 padding to whole blocks |
| `Lyra2Input.FlipBits` | src/Lyra2.c:117-121 | the last byte of the padding is changed in its last bit only |
| `ByteOrder.LittleEndianAt` | src/Lyra2.c:103-115 | byte i of a parameter is v / 256^i modulo 256 |
| `Lyra2Input.PaddedInjective` | src/Lyra2.c:117-121 | the padding can be removed |
| `Lyra2Input.InputInjective` | src/Lyra2.c:90-121 | different passwords, salts or parameters never share a padded input |
| `Amounts.CompressAmount` | src/core.cpp:201-218 | the 64-bit computation is the compression on the naturals reduced modulo 2^64 |
| `Amounts.DecompressAmount` | src/core.cpp:220-244 | the 64-bit computation is the decompression on the naturals reduced modulo 2^64 |
| `Amounts.DecompressCompress` | src/core.cpp:201-244 | on the naturals decompression undoes compression |
| `Amounts.CompressDecompress` | src/core.cpp:201-244 | and compression undoes decompression, so it is a bijection |
| `Amounts.MoneyRoundTrip` | src/core.h:36-37 | for every amount in the money range the 64-bit round trip is exact |
| `Coins.CCoins.CalcMaskSize` | src/coins.cpp:13-29 | the number of mask bytes up to the last that is not zero, and the number of those that are not |
| `Coins.CCoins.MaskOf` | src/coins.h:172-178 | a mask byte has exactly the bits of the available outputs |
| `Coins.CCoins.Serialize` | src/coins.h:159-186 | what is written, for coins that are not pruned; the assertion holds |
| `Coins.CCoins.GetSerializeSize` | src/coins.h:136-157 | is the size of what Serialize writes |
| `Coins.CCoins.Unserialize` | src/coins.h:188-220 | reading any stream gives what the recursive Reader gives, or fails where it fails |
| `Coins.ToInt64Is` | src/coins.h:188-220 | an amount is read as the signed number with the same 64 bits |
| `Coins.ReadsMask` | src/coins.h:199-210 | told only how many mask bytes are not zero, the reader consumes exactly the bytes written |
| `Coins.CodeParts` | src/coins.h:163-166 | the header code is decodable, its bits and its count |
| `Coins.CoinsRoundTrip` | src/coins.h:159-220 | coins that are not pruned, cleaned up and in the money range read back equal, and the rest of the stream is untouched |
| `Coins.CCoins.Cleanup` | src/coins.h:93-99 | null outputs at the end are dropped |
| `Coins.PrunedIs` | src/coins.h:235-240 | coins are pruned exactly when no output is available, that is when cleaning up leaves none; every amount but -1 is an output |
| `Coins.CCoins.ClearUnspendable` | src/coins.h:101-107 | outputs that can never be spent become null, and the end is cleaned |
| `Coins.CCoins.Spend` | src/coins.cpp:31-45 | succeeds exactly for an available output; the coins left are those without it, cleaned up; undo holds the output, and height, coinbase flag and version exactly if no output is left |
| `Coins.SpentAvailable` | src/coins.cpp:31-45 | spending takes exactly one output away, and empties the coins exactly when it was the last available one |
| `Coins.SpendUndone` | src/main.cpp:2054-2073 | putting the spent output back as DisconnectBlock does raises no complaint if and only if the coins have a height or an output was left, and then gives back the coins as they were |
| `Coins.SpendNotUndone` | src/main.cpp:2054-2073 | the failing case: the only output of coins at height 0 is spent; a complaint is raised and the coins do not come back |
| `CoinsView.CCoinsViewDB.BatchWrite` | src/txdb.cpp:58-68 | a batch writes live coins and erases pruned ones, or nothing happens |
| `CoinsView.CCoinsViewCache.constructor` | src/coins.cpp:73-73 | a new cache stands for the same map as its base |
| `CoinsView.CCoinsViewCache.GetCoins` | src/coins.cpp:75-85 | for any stack of caches: finds exactly what the map holds, and does not change the map |
| `CoinsView.CCoinsViewCache.FetchCoins` | src/coins.cpp:87-97 | brings the entry into the cache without changing the map |
| `CoinsView.CCoinsViewCache.GetCoinsRef` | src/coins.cpp:99-103 | the assertion holds for every id the map has, and the entry is the one of the map |
| `CoinsView.CCoinsViewCache.HaveCoins` | src/coins.cpp:110-112 | true exactly for the ids of the map |
| `CoinsView.CCoinsViewCache.SetCoins` | src/coins.cpp:105-108 | updates the map at one id |
| `CoinsView.CCoinsViewCache.BatchWrite` | src/coins.cpp:125-130 | updates the map at all ids of the batch |
| `CoinsView.CCoinsViewCache.Flush` | src/coins.cpp:132-137 | a failed flush changes nothing; a successful one empties the cache and leaves the map unchanged, over the database up to pruned coins |
| `CoinsView.CCoinsViewCache.HaveInputs` | src/coins.cpp:162-181 | true exactly when all inputs are available in the map |
| `CoinsView.CCoinsViewCache.GetOutputFor` | src/coins.cpp:143-148 | both assertions hold for an available input, and the output is that of the map |
| `CoinsView.CCoinsViewCache.GetValueIn` | src/coins.cpp:150-160 | after HaveInputs accepts, the sum over the map of the outputs spent |
| `CoinsView.ValueInLive` | src/coins.cpp:150-181 | availability and value of inputs depend on the live coins only |
| `CoinsView.SameLiveSameValue` | src/coins.cpp:73-181 | maps with the same live coins accept the same transactions at the same value, so a flush changes neither |

## Left out

- AddrMan.CAddrMan.Unserialize: bytes are not modelled (a stream is a sequence of items), a negative stored count of new entries is a failure, and so is reading more buckets than exist, where the code would index past the end of vvNew.
- AddrMan.CAddrMan.Check: the order in which std::map lists entries is arbitrary here, so which non-zero code is returned first is not stated.
- AddrMan.CAddrMan.Add: GetAdjustedTime and IsRoutable are parameters; nIdCount and nAttempts are unbounded.
- EquihashSolver.BasicSolve: cancellation exceptions are not modelled, and std::sort is some ordered permutation.
- EquihashSolver.GenerateList: BLAKE2b is an arbitrary function; the parameters are assumed to satisfy n = (k+1) * collision bits, as the instantiated ones do.
- IndexCodec.GetIndicesFromMinimal: requires whole elements, that is 8 times the size a multiple of the element width, as every solution size is.
- CheckQueue.CCheckQueue.Add: nTodo is unbounded, and waking threads is part of the state machine in CheckQueueRuns.
- CheckQueueRuns.ControlAsserts: is about one moment; the constructor reads its four fields one after the other, without the mutex.
- CheckQueue.CCheckQueue.Enter: fQuit is not modelled; nothing in the repository sets it.
- FugueStream.FugueContext.CloseEntry: the final rounds and the output words are left out; they rotate physically already.
- Fugue.RorSMIX: the mixing tables are an arbitrary function of four words.
- Blake2s.Blake2sState.Finish: output longer than 32 bytes and tree hashing (last_node) are not modelled; null pointers neither.
- Blake.BlakeContext.Close: a salt is part of the arbitrary compression function; writing out the words of the digest is left out.
- Lyra2.Wander: only powers of two, because for other numbers of rows the step of -1 taken in unsigned arithmetic does not step back by one.
- Lyra2.Lyra2: the sponge and the matrix are one arbitrary memory; allocation failures and the wrap-up are left out.
- Lyra2Input.WriteInput: requires a matrix large enough for the input, which the code does not check.
- Base58Text.DecodeBase58Check: the hash is any function giving four bytes.
- AuxPow.OneSlot: one direction for trees of more than one leaf, because which places can be used depends on preimages of the pair hash.
- AuxPow.Check: parent headers are reduced to chain id, Merkle root and raw bytes.
- Coins.CCoins.Serialize: VARINT and script compression are taken as self-delimiting codes, with their sizes as parameters.
- Coins.CCoins.Unserialize: the number of mask bytes in the header code is unbounded.
- CoinsView.CCoinsViewCache.Flush: best-block handling is left out; whether the database write works is a parameter.
- CoinsView.CCoinsViewCache.GetValueIn: the sum is unbounded; the priority computation in floating point is left out.
- Address selection (Select_, GetChance): rejection loops in floating point that end only with probability one.
- OptimisedSolve and CollideBranches: a probabilistic filter over truncated indices.
- LYRA2_old: a variant that keeps a wrong pointer stride.
- Concrete rounds and tables of the other hash functions: constants without a reusable invariant.
- Disk, database, network, wallet encryption, user interface and chain parameters: outside these algorithms.
- Bloom filters, alerts, difficulty encoding and version counting: they would only add easy members.
