# Verified models of the Slithy node and desktop

Dafny models of the parts of this repository whose correctness rests on invariants, with proofs about every input,
every run and every interleaving.  `dafny verify dfyconfig.toml` checks all of it.

| files | subject |
|---|---|
| Coins, CoinsStack | the stack of coin caches over the database |
| CheckQueue | the parallel script-check queue as a transition system over its threads |
| SkipHeights, BlockIndex, ActiveChain | skip-list ancestors and how few steps they take, last common ancestor, the active chain and its locators |
| Bits, BigUint, BigUintShift, BigUintMulDiv, Compact | big-integer arithmetic on limbs, compact targets, proof-of-work weight |
| AddrManState, AddrManSteps, AddrManOps, AddrMan, AddrManager | the address manager's indexes, tables and counters under all its operations |
| AddrManCheck | its self-check, and what the answer means |
| AddrManFile, AddrManLoad | writing it to disk and loading it |
| Radix, Base58, Base58Vectors | base conversion in place, the Base58 codec, its alphabet and known texts |
| Words, Bech32, Bech32Text | the Bech32 and Bech32m checksum and strings |
| Bech32Vectors | the checksum on a register of six symbols, and test vectors of BIP 173 and BIP 350 |
| Iterates, ErrorField, Bech32Roots, Bech32Constants, Bech32Errors | why the checksum detects any three errors: its generator has three roots in GF(1024) that are consecutive powers of one element |
| CompactBlock, PartialBlock, DifferenceCodec | compact block reconstruction and its index encoding |
| Treasury, TreasuryIndex | the treasury index of the status server |
| Handoff | the update handoff between desktop processes, and the rollback of a failed activation |
| Common | shared definitions |

How the code becomes a model:

- State that the code updates in place is a class whose methods state their whole new state, or a record that methods
  take and return.  Algorithms on buffers keep their arrays and loops.
- Hashes, clocks, random numbers, the node's answers and the outcomes of system calls are parameters, unrestricted
  unless a contract says otherwise.
- Protocols between threads or processes are transition systems: a step is what one participant does between two
  points where another can intervene.
- A few predicates are kept closed behind a trivially true `Key`, so that proofs open them only where needed.
- A fair scheduler is an assumption on infinite runs: a thread that is ready from some moment on moves at a later one.
  A sleeping thread is ready only after it was notified.
- Words of the Bech32 checksum are 32 bits each, written as bit sequences.  Amounts are counts of the smallest unit.

Results that differ from a first reading of the code or its comments:

- `CoinsStack.FreshIsRightExactlyWhenInvisible`: adding without permission to overwrite is right exactly when the coin
  is not visible; the code relies on its callers for this.
- `AddrManCheck.CheckMeansInv`: the self-check does not look at stale addresses in the address map, at the id counter,
  at the validity of addresses, at the set of collisions, or at a network that has entries but no recorded counter.
  `AddrManager.CheckOverlooks` shows two states that pass.
- `Base58.LimitHoldsExactly`: the length limit is only looked at while there is something to return, so a text of spaces
  only passes under every limit, even a negative one; every other text keeps the limit.
- `Handoff.HalfRolledBack`: a write that fails after its move is not undone, because its flag is not set yet, and a
  failure while the desktop entry is restored leaves the icon as well.
- `DifferenceCodec.RoundTrip`: distances above 0x02000000 can be written and not read; 16-bit indexes never have them.
- `PartialBlock.RetryNeedsMore`: after too few transactions the object can be filled again, but the transactions it held
  before the slot that stopped it are then missing as well, unless the first slots, as many as were given and one more,
  were all empty.  `PartialBlock.HeldTransactionIsLost` is the smallest case.
- `Coins.MergeEntry` proves the "FRESH flag misapplied" error unreachable, and `AddrManager.ResolveOne` the branches for
  an invalid address and for a collision that is none any more.

## Model

| member | source | states |
|---|---|---|
| `Coins.UsageRemove` | core/src/coins.cpp:351-381 | The recomputed memory usage does not depend on the order in which entries are summed |
| `Coins.PutDirty` | core/src/coins.cpp:89-130 | Storing a dirty entry keeps flags, flagged list, dirty count and usage exact, and changes the visible map at one outpoint only |
| `Coins.EraseEntry` | core/src/coins.cpp:153-175 | Erasing an entry keeps the level consistent and lets the level below show through at that outpoint |
| `Coins.FetchIsInvisible` | core/src/coins.cpp:68-81 | A cache miss that fetches from the level below keeps every flag and counter right and changes no visible map |
| `Coins.MergeEntry` | core/src/coins.cpp:208-277 | One entry of BatchWrite: the parent shows the child's coin afterwards, with exactly the flags the code sets, and the "FRESH flag misapplied" branch is proved dead |
| `Coins.NextAndMaybeErase` | core/src/coins.h:260-304 | One step of the non-erasing cursor: a spent entry is dropped, any other becomes clean, and count, list and usage follow |
| `Coins.OverlaidIsView` | core/src/coins.cpp:208-277 | Writing the flagged entries one by one equals laying the whole level over its parent |
| `Coins.SyncedLevel` | core/src/coins.cpp:291-300 | After the cursor has passed, the child holds only clean copies of what the parent now shows |
| `CoinsStack.FlushDownReachesDatabase` | core/src/coins.cpp:279-289 | Flushing the levels from k down makes every lower level and the database show level k's map |
| `CoinsStack.LookupAt` | core/src/coins.cpp:44-87 | A cached entry decides the lookup at its level, a missing one defers to the level below |
| `CoinsStack.FreshIsRightExactlyWhenInvisible` | core/src/coins.cpp:89-130 | Marking an added coin FRESH is right, and spending it again right, if and only if the coin was not visible before |
| `CoinsStack.SpentCoinShowsAgain` | core/src/coins.cpp:89-130 | A concrete visible coin, added as FRESH and spent, shows again |
| `CoinsStack.AllAdded` | core/src/coins.cpp:142-151 | A map with every spendable output under its own number, and nothing else changed, is the old map with the transaction's coins laid over it |
| `CoinsStack.Advance` | core/src/coins.h:260-304 | The cursor in both modes: with erasing it only counts down, without it cleans |
| `CoinsStack.BatchWriteCache` | core/src/coins.cpp:208-277 | BatchWrite into a cache: afterwards the parent shows exactly the child's map and is consistent over its own parent |
| `CoinsStack.BatchWriteDb` | core/src/txdb.cpp:100-164 | BatchWrite into the database: the stored map becomes the child's visible map |
| `CoinsStack.CoinsStack.constructor` | core/src/coins.cpp:52-57 | A new stack shows the database |
| `CoinsStack.CoinsStack.PeekCoin` | core/src/coins.cpp:44-50 | A lookup that caches nothing returns the visible coin of its level |
| `CoinsStack.CoinsStack.FetchCoin` | core/src/coins.cpp:68-81 | Fetching caches at most the visible coin at each level from k down, only at level k for an overlay, and changes no level's visible map |
| `CoinsStack.CoinsStack.GetCoin` | core/src/coins.cpp:83-87 | GetCoin returns the visible coin of its level and changes no visible map |
| `CoinsStack.CoinsStack.AddCoin` | core/src/coins.cpp:89-130 | AddCoin changes the top map at one outpoint, throws exactly when a visible coin would be overwritten without permission, leaves unspendable coins out, and sets exactly the flags the code sets |
| `CoinsStack.CoinsStack.AddCoins` | core/src/coins.cpp:142-151 | Afterwards each spendable output is in the top map under the transaction's id and its own number, with value, script, height and kind; every other outpoint is as before |
| `CoinsStack.CoinsStack.SpendCoin` | core/src/coins.cpp:153-175 | SpendCoin removes the outpoint from the top map and moves out the coin that was visible; it reports success exactly for a visible coin or an entry of the top cache |
| `CoinsStack.CoinsStack.ClearEntry` | core/src/coins.cpp:153-175 | The erase-or-mark-spent half of SpendCoin: a fresh entry is dropped, any other becomes a dirty spent one |
| `CoinsStack.CoinsStack.Uncache` | core/src/coins.cpp:310-323 | Uncache drops unmodified entries only and changes no visible map |
| `CoinsStack.CoinsStack.WriteThrough` | core/src/coins.cpp:279-300 | BatchWrite at any depth replaces the map of the level below by the child's map and nothing else |
| `CoinsStack.CoinsStack.Flush` | core/src/coins.cpp:279-289 | Flush keeps the child's map, makes the parent's map equal to it, and empties the child |
| `CoinsStack.CoinsStack.Sync` | core/src/coins.cpp:291-300 | Sync keeps the child's map, makes the parent's map equal to it, keeps the unspent entries clean, and its flag check cannot fail |
| `CoinsStack.CoinsStack.Reset` | core/src/coins.cpp:302-308 | Reset makes the top map equal to the one below |
| `CoinsStack.CoinsStack.Push` | core/src/coins.cpp:52-57 | A new cache or overlay shows what is under it |
| `CoinsStack.CoinsStack.Execute` | core/src/coins.cpp:44-349 | Each operation changes the visible maps exactly as its plain-map counterpart |
| `CoinsStack.CoinsStack.Run` | core/src/coins.cpp:44-349 | For every legal run and every depth, each level's visible map is the plain map with the same operations replayed |
| `CheckQueue.BatchLength` | core/src/checkqueue.h:116-121 | The batch size lies between 1 and the queue length |
| `CheckQueue.BatchIsShare` | core/src/checkqueue.h:116-121 | A batch is the largest that leaves as much to every thread and to the master, but at least 1 and at most the maximum |
| `CheckQueue.InvIsSane` | core/src/checkqueue.h:80-127 | In every reachable state no counter is decremented below zero |
| `CheckQueue.AddKeeps` | core/src/checkqueue.h:172-189 | Adding checks keeps nTodo equal to queued plus in-flight checks |
| `CheckQueue.HandInKeeps` | core/src/checkqueue.h:84-92 | A worker handing in a batch reports only a failure of the current round |
| `CheckQueue.TakeKeeps` | core/src/checkqueue.h:121-126 | Taking a batch moves checks from queued to in flight without loss |
| `CheckQueue.ReturnKeeps` | core/src/checkqueue.h:98-106 | When Complete returns, its answer is right for exactly the checks of this round |
| `CheckQueue.StepKeeps` | core/src/checkqueue.h:72-137 | Every step of every thread keeps the invariant |
| `CheckQueue.InitialOk` | core/src/checkqueue.h:144-156 | The queue starts in the invariant, for any number of workers |
| `CheckQueue.InvAlways` | core/src/checkqueue.h:72-137 | The invariant holds after every interleaving |
| `CheckQueue.EveryAnswerIsRight` | core/src/checkqueue.h:166-189 | Every answer of Complete is nothing exactly when all checks of its round pass, and otherwise the result of a failing check of that round |
| `CheckQueue.NoLostWakeup` | core/src/checkqueue.h:80-117 | While the master waits without a notification, some worker holds a batch |
| `CheckQueue.WorkRunsOut` | core/src/checkqueue.h:72-137 | During Complete every step but a spurious wake-up uses up work |
| `CheckQueue.SomebodyCanMove` | core/src/checkqueue.h:72-137 | Until Complete returns, some thread can take a productive step |
| `CheckQueue.CompleteIsBounded` | core/src/checkqueue.h:166-169 | The number of productive steps before Complete returns is bounded |
| `CheckQueue.SpuriousIsIdle` | core/src/checkqueue.h:99-112 | While Complete runs, a spurious wake-up leaves the state exactly as it was |
| `CheckQueue.SomebodyIsReady` | core/src/checkqueue.h:80-127 | While Complete runs, some thread is ready; a waiting master that was not notified always leaves a worker ready |
| `CheckQueue.SomeWork` | core/src/checkqueue.h:80-127 | A thread that is ready leads to a productive step: either it stays ready and moves, or something else has moved first |
| `CheckQueue.WorkIsDone` | core/src/checkqueue.h:80-127 | In a fair infinite run a productive step is taken, from the unchanged state |
| `CheckQueue.CompleteReturns` | core/src/checkqueue.h:80-127 | In every fair infinite run Complete returns, with the right answer for the checks of its own round |
| `CheckQueue.EveryCompleteReturns` | core/src/checkqueue.h:142-169 | The same for every run of a new queue with any number of workers |
| `CheckQueue.FairRunExists` | core/src/checkqueue.h:166-169 | Such runs exist: with one worker and one check, the worker runs the check that the master waits for and notifies it, and the answer is that of the check |
| `SkipHeights.AndBelow` | core/src/chain.cpp:69-70 | Exactly the lowest set bit of a positive number is taken away |
| `SkipHeights.LowestOneIs` | core/src/chain.cpp:69-70 | The lowest set bit is the power of two that goes into the number an odd number of times |
| `SkipHeights.SkipHeightIs` | core/src/chain.cpp:72-81 | One set bit is taken away from an even height, two from an odd one after its last bit |
| `SkipHeights.StepLowers` | core/src/chain.cpp:89-105 | Each step stays at or above the wanted height and lowers a potential of the remaining bits |
| `SkipHeights.FewSteps` | core/src/chain.cpp:72-108 | From height n to any height below, the walk takes fewer steps than the square of the number of bits of n, plus one |
| `BlockIndex.Walk` | core/src/chain.cpp:83-108 | The naive parent walk reaches a block of exactly the asked height |
| `BlockIndex.WalkTwice` | core/src/chain.cpp:83-108 | Walking in two stages equals walking at once |
| `BlockIndex.SkipIsWalk` | core/src/chain.cpp:115-119 | Every skip pointer is the ancestor at the skip height |
| `BlockIndex.GetAncestor` | core/src/chain.cpp:83-108 | Any mix of skip and parent steps returns the block the naive walk finds, and null outside the range, in fewer steps than the square of the number of bits of the height, plus one |
| `BlockIndex.Follow` | core/src/chain.cpp:91-105 | One step goes to the height that the rule for skipping gives, and to an ancestor with the same ancestors below |
| `BlockIndex.BlockTree.constructor` | core/src/chain.h:93-110 | A tree with a genesis block only |
| `BlockIndex.BlockTree.Insert` | core/src/chain.cpp:115-119 | Inserting a block keeps every skip pointer in the tree right |
| `BlockIndex.BuildSkip` | core/src/chain.cpp:115-119 | BuildSkip sets the ancestor at the skip height |
| `BlockIndex.LastCommonAncestor` | core/src/chain.cpp:155-178 | The result is the highest block that is an ancestor of or equal to both arguments, with termination and no null dereference |
| `BlockIndex.SkipApart` | core/src/chain.cpp:166-174 | The inner loop keeps two different ancestors of equal height and stops at a common skip pointer |
| `BlockIndex.LastCommonIsUnique` | core/src/chain.cpp:155-178 | The highest common ancestor is unique, and every common ancestor is an ancestor of it |
| `ActiveChain.PrefixAgrees` | core/src/chain.cpp:16-24 | A chain that holds a block at its height holds all its ancestors |
| `ActiveChain.Chain.constructor` | core/src/chain.h:379-388 | An empty chain |
| `ActiveChain.Chain.SetTip` | core/src/chain.cpp:16-24 | After SetTip, entry i is the tip's ancestor at height i, despite the early stop |
| `ActiveChain.Chain.FindFork` | core/src/chain.cpp:50-59 | FindFork returns the highest chain member that is an ancestor of or equal to the block |
| `ActiveChain.LocatorEntries` | core/src/chain.cpp:26-43 | The locator lists strictly descending ancestors at doubling distances down to genesis, with a logarithmic number of entries |
| `ActiveChain.StepBack` | core/src/chain.cpp:31-41 | One turn of the loop reaches the next listed height, and the distance doubles from the eleventh entry on |
| `BigUint.AddAssign` | core/src/arith_uint256.h:117-127 | Limb addition is addition modulo 2^BITS |
| `BigUint.Complement` | core/src/arith_uint256.h:51-57 | Bitwise complement is 2^BITS - 1 - x |
| `BigUint.Increment` | core/src/arith_uint256.h:155-162 | Increment is x + 1 modulo 2^BITS |
| `BigUint.Decrement` | core/src/arith_uint256.h:172-179 | Decrement is x - 1 modulo 2^BITS |
| `BigUint.Negate` | core/src/arith_uint256.h:59-66 | Negation is -x modulo 2^BITS |
| `BigUint.SubAssign` | core/src/arith_uint256.h:129-133 | Subtraction by negation and addition is subtraction modulo 2^BITS |
| `BigUintShift.CompareTo` | core/src/arith_uint256.cpp:101-111 | Limb comparison is comparison of the values |
| `BigUintShift.BitLength` | core/src/arith_uint256.cpp:155-168 | The result is the number of significant bits of the value |
| `BigUintShift.ShiftLeft` | core/src/arith_uint256.cpp:14-28 | Left shift is multiplication by a power of two modulo 2^BITS, for every shift |
| `BigUintShift.ShiftRight` | core/src/arith_uint256.cpp:30-45 | Right shift is the floor of division by a power of two, for every shift |
| `BigUintMulDiv.MulWord` | core/src/arith_uint256.cpp:47-56 | Multiplication by a word is multiplication modulo 2^BITS |
| `BigUintMulDiv.MulAssign` | core/src/arith_uint256.cpp:58-73 | Schoolbook multiplication is multiplication modulo 2^BITS |
| `BigUintMulDiv.DivAssign` | core/src/arith_uint256.cpp:75-99 | Division by zero is refused; otherwise the result is the exact floor quotient |
| `BigUintMulDiv.LongDivide` | core/src/arith_uint256.cpp:75-99 | The shift-subtract loop computes the exact floor quotient for every width |
| `Compact.AssignWord` | core/src/arith_uint256.h:70-77 | Assigning a 64-bit number stores that number |
| `Compact.OverflowTest` | core/src/arith_uint256.cpp:175-193 | The overflow flag is set exactly when mantissa times 256^(size-3) does not fit in 256 bits |
| `Compact.SetCompact` | core/src/arith_uint256.cpp:175-193 | SetCompact stores the decoded value modulo 2^256 with exact negative and overflow flags |
| `Compact.EqualTo` | core/src/arith_uint256.cpp:113-125 | Comparison with a 64-bit number is equality of values |
| `Compact.GetCompact` | core/src/arith_uint256.cpp:195-216 | GetCompact returns the size, sign and leading bytes of the value |
| `Compact.JoinFields` | core/src/arith_uint256.cpp:195-216 | Size, sign and mantissa occupy different bits, so OR is addition |
| `Compact.EncodedFields` | core/src/arith_uint256.cpp:195-216 | The fields of an encoded number are read back |
| `Compact.KnownTargets` | core/src/test/arith_uint256_tests.cpp:478-524 | Known targets and their codes, below and above three bytes, with and without sign |
| `Compact.RoundedIsGreatest` | core/src/arith_uint256.cpp:156-216 | Decoding an encoded value gives the greatest representable value not above it |
| `Compact.EncodingIsIdempotent` | core/src/arith_uint256.cpp:156-216 | Encoding a rounded value gives the same code |
| `Compact.EncodingIsMonotone` | core/src/arith_uint256.cpp:195-216 | Larger values have codes that are not smaller |
| `Compact.GetBitsProof` | core/src/chain.cpp:121-134 | The proof-of-work weight is floor(2^256 / (target + 1)) for every valid compact target, and 0 for an invalid one |
| `Compact.WorkOfTarget` | core/src/chain.cpp:130-133 | Complement, increment, division and increment compute that quotient without wrap-around |
| `AddrManOps.Find` | core/src/addrman.cpp:401-414 | Find returns the id of the entry with that address, or the empty marker when there is none |
| `AddrManOps.Create` | core/src/addrman.cpp:416-430 | Create adds one entry, consistent in all indexes and counters, not yet in any bucket |
| `AddrManOps.SwapRandom` | core/src/addrman.cpp:432-454 | Swapping two list positions keeps the list and the positions inverse to each other and changes nothing else |
| `AddrManOps.DeleteEntry` | core/src/addrman.cpp:456-471 | Delete removes exactly the entry, its list position, its address and its counts |
| `AddrManOps.Delete` | core/src/addrman.cpp:456-471 | Deleting an unreferenced entry keeps every index and counter consistent |
| `AddrManOps.ClearNew` | core/src/addrman.cpp:473-489 | Clearing a slot lowers one reference count, deletes the entry when it was the last, and leaves every other entry as it was up to its list position |
| `AddrManOps.RemoveFromNew` | core/src/addrman.cpp:493-506 | The loop over the buckets empties exactly the slots of the entry |
| `AddrManOps.EvictOld` | core/src/addrman.cpp:515-537 | Evicting a tried entry puts it into the new slot of its own source, with one reference; whoever held that slot has one less, and all others are as they were |
| `AddrManOps.EnterTried` | core/src/addrman.cpp:538-548 | Entering the tried table sets slot, flag and counters consistently |
| `AddrManOps.MakeTried` | core/src/addrman.cpp:491-548 | MakeTried puts the entry into its tried slot and empties its new slots; whoever held the tried slot is back in the new slot of its own source with one reference; whoever held that has one reference less; all other entries and slots are as they were |
| `AddrMan.Attempt` | core/src/addrman.cpp:693-711 | Attempt sets the time of the last try of one entry, and counts a failure exactly if asked to and none was counted since the last good connection; nothing else changes |
| `AddrMan.IsTerribleExactly` | core/src/addrman.cpp:69-95 | An entry is terrible exactly if it was not tried within a minute and is ten minutes in the future, unseen for thirty days, never reached in three attempts, or not reached for a week in ten |
| `AddrMan.Connected` | core/src/addrman.cpp:877-894 | Connected sets the time of one entry exactly if it is more than twenty minutes behind, and changes nothing else |
| `AddrMan.SetServices` | core/src/addrman.cpp:896-910 | SetServices changes the services of one entry and nothing else |
| `AddrMan.Good` | core/src/addrman.cpp:626-679 | Good moves the entry exactly when it is known, not tried and its slot is free or the test is off, with everything MakeTried promises; otherwise only the statistics of the entry change, and a collision may be recorded |
| `AddrMan.PlaceInNew` | core/src/addrman.cpp:599-623 | The entry gets its slot in the new table exactly if the slot is not its own and is empty, or its holder is terrible, or its holder has other slots while the entry has none; an entry left without any slot is dropped |
| `AddrMan.RefreshedExactly` | core/src/addrman.cpp:566-574 | A known address gets the announced time less the penalty exactly if its own is over an hour behind, or a day if the announcement is a day old; its time never goes back |
| `AddrMan.InsertAt` | core/src/addrman.cpp:610-613 | Inserting into a slot displaces its holder consistently |
| `AddrManager.AddSingle` | core/src/addrman.cpp:550-624 | AddSingle keeps the invariant and the tried table; it succeeds exactly for a routable address that is new or has new information, is not tried, is below eight references, wins the draw, and whose slot is not its own and yields; then that slot holds the entry, its holder has one reference less and all others are as they were; otherwise only the refreshed entry changed |
| `AddrManager.Add` | core/src/addrman.cpp:681-691 | The addresses are added one after the other, each as AddSingle promises; the result tells whether any entered, and if none did no bucket changed |
| `AddrManager.HolderExists` | core/src/addrman.cpp:924-970 | A collision's tried slot is always occupied by an entry, so the invalid-address and free-slot branches are dead |
| `AddrManager.ForceGood` | core/src/addrman.cpp:626-679 | Good without the test leaves the entry in its own tried slot, with everything MakeTried promises about the entry that was there |
| `AddrManager.ResolveOne` | core/src/addrman.cpp:916-972 | One collision is dropped if the entry is gone or the holder answered within four hours; resolved in its favour, with everything MakeTried promises, if the holder's test failed over a minute ago or did not happen for forty minutes; and kept otherwise |
| `AddrManager.ResolveCollisions` | core/src/addrman.cpp:912-973 | The collisions are taken by ascending id, each once and each as ResolveOne promises; an id is still there exactly if it was kept when its turn came; no tried slot becomes empty |
| `AddrManager.SelectTriedCollision` | core/src/addrman.cpp:975-1001 | The result is the tried entry that stands in the way of a collision, never a lookup of the empty marker |
| `AddrManager.GetAddr` | core/src/addrman.cpp:812-851 | The result lists distinct qualifying entries, at most the limit, and all of them when below the limit or without limits; only the list order changes |
| `AddrManager.NodeLimitIsLargest` | core/src/addrman.cpp:817-824 | The limit is the largest number within the list, the percentage of it and the maximum, where given |
| `AddrManager.NewTable` | core/src/addrman_impl.h:189-232 | Fresh tables are empty |
| `AddrManager.InitialInv` | core/src/addrman_impl.h:189-232 | The empty manager satisfies the invariant |
| `AddrManager.Manager.constructor` | core/src/addrman_impl.h:189-232 | A new manager is valid |
| `AddrManager.Manager.Loaded` | core/src/addrman.cpp:231-399 | A manager with a loaded state that satisfies the invariant is valid |
| `AddrManager.Manager.Execute` | core/src/addrman.cpp:1177-1261 | Every operation does what its method promises, and keeps the invariant and every occupied tried slot |
| `AddrManager.Manager.Check` | core/src/addrman.cpp:1063-1166 | In every reachable state CheckAddrman returns 0 (for a key that is set) |
| `AddrManager.CheckOverlooks` | core/src/addrman.cpp:1063-1166 | An address that leads to no entry, and a collision of an id never given out, pass the self-check and break the invariant |
| `AddrManager.Manager.Run` | core/src/addrman.cpp:550-1001 | After any sequence of operations with positive times the invariant holds, nTried has not decreased, no tried slot has become empty, and each operation did from its state to the next what its method promises |
| `AddrManCheck.CheckEntry` | core/src/addrman.cpp:1077-1108 | The checks on one entry pass exactly when the entry is in order |
| `AddrManCheck.CheckEntries` | core/src/addrman.cpp:1077-1108 | The first loop passes exactly when every entry is in order, and counts them right |
| `AddrManCheck.CheckTried` | core/src/addrman.cpp:1115-1130 | The second loop passes and empties its set exactly when the tried table is right |
| `AddrManCheck.CheckNew` | core/src/addrman.cpp:1132-1146 | The third loop passes and empties its multiset exactly when slots and reference counts of the new table agree |
| `AddrManCheck.CheckNets` | core/src/addrman.cpp:1154-1163 | The network counters pass exactly when they agree with the entries on every recorded network |
| `AddrManCheck.CheckAddrman` | core/src/addrman.cpp:1063-1166 | The answer is 0 if and only if the state is consistent and the key is set |
| `AddrManCheck.CheckMeansInv` | core/src/addrman.cpp:1063-1166 | The invariant is the check's consistency together with the things the check does not look at |
| `AddrManFile.WriteEntries` | core/src/addrman.cpp:191-210 | Each pass writes exactly the entries of its kind, numbers them in order, and its assertion cannot fail |
| `AddrManFile.WriteRow` | core/src/addrman.cpp:211-224 | A bucket is written as its count and the numbers of its entries |
| `AddrManFile.Serialize` | core/src/addrman.cpp:133-228 | The file holds every entry once, under consecutive numbers, and every bucket |
| `AddrManFile.LoadNews` | core/src/addrman.cpp:282-290 | New records become entries 0, 1, ... with right list and counters, whatever the file says |
| `AddrManFile.LoadTrieds` | core/src/addrman.cpp:293-314 | Tried records are taken or lost; tables and reference counts are right for every file; for a written file none is lost and the table is the old one renamed |
| `AddrManFile.SaneTakes` | core/src/addrman.cpp:299-309 | A tried record read into a free slot keeps tables, addresses and ids in order, whatever the file says |
| `AddrManFile.CollectEntries` | core/src/addrman.cpp:316-331 | The bucket entries are the in-range numbers of the file, in order |
| `AddrManLoad.FileReads` | core/src/addrman.cpp:211-224 | The bucket entries of a written file are the occupied slots, one for one |
| `AddrManLoad.RestoreEntry` | core/src/addrman.cpp:348-376 | One bucket entry goes to its old slot when that is free, else to the slot by its source, else nowhere; only a valid address with fewer than eight slots gets one, and an entry that has none afterwards is invalid or found its slot by source taken |
| `AddrManLoad.RestoreEntries` | core/src/addrman.cpp:333-376 | For a written file every slot and every reference count is restored |
| `AddrManLoad.Prune` | core/src/addrman.cpp:378-388 | Exactly the new entries without a slot are deleted |
| `AddrManLoad.TablesHold` | core/src/addrman.cpp:268-280 | A consistent manager has no more entries than the header limits allow |
| `AddrManLoad.SameInv` | core/src/addrman.cpp:231-399 | A manager with renamed ids satisfies the invariant when the original does |
| `AddrManLoad.Unserialize` | core/src/addrman.cpp:231-399 | For every file, what is loaded satisfies the whole invariant, no record that a bucket names is lost but for an invalid address or a taken slot, and every entry stems from a record; a file with a readable header and a key is refused only if an address comes twice or a time cannot be; for a written file under the same asmap nothing is lost or moved |
| `AddrManLoad.SaneConsistent` | core/src/addrman.cpp:378-398 | After pruning, a file without repeated addresses and impossible times passes the self-check |
| `AddrManLoad.WrittenIsSound` | core/src/addrman.cpp:133-229 | A written file has no repeated address and no impossible time |
| `AddrManLoad.RoundTrip` | core/src/addrman.cpp:133-399 | Writing and loading reproduces, up to renaming of ids, the same entries, tables, reference counts and counters |
| `AddrManLoad.EntrySurvives` | core/src/addrman.cpp:282-388 | A written entry is there again, in the same table, unless its address is invalid now or its tried slot, or its new slot by its own source, is held by another address |
| `AddrManLoad.Reload` | core/src/addrman.cpp:133-399 | Writing and loading under any other asmap succeeds with the invariant, every entry survives in that sense, and every loaded entry is one that was written |
| `AddrManLoad.Restart` | core/src/addrman.cpp:133-399 | A written manager can be loaded under any other asmap, its entries survive as stated, and every run from there keeps the invariant and does what the operations promise |
| `Base58.Letter` | core/src/base58.cpp:19-37 | Letters of the alphabet are neither NUL nor space and are read back as their digit |
| `Base58.LetterOfDigit` | core/src/base58.cpp:19-37 | The two tables are inverse |
| `Base58.EncodeRoom` | core/src/base58.cpp:98-99 | The 138/100 buffer has room for every input |
| `Base58.DecodeRoom` | core/src/base58.cpp:54-55 | The 733/1000 buffer has room for every input |
| `Base58.MulAdd` | core/src/base58.cpp:64-71 | The carry loop multiplies and adds in place, the final carry is 0, and the length has no leading zero |
| `Base58.Convert` | core/src/base58.cpp:98-118 | Digit by digit conversion yields the digits of the number |
| `Base58.Encode` | core/src/base58.cpp:89-127 | Encode computes ones for leading zero bytes and the base-58 digits of the rest |
| `Base58.Decode` | core/src/base58.cpp:40-135 | Decode succeeds exactly when the text is spaces, a word of the alphabet and spaces, without NUL, and the result is empty or within the limit |
| `Base58.LimitHoldsExactly` | core/src/base58.cpp:40-135 | For every text and limit: what is decoded is within the limit if and only if the limit is not negative or the text holds more than spaces |
| `Base58.EmptyPassesNegativeLimit` | core/src/base58.cpp:40-135 | The empty text passes the limit -1 |
| `Base58.DecodeRest` | core/src/base58.cpp:53-86 | The part after the leading ones, with its early exits |
| `Base58.DecodeEncode` | core/src/base58.cpp:40-135 | Decoding an encoded byte string gives it back under every limit that is at least its length |
| `Base58.EncodeDecode` | core/src/base58.cpp:40-135 | Encoding what a text decodes to gives the text back without the spaces around it |
| `Base58Vectors.LetterIs` | core/src/base58.cpp:20-20 | The letters stand in the order of the alphabet |
| `Base58Vectors.KnownShort` | core/src/test/data/base58_encode_decode.json:3-3 | The byte 61 is "2g", both ways |
| `Base58Vectors.KnownLong` | core/src/test/data/base58_encode_decode.json:10-10 | The bytes 572e4794 are "3EFU7m", both ways |
| `Bech32.PolyMod` | core/src/bech32.cpp:130-216 | The loop computes the recurrence over the input |
| `Bech32.StepXor` | core/src/bech32.cpp:177-214 | One step is linear over XOR |
| `Bech32.StepInjective` | core/src/bech32.cpp:177-214 | One step maps only zero to zero |
| `Bech32.RunXor` | core/src/bech32.cpp:130-216 | PolyMod is affine over XOR |
| `Bech32.RunPacks` | core/src/bech32.cpp:130-216 | Six symbols or fewer fill a zero register side by side |
| `Bech32.BurstShows` | core/src/bech32.cpp:130-216 | A difference within six adjacent symbols never cancels, at any length |
| `Bech32.ExpandInjective` | core/src/bech32.cpp:311-324 | Two prefixes with the same expansion are the same: nothing of the prefix is left out of the checksum |
| `Bech32.ExpandIs` | core/src/bech32.cpp:311-324 | The symbols of the prefix are the high bits of each character, a zero, and the low bits of each character |
| `Bech32.Group` | core/src/bech32.cpp:342-353 | A checksum symbol is five bits of the residue |
| `Bech32.CreateChecksum` | core/src/bech32.cpp:342-353 | CreateChecksum returns the six groups of the residue |
| `Bech32.VerifyChecksum` | core/src/bech32.cpp:327-339 | VerifyChecksum returns the encoding whose constant the check equals, if any |
| `Bech32.ChecksumVerifies` | core/src/bech32.cpp:327-353 | Values with their created checksum verify under the same encoding |
| `Bech32.ChecksumUnique` | core/src/bech32.cpp:327-353 | No other six symbols verify |
| `Bech32.BurstDetected` | core/src/bech32.cpp:327-339 | Two value lists that agree outside six adjacent symbols and verify under the same encoding are equal |
| `ErrorField.FixesNothing` | core/src/bech32.cpp:160-176 | In GF(1024), multiplying by e a number of times between 1 and 1022 fixes nothing but zero: e has order 1023 |
| `Bech32Roots.ValueStep` | core/src/bech32.cpp:177-214 | At a root of the generator, a step multiplies the value of the register by the root and adds the symbol |
| `Bech32Constants.RootsAreRoots` | core/src/bech32.cpp:130-176 | The generator vanishes at three consecutive powers of e |
| `Bech32Errors.ThreeShow` | core/src/bech32.cpp:130-216 | At most three differences within a window of 1023 symbols never cancel, at any length |
| `Bech32Errors.ThreeErrorsDetected` | core/src/bech32.cpp:327-339 | Two lists that differ in at most three places within a window of 1023 and verify under the same encoding are equal |
| `Bech32Text.CheckCharacters` | core/src/bech32.cpp:286-309 | No error is reported exactly when all characters are printable and not in both cases |
| `Bech32Text.LastSeparator` | core/src/bech32.cpp:377-377 | The last separator |
| `Bech32Text.Encode` | core/src/bech32.cpp:358-371 | Encode writes prefix, separator, data and checksum |
| `Bech32Text.Decode` | core/src/bech32.cpp:374-400 | Decode computes prefix, data and encoding, or nothing |
| `Bech32Text.DecodeEncode` | core/src/bech32.cpp:358-400 | Decoding an encoded text gives encoding, prefix and data back if the prefix is legal and the text within the limit, and nothing otherwise |
| `Bech32Text.EncodeDecode` | core/src/bech32.cpp:358-400 | Encoding what a text decodes to gives the text back in lower case |
| `Bech32Text.LetterIs` | core/src/bech32.cpp:23-23 | The letters stand in the order of the alphabet |
| `Bech32Vectors.MultipleIs` | core/src/bech32.cpp:208-212 | The five constants of the code are the base-32 digits of the multiples of the generator |
| `Bech32Vectors.StepIs` | core/src/bech32.cpp:177-214 | A step on 32-bit words is a step on six symbols: they move up, and the multiple of the generator chosen by the first is added |
| `Bech32Vectors.ShortBech32` | core/src/test/bech32_tests.cpp:19-19 | "a12uel5l" decodes as Bech32 to the prefix "a" without data, and is its encoding |
| `Bech32Vectors.ShortBech32m` | core/src/test/bech32_tests.cpp:39-39 | "a1lqfn3a" decodes as Bech32m to the prefix "a" without data, and is its encoding |
| `Bech32Vectors.LongBech32` | core/src/test/bech32_tests.cpp:21-21 | The vector with the whole alphabet decodes to the prefix "abcdef" and the values 0 to 31, and is their encoding |
| `Bech32Text.ErrorsDetected` | core/src/bech32.cpp:374-400 | Two texts of equal length that decode with the same prefix and encoding and differ within six adjacent characters after the separator are the same text up to case |
| `Bech32Text.ThreeErrorsInText` | core/src/bech32.cpp:374-400 | The same for any three characters after the separator within a window of 1023 |
| `CompactBlock.PlacePrefilled` | core/src/blockencodings.cpp:72-88 | Prefilled transactions go exactly to their positions, in bounds, or the message is refused, with the ones before the first bad index placed |
| `CompactBlock.PositionIs` | core/src/blockencodings.cpp:77-77 | The index of a prefilled transaction is the number of places left out since the one before |
| `CompactBlock.NextFree` | core/src/blockencodings.cpp:95-98 | There is a free slot for every short id, so the search stays in bounds |
| `CompactBlock.NumberSlots` | core/src/blockencodings.cpp:90-116 | Short ids are matched one-to-one with the free slots in order, or the status is failed, exactly on a repeated id or an uneven table |
| `PartialBlock.MatchPool` | core/src/blockencodings.cpp:121-143 | One mempool transaction fills the slot of its short id, or spoils it if it is the second answer |
| `PartialBlock.MatchExtra` | core/src/blockencodings.cpp:147-176 | One extra transaction fills the slot of its short id, leaves it if it is alike, or spoils it if it is different |
| `PartialBlock.MatchFromPool` | core/src/blockencodings.cpp:118-145 | The mempool loop: a slot is filled exactly if one transaction scanned so far answers; it ends early only with every slot filled |
| `PartialBlock.MatchFromExtra` | core/src/blockencodings.cpp:147-176 | The extra loop: a slot is filled exactly if the transactions scanned so far answer unambiguously; it ends early only with every slot filled |
| `PartialBlock.OneInPool` | core/src/blockencodings.cpp:121-143 | A second answer from the mempool always makes a slot ambiguous |
| `PartialBlock.OneInExtra` | core/src/blockencodings.cpp:147-176 | A further answer from the extra pool makes a slot ambiguous exactly if it is a different transaction |
| `PartialBlock.FoundIsComplete` | core/src/blockencodings.cpp:118-176 | Whatever answers unambiguously in mempool and extra pool together is found, despite the early exits |
| `PartialBlock.PartiallyDownloadedBlock.constructor` | core/src/blockencodings.h:133-148 | A new object is empty |
| `PartialBlock.PartiallyDownloadedBlock.InitData` | core/src/blockencodings.cpp:59-181 | Exact status; on success prefilled slots are kept, and every other slot is filled exactly if the transactions scanned answer to its short id unambiguously, where a scan ends early only with every slot filled; mempoolCount is the number of slots filled; after a refusal the object is as before if the message is implausible or the object was in use, and otherwise has the header and the prefilled slots, so that it refuses from then on |
| `PartialBlock.PartiallyDownloadedBlock.FillBlock` | core/src/blockencodings.cpp:191-237 | Missing transactions go to the free slots in order; success exactly when their number fits and the block is not mutated; the object is cleared, except that with too few transactions it stays, without the slots before the one that stopped it |
| `PartialBlock.PartiallyDownloadedBlock.TakeOver` | core/src/blockencodings.cpp:198-208 | The loop over the slots, and exactly which slots are moved out when it stops early |
| `PartialBlock.RetryNeedsMore` | core/src/blockencodings.cpp:198-208 | After such a stop, what was missing at first is enough, and nothing was moved out, if and only if the first slots, as many as were given and one more, were all empty |
| `PartialBlock.HeldTransactionIsLost` | core/src/blockencodings.cpp:198-208 | One transaction held, one missing and none delivered: afterwards two are missing |
| `PartialBlock.Compress` | core/src/blockencodings.cpp:20-33 | The compact block holds the coinbase and the short ids of the rest |
| `PartialBlock.FilledRight` | core/src/blockencodings.cpp:59-181 | Without short id collisions every filled slot holds the block's own transaction |
| `PartialBlock.RebuiltRight` | core/src/blockencodings.cpp:191-237 | With the missing transactions in order the original list is rebuilt |
| `PartialBlock.RequestExact` | core/src/blockencodings.cpp:59-181 | With a duplicate-free mempool exactly the unknown transactions are requested |
| `PartialBlock.Relay` | core/src/blockencodings.cpp:20-237 | A block sent compactly is rebuilt exactly, for every order of the mempool |
| `DifferenceCodec.Formatter.Ser` | core/src/blockencodings.h:28-34 | Writing succeeds exactly for an ascending value below the 64-bit maximum |
| `DifferenceCodec.Formatter.Unser` | core/src/blockencodings.h:35-42 | Reading succeeds exactly when the distance is a readable size and the sum neither wraps around nor exceeds the type |
| `DifferenceCodec.WriteAll` | core/src/blockencodings.h:23-53 | A list is written exactly when it is strictly ascending |
| `DifferenceCodec.DistanceIs` | core/src/blockencodings.h:23-53 | Each index is written as the number of indexes left out since the one before |
| `DifferenceCodec.ReadAll` | core/src/blockencodings.h:23-53 | What is read is ascending and has exactly these distances; nothing is refused that fits and has readable distances |
| `DifferenceCodec.RoundTrip` | core/src/blockencodings.h:23-53 | Indexes survive writing and reading exactly when they are strictly ascending and no distance exceeds the largest readable size |
| `DifferenceCodec.ShortIndexesReadBack` | core/src/blockencodings.h:45-53 | For the 16-bit indexes of a request, every list that is written is read back |
| `DifferenceCodec.WideIndexIsLost` | core/src/serialize.h:330-358 | A wider index that can be written and not read |
| `Treasury.ChainUnique` | services/slithy-node-status-server.py:72-76 | A linked chain is determined by its last block and its length |
| `Treasury.SumValues` | services/slithy-node-status-server.py:106-108 | The loop computes the sum, which does not depend on the order |
| `Treasury.InputsConserve` | services/slithy-node-status-server.py:79-84 | Inputs take from the balance what they spend |
| `Treasury.OutputsConserve` | services/slithy-node-status-server.py:85-92 | Outputs add to the balance what is received, given new outpoints |
| `Treasury.ReceivedIsTotal` | services/slithy-node-status-server.py:85-90 | What a transaction receives is the total of its outputs that pay the treasury |
| `Treasury.SpentIsTaken` | services/slithy-node-status-server.py:79-84 | What a transaction spends is the value of the held outputs it takes, each counted once |
| `Treasury.TxConserves` | services/slithy-node-status-server.py:77-96 | Per transaction, balance plus net spending grows by what came in beyond what was spent |
| `Treasury.ChainConserves` | services/slithy-node-status-server.py:64-97 | Balance plus total spent equals the sum of max(0, received - spent), and rewards are at most that, given unique outpoints |
| `Treasury.TxUnspent` | services/slithy-node-status-server.py:64-97 | After a transaction an output is held exactly if the transaction pays it, or it was held and is not spent |
| `Treasury.ChainUnspent` | services/slithy-node-status-server.py:64-97 | For every chain, an output is held with its value, height and kind exactly if some transaction pays it to the treasury and nothing later spends or repeats it |
| `Treasury.TxFigures` | services/slithy-node-status-server.py:77-96 | Total spent grows by what a transaction takes beyond what it returns, if positive; rewards by what a coinbase pays; the inflow is what comes in beyond what is taken, if positive |
| `Treasury.EventAt` | services/slithy-node-status-server.py:71-77 | The transactions are those of the blocks in order, each with the height of its block |
| `Treasury.ChainFigures` | services/slithy-node-status-server.py:64-97 | For every chain, total spent, inflow and rewards are the totals of these over its transactions, each against what is unspent before it |
| `TreasuryIndex.UnlockedAtMost` | services/slithy-node-status-server.py:106-108 | The unlocked part is at most the balance |
| `TreasuryIndex.UnlockedIsMature` | services/slithy-node-status-server.py:107-108 | The unlocked balance is the balance of the outputs that are not from a coinbase, or are 99 blocks old |
| `TreasuryIndex.Index.constructor` | services/slithy-node-status-server.py:35-39 | The index starts empty |
| `TreasuryIndex.Index.Reset` | services/slithy-node-status-server.py:42-48 | Reset leaves the empty index |
| `TreasuryIndex.Index.SpendInputs` | services/slithy-node-status-server.py:79-84 | Inputs remove known outputs and sum their values |
| `TreasuryIndex.Index.TakeOutputs` | services/slithy-node-status-server.py:85-92 | Outputs to the treasury are recorded, summed and counted as rewards in a coinbase |
| `TreasuryIndex.Index.ScanTx` | services/slithy-node-status-server.py:77-96 | One transaction changes the ledger as specified, with total spent as TxFigures states it, or fails in the middle |
| `TreasuryIndex.Index.ScanBlock` | services/slithy-node-status-server.py:77-96 | One block changes the ledger as specified |
| `TreasuryIndex.Index.Extend` | services/slithy-node-status-server.py:72-97 | One turn of the scan keeps the index a fold over one linked chain, or resets it |
| `TreasuryIndex.Index.Scan` | services/slithy-node-status-server.py:71-99 | The scan of missing heights, for any answers of the node |
| `TreasuryIndex.Index.Advance` | services/slithy-node-status-server.py:64-116 | A status is reported only if the hash was the node's block at the requested height; at most 100 blocks are added; on a steady node exactly as many as possible |
| `TreasuryIndex.Index.TreasuryStatus` | services/slithy-node-status-server.py:51-57 | Whatever the node does, the index is the fold over one linked chain that ends at its hash; after a failure it is empty; on a steady node each request gains 100 blocks or reaches the target |
| `TreasuryIndex.Index.Serve` | services/slithy-node-status-server.py:51-57 | On a steady node there is a status after at most one request per 100 blocks |
| `TreasuryIndex.SameTip` | services/slithy-node-status-server.py:68-69 | On a steady node the tip check tells exactly whether the index follows the node's chain |
| `TreasuryIndex.StatusBalances` | services/slithy-node-status-server.py:106-116 | A reported status balances and its rewards do not exceed balance plus total spent |
| `TreasuryIndex.StatusIsRight` | services/slithy-node-status-server.py:106-116 | All five figures of a reported status, from the transactions of the chain alone |
| `Handoff.InitialOk` | Desktop/Slithy.Linux/LinuxGuiUpdateInstaller.cs:432-442 | The protocol starts in the invariant |
| `Handoff.StepKeeps` | Desktop/Slithy.Linux/LinuxGuiUpdateInstaller.cs:432-539 | Every step of the launcher, of any process and of outsiders keeps the invariant |
| `Handoff.StaysGone` | Desktop/Slithy.Linux/LinuxGuiUpdateInstaller.cs:477-500 | Once the launcher has given up on a process that is gone, it does not come back |
| `Handoff.InvAlways` | Desktop/Slithy.Linux/LinuxGuiUpdateInstaller.cs:432-539 | The invariant holds in every interleaving |
| `Handoff.FirstLaunch` | Desktop/Slithy.Linux/LinuxGuiUpdateInstaller.cs:462-472 | The launcher's success has one first step: moving proceed.json into place |
| `Handoff.CompletesOnlyWithPermission` | Desktop/Slithy.Linux/LinuxGuiUpdateInstaller.cs:503-539 | A process gets past waiting only if it is the one the launcher started, and only after the launcher moved a proceed.json with this token and that process id into place |
| `Handoff.FailureMeansGone` | Desktop/Slithy.Linux/LinuxGuiUpdateInstaller.cs:477-500 | After any launch error no process ever gets past waiting; unless the error is the uncertain one, the started process is also gone for good |
| `Handoff.LauncherCanMove` | Desktop/Slithy.Linux/LinuxGuiUpdateInstaller.cs:432-501 | The launcher is never stuck |
| `Handoff.LauncherAdvances` | Desktop/Slithy.Linux/LinuxGuiUpdateInstaller.cs:432-501 | Every own step brings the launcher closer to its end |
| `Handoff.GoodRun` | Desktop/Slithy.Linux/LinuxGuiUpdateInstaller.cs:432-539 | A handoff without failures completes |
| `Handoff.WrongProcessIsRefused` | Desktop/Slithy.Linux/LinuxGuiUpdateInstaller.cs:458-460 | Another process that knows the token can answer first, and is refused |
| `Handoff.Desktop.Activate` | Desktop/Slithy.Linux/LinuxGuiUpdateInstaller.cs:186-202 | The final desktop entry and icon for every combination of failures, and success exactly when both writes and the launch succeed |
| `Handoff.RolledBackExactly` | Desktop/Slithy.Linux/LinuxGuiUpdateInstaller.cs:189-201 | A failed activation leaves both files as before if and only if no write failed after its move and no restore that was needed failed |
| `Handoff.HalfRolledBack` | Desktop/Slithy.Linux/LinuxGuiUpdateInstaller.cs:196-235 | Concrete failures that leave the new icon beside the old desktop entry |
| `Handoff.UpdateIsAllOrNothing` | Desktop/Slithy.Linux/LinuxGuiUpdateInstaller.cs:189-201 | With both writes done and working restores, the new files stay exactly if permission was given; otherwise they are undone and no process ever gets past waiting |

## Left out

- Coin caches: the best-block hash, database write batches and crash recovery, HaveInputs, AccessByTxid and the error-catching view; they do not touch the visible maps.
- CoinsStack.CoinsStack.Execute: covers the operations in the order the callers may issue them; memory usage of a coin is a function of its script.
- CheckQueue.CompleteReturns: fairness is to threads, not to the mutex; a critical section is one step, so waiting for the lock is not modelled.
- Block index: FindEarliestAtLeast, RaiseValidity, GetBlockProofEquivalentTime, and heights beyond 32 bits.
- Big integers: hexadecimal text, getdouble and the conversions to and from byte strings.
- Address manager: Select_ and GetChance, whose termination and weights are probabilistic, and the read-only queries GetEntries_, Size_ and FindAddressEntry_.
- AddrManager.Manager.Execute: the operations compute a new state record, which the object then stores; updates of single fields in place are not modelled.
- AddrManLoad.Unserialize: works on the parsed fields of a file; byte encodings, the XOR of the bucket count with 2^30 and a stream that ends early are not modelled.
- Base58: EncodeBase58Check and DecodeBase58Check, which only add four bytes of a hash.
- Bech32: LocateErrors; that four errors within 89 characters are detected, which does not follow from the roots of the generator.
- PartialBlock.PartiallyDownloadedBlock.InitData: leaves out extra_count, a counter for the log; that a hash bucket has grown too large is a parameter; mempool and extra pool list transactions under their own witness hash.
- Compact blocks: the message encoding around the indexes, and what makes a block mutated, which is a parameter.
- Treasury index: the HTTP server, the explorer pages, the pairing with other status values, and the formatting of amounts.
- TreasuryIndex.Index.ScanTx: a transaction with missing fields fails after its inputs instead of at the exact output.
- Handoff: the JSON texts, file modes and link checks, whose failure is a failure of the step; whether the old app starts its node again.
- Handoff.StepKeeps: a process's own time-out, its checks of the request and signals are all the one step in which it exits; process ids are not reused, and outsiders neither know the token nor touch request.json or the directory.
- Everything else in the repository: consensus rules, networking, wallet, RPC, user interface, packaging, and all cryptography.
