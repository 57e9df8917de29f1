# Delibird

A message broker (`broker`) with an in-memory cache, a trainer team (`team`), and a file server for
wild Pokemon (`gamecard`), which talk over a small binary protocol (`libs`). This project models the
four parts of it whose correctness is not visible from any one function.

**The broker's cache** (`Arithmetic`, `Partitions`, `Buddy`, `Dynamic`, `Compaction`, `Cache`, `Runs`,
`Memory`). A list of partitions over one byte array, under a buddy system or dynamic partitions, with
FIFO or LRU eviction. `Memory` has the code's form: partition objects updated in place, lists edited by
start address, loops that evict until something fits. Each of its methods is proved equal to a function
of the old state in the other modules, where the properties are proved: the invariants of both
allocators, that the eviction loops end, and, over whole runs, that every cached message still has its
bytes. A run's choices that the code leaves to `list_sort` (which of several equally old victims, which
of several equally small holes) are arguments of a step, and everything holds for every legal choice.

**The team's deadlock service** (`Exchanges`, `Team`). Full trainers who hold each other's Pokemon are
unblocked by rounds of pairwise swaps. The main theorem is the header's claim: for a balanced team the
rounds end with everybody's goal met.

**Gamecard's files** (`Blocks`, `Handlers`, `Records`, `Sightings`, `TallGrass`). Files are chains of
blocks from a shared bitmap. `Handlers` is the interleaving of concurrent New, Catch and Get handlers,
one step per critical section; `Sightings` says what their runs leave in the files; `TallGrass` is the
handlers' code, each change of which is one of those steps.

**The broker's protocol layer** (`Wire`, `Serialization`, `Forwarding`, `Locks`, `Replays`,
`Subscriptions`). The message formats and what the broker stores and sends on; the readers-writer lock
as interleaved steps of any number of threads; publications and replays with acknowledgements, as
interleaved steps in `Replays` and as the code over the cache's own partitions in `Subscriptions`.
`Forwarding` joins the first and the last part: what a subscriber is sent, however much the cache has
been reorganized since the message came in.

`Protocol` has the operation codes. `dfyconfig.toml` lists all files: `dafny verify dfyconfig.toml`.

What callers must grant, because the code does not check it:

- The payload has between 1 and TAMANO_MEMORIA bytes. The guard at broker/src/mem.c:9 compares the size
  of a pointer; `Runs.TooBigNeverFits`, `Runs.TooBigEvictsAll` and `Runs.HugeFitsAnywhere` say what the
  search for a partition comes to otherwise.
- TAMANO_MINIMO_PARTICION is between 1 and TAMANO_MEMORIA; in buddy mode both are powers of two.
- In dynamic mode the hole found is not below the minimum, as is certain for a payload that is not.
  `Memory` follows the code for smaller ones too, and `Runs.SavedWellExactly` says when the memory is
  well-formed afterwards.
- TIME has not wrapped, and message ids are not used twice.
- The team is balanced: its captures equal its goals as multisets, every trainer is full, nobody waits
  for an exchange already, and names are unique.
- File creation is over: every Pokemon file named by a New exists.
- A subscriber does not subscribe to a queue again while a replay still has something of it left to send
  it (`Replays.TwiceExactly` shows that this is exactly what is needed).

Two promises that the code does not keep are stated exactly. A New on an empty file that runs out of
blocks keeps one block marked that no file owns (`Handlers.RollbackExact`, `Handlers.LossExactly`, and
`Handlers.BlockLost` for a run); it
cannot happen with blocks larger than any first record (`Handlers.NothingEverLost`). Compacting a
memory without free space appends a partition of size zero (`Dynamic.CompactInv`); the loop with
positive frequency never does (`Cache.StepExists`).

## Model

| member | source | states |
|---|---|---|
| Arithmetic.NextPowerOf2 | broker/src/arithmetic.c:3-13 | in 32-bit words, with its five shift-or steps: the least power of two not below n for 1 <= n <= 2^31, and 0 for 0 and for anything larger |
| Arithmetic.SmearWord | broker/src/arithmetic.c:5-9 | the five shift-or steps fill any word with ones up to its leading one |
| Arithmetic.XorAligned | broker/src/arithmetic.c:15-17 | for p a multiple of a power of two s, p XOR s is p + s when p is a multiple of 2s and p - s otherwise |
| Arithmetic.XorInvolutive | broker/src/arithmetic.c:15-17 | the XOR of a position and a size is again aligned, differs from the position, and XORs back to it |
| Arithmetic.AlignedIsMultiple | broker/src/buddy.c:124-126 | the bitwise notion of alignment used for the buddy rule is divisibility |
| Buddy.BuddyIsNeighbour | broker/src/buddy.c:120-126 | in a well-formed list, a free block found at the buddy position with the same size is the next or the previous entry |
| Buddy.ConsolidateCoalesces | broker/src/buddy.c:63-91 | if only the victim may have a free buddy, merging it upwards leaves no two free buddies anywhere and loses no occupied partition |
| Buddy.BuddyFoundByStart | broker/src/buddy.c:75-82 | after the survivor has taken the lower start, the first entry with the absorbed buddy's start is still the absorbed one |
| Buddy.AbsorbIsFuse | broker/src/buddy.c:75-82 | taking the two minima and the sum and removing the other entry is fusing two neighbours, whichever of them is the survivor |
| Buddy.SplitInv | broker/src/buddy.c:93-118 | halving down to the wanted power of two keeps every block a power of two at a multiple of its size and creates no free buddies except with the block being handed out |
| Buddy.Split | broker/src/buddy.c:93-118 | halving ends with exactly the wanted size in the chosen entry, everything else about it unchanged |
| Buddy.EmptyIsWhole | broker/src/buddy.c:26-34 | a fully coalesced list with nothing occupied is the single block of TAMANO_MEMORIA |
| Buddy.OccupyCoalesces | broker/src/buddy.c:36-58 | occupying the split block restores that no two free partitions are buddies |
| Memory.BrokerMemory.BuddyOf | broker/src/buddy.c:120-139 | finds the entry at the XOR position, or null if there is none |
| Memory.BrokerMemory.Absorb | broker/src/buddy.c:74-82 | the three field updates and the removal by start turn two neighbours into one, with the surviving object |
| Memory.BrokerMemory.ConsolidateBuddy | broker/src/buddy.c:63-91 | the merging loop computes the upward merge chain and ends |
| Memory.BrokerMemory.BreakBuddys | broker/src/buddy.c:93-118 | the halving loop computes the split chain and ends |
| Memory.BrokerMemory.KillBuddy | broker/src/buddy.c:26-34 | one eviction: the victim is a least one, and is merged upwards |
| Memory.BrokerMemory.MakeRoomBuddy | broker/src/buddy.c:20-34 | the eviction loop ends with a hole that fits, having taken a legal sequence of evictions |
| Memory.BrokerMemory.StoreInBuddy | broker/src/buddy.c:36-58 | splits the hole, occupies it and writes exactly the payload's bytes at its place |
| Memory.BrokerMemory.SaveToCacheBuddySystem | broker/src/buddy.c:16-59 | the whole save: new list, bytes and clock are those of Cache.Save for some legal sequence of evictions and hole, and the allocator's invariant holds again |
| Dynamic.MergeRestores | broker/src/dynamic.c:213-262 | when at most three free partitions stand in a row, merging one pair or one triple leaves a well-formed list with no two free neighbours |
| Dynamic.EvictRun | broker/src/dynamic.c:213-262 | freeing one partition of such a list makes at most three free ones in a row |
| Dynamic.EmptyIsWhole | broker/src/dynamic.c:90-118 | without free neighbours and with nothing occupied the memory is one partition |
| Dynamic.CompactInv | broker/src/dynamic.c:120-203 | after compaction exactly the last partition is free, it reaches to the end of the memory and has the sum of the old free sizes; the memory is well-formed if and only if that is not zero, that is, if something was free |
| Dynamic.CompactOccupied | broker/src/dynamic.c:138-162 | compaction keeps exactly the occupied partitions, at their new places |
| Dynamic.PackedAt | broker/src/dynamic.c:138-154 | the occupied partitions keep their order and sizes and start where the sizes of those before them end |
| Dynamic.CompactKeepsBytes | broker/src/dynamic.c:138-162 | each message's bytes arrive at its new position although later messages are written after it |
| Compaction.FreeFoundByStart | broker/src/dynamic.c:189-195 | while the free entries are removed one by one, the first entry with the next one's start is that entry, although occupied ones have been given new starts already |
| Compaction.LastFoundByStart | broker/src/dynamic.c:178-198 | the new hole goes after the last occupied partition, found by its start |
| Compaction.SumIsFreeSize | broker/src/dynamic.c:166-176 | the folded sum of the free partitions is the memory not occupied |
| Memory.BrokerMemory.FindFreePair | broker/src/dynamic.c:213-240 | finds the first two free neighbours |
| Memory.BrokerMemory.Consolidate | broker/src/dynamic.c:213-262 | merges the first pair or triple of free neighbours |
| Memory.BrokerMemory.MoveOccupied | broker/src/dynamic.c:130-154 | copies each occupied partition's data and moves it next to the one before |
| Memory.BrokerMemory.WriteBack | broker/src/dynamic.c:156-162 | writes the copies back at the new starts |
| Memory.BrokerMemory.RemoveFree | broker/src/dynamic.c:189-195 | removes by start exactly the free entries |
| Memory.BrokerMemory.Compact | broker/src/dynamic.c:120-203 | the whole compaction, list and bytes, is Dynamic.Compact and Dynamic.CompactBytes |
| Memory.BrokerMemory.FindPartitionDynamic | broker/src/dynamic.c:275-315 | a hole that fits is cut, its rest (32 bits) inserted after it, and it is taken; null only if there is none, and then nothing changes |
| Memory.BrokerMemory.PositiveFrequency | broker/src/dynamic.c:90-118 | the loop ends, and what it did is a legal sequence of turns: a compaction exactly when as many partitions have been killed since the last one as configured, an eviction otherwise |
| Memory.BrokerMemory.NegativeFrequency | broker/src/dynamic.c:42-59 | the same loop without compactions |
| Memory.BrokerMemory.SaveToCacheDynamicPartitions | broker/src/dynamic.c:10-34 | the whole save under dynamic partitions, for any size up to the memory's: exactly the list, bytes and clock the code leaves, and a well-formed memory when the hole found is not below the minimum |
| Memory.BrokerMemory.ListFindIndex | broker/src/mem_utils.c:103-121 | the index of the first partition with that start |
| Memory.BrokerMemory.RemovePartitionAt | broker/src/mem_utils.c:68-70 | removes exactly the first entry with that start |
| Memory.BrokerMemory.AddPartitionNextTo | broker/src/mem_utils.c:72-74 | inserts right after the first entry with that start |
| Memory.BrokerMemory.FindPartition | broker/src/mem_utils.c:27-33 | under first fit a free partition that fits with none before it that is free and fits; under best fit a free one that fits and is no larger than any other such; null if and only if there is none |
| Memory.BrokerMemory.ChooseVictim | broker/src/mem_utils.c:141-155 | frees an occupied partition whose creation (FIFO) or access (LRU) time is the least |
| Memory.BrokerMemory.constructor | broker/src/main.c:95-103 | the initial memory is one free block and satisfies the invariant of the runs |
| Memory.BrokerMemory.SaveMessage | broker/src/mem.c:7-18 | the state the code leaves for any size up to the memory's: the message, its bytes and the time are in the first or smallest hole of the room made, of the right size; and one saving step of a run when that hole is not below the minimum; nothing when the pointer guard fails |
| Memory.BrokerMemory.Tick | broker/src/broker.c:50 | get_time: the clock of the runs moves by one |
| Memory.BrokerMemory.MarkUsed | broker/src/broker.c:56 | the partition's access time is the time its replay was given, as one step of a run |
| Cache.VictimWhenStuck | broker/src/buddy.c:26-34 | when nothing fits a size that fits the memory, there is a partition to evict |
| Cache.StepExists | broker/src/dynamic.c:96-115 | when nothing fits there is always a next turn, and a compaction always has an occupied and a free partition |
| Cache.StepDecreases | broker/src/dynamic.c:96-115 | every turn lowers (occupied partitions, whether a compaction is due) lexicographically |
| Cache.LoopEnds | broker/src/dynamic.c:90-118 | any turns already taken can be continued to a hole that fits, with at most as many evictions in all as there were occupied partitions |
| Cache.KillsCount | broker/src/buddy.c:26-34 | the loop gives up exactly one message per eviction |
| Cache.CompactsExactly | broker/src/dynamic.c:90-118 | in any legal sequence of turns, a turn compacts if and only if, in dynamic mode, as many partitions have been killed since the last compaction as configured |
| Cache.TurnMeans | broker/src/dynamic.c:96-115 | an eviction takes exactly one message, one of least age, out of the cache; a compaction takes none, and leaves all free memory in one partition at the end |
| Cache.ChoiceMeans | broker/src/mem_utils.c:95-101 | the hole chosen is free, fits, and is the first such or no larger than any such |
| Cache.SaveMeans | broker/src/dynamic.c:16-32 | after a save the chosen hole has the message, its bytes and the time, and the size the configuration asks for |
| Cache.CutWordMeans | broker/src/dynamic.c:275-315 | the cut adds one free partition right after the hole; the two sizes add up to the hole's modulo 2^32, and nothing else changes |
| Runs.SaveKeeps | broker/src/buddy.c:16-59 | one save keeps the allocator's invariant and every surviving message's bytes, stores its own, and adds no other message |
| Runs.SaveExists | broker/src/mem.c:7-18 | any message from 1 byte up to the memory's size can be saved well (in dynamic mode, from the minimum), evicting at most what is cached |
| Runs.TooBigNeverFits | broker/src/mem.c:9-17 | in the code's 32-bit sizes, a message larger than the memory never finds a partition if and only if it is not above 2^31 bytes in the buddy system; the guard of save_message does not tell |
| Runs.HugeFitsAnywhere | broker/src/buddy.c:18-34 | above 2^31 bytes the buddy system searches for its smallest block: any free block is taken, and every block is smaller than the message |
| Runs.TooBigEvictsAll | broker/src/dynamic.c:90-118 | looking for room for any other larger message evicts until nothing is occupied and still nothing fits |
| Runs.AllCanBeSaved | broker/src/mem.c:7-18 | whatever messages of such sizes come in, under ids of their own, there is a run that saves them all, so the statements about runs are about all of them |
| Runs.CachedBytes | broker/src/buddy.c:16-59 | over any run of saves and replays under either allocator, the bytes at every cached message's partition are the payload it was saved with |
| Runs.BuddyStates | broker/src/buddy.c:63-118 | in every reachable buddy state the partitions tile the memory, sizes are powers of two, positions multiples of them, starts match positions, and no two free partitions are buddies |
| Runs.BuddyWaste | broker/src/buddy.c:18-19 | a buddy block is the configured minimum or smaller than twice its data |
| Runs.CachedIsSuffix | broker/src/mem_utils.c:141-155 | under FIFO, at every point of every run, the cached messages are exactly a suffix of those saved, in order |
| Runs.EvictsPrefix | broker/src/mem_utils.c:35-43 | one save evicts exactly the oldest messages, one per eviction, and before each of its turns nothing fitted |
| Runs.EvictsLeast | broker/src/mem_utils.c:141-155 | what a save evicts is no younger than anything it keeps, under FIFO and LRU |
| Runs.EvictsLeastUsed | broker/src/mem_utils.c:141-155 | under LRU, in any run, every message a save evicts was last used no later than every message it keeps |
| Runs.AccessIsLastUse | broker/src/broker.c:49-56 | the access time of a cached message is the time last written for it, by its save or by a replay that sent it, however replays are interleaved |
| Runs.CutAsIsTiles | broker/src/dynamic.c:275-315 | searching with the raw size and cutting at the minimum keeps the tiling if and only if the hole found is not below TAMANO_MINIMO_PARTICION (32-bit subtraction included) |
| Runs.SavedWellExactly | broker/src/dynamic.c:10-34 | a save of any size up to the memory's leaves the allocator's invariant if and only if the hole it found is not below the minimum |
| Runs.SmallMessageOverruns | broker/src/dynamic.c:275-315 | a run from the initial memory of 10 bytes: one message of 8 leaves a hole of 2, which a message of 1 byte is given, and the partitions overrun the memory |
| Exchanges.SomeoneHasIt | team/include/servicios/servicioDeResolucionDeDeadlocks/ServicioDeResolucionDeDeadlocks.h:21-29 | in a balanced team, what one trainer lacks another has to spare |
| Exchanges.NeedIsSurplus | team/src/servicios/servicioDeResolucionDeDeadlocks/ServicioDeResolucionDeDeadlocks.c:193-208 | a full trainer has as many to spare as it lacks, and lacks nothing if and only if its captures are its goals |
| Exchanges.SwapLowers | team/src/modelo/equipo/entrenador/Entrenador.c:29-49 | giving something to spare never makes a trainer lack more, and getting something it lacks makes it lack exactly that one less |
| Exchanges.ExchangeHelps | team/src/servicios/servicioDeResolucionDeDeadlocks/ServicioDeResolucionDeDeadlocks.c:193-233 | a chosen exchange can be carried out, conserves the team's Pokemon and each trainer's total, raises nobody's deficit, and lowers the team's by one or two |
| Exchanges.TeamConserved | team/src/modelo/equipo/entrenador/Entrenador.c:29-49 | an exchange conserves the team's multiset of Pokemon |
| Exchanges.RoundHelps | team/src/servicios/servicioDeResolucionDeDeadlocks/ServicioDeResolucionDeDeadlocks.c:138-166 | the disjoint exchanges of a round, run one after the other, each lower the total deficit and keep the balance |
| Exchanges.AnyInterleaving | team/src/servicios/servicioDeResolucionDeDeadlocks/ServicioDeResolucionDeDeadlocks.c:138-166 | any interleaving of the two sides of a round's exchanges can be carried out and ends in the same team |
| Exchanges.DependenciesMean | team/src/servicios/servicioDeResolucionDeDeadlocks/ServicioDeResolucionDeDeadlocks.c:53-97 | the dependency records are exactly those of the trainers someone can help, each with exactly its helpers |
| Exchanges.UnfinishedBalanced | team/include/servicios/servicioDeResolucionDeDeadlocks/ServicioDeResolucionDeDeadlocks.h:21-29 | leaving out the trainers who are done keeps the rest balanced and the total deficit the same |
| Team.Subtract | libs/src/utils/colecciones/ExtensionColecciones.c:51-72 | removing one matching pair at a time until none is left computes the multiset difference |
| Team.PokemonList | team/src/servicios/servicioDeResolucionDeDeadlocks/ServicioDeResolucionDeDeadlocks.c:365-386 | the list of a counter has each name as many times as counted |
| Team.HaveCommon | team/src/servicios/servicioDeResolucionDeDeadlocks/ServicioDeResolucionDeDeadlocks.c:351-363 | whether the two lists share an element |
| Team.Contains | libs/src/utils/colecciones/ExtensionColecciones.c:90-95 | list membership |
| Team.Entrenador.SwapWith | team/src/modelo/equipo/entrenador/Entrenador.c:29-49 | done if and only if both have what they give; then each gives one and gets the other, otherwise nothing changes |
| Team.Entrenador.Replace | team/src/modelo/equipo/entrenador/Entrenador.c:7-16 | replaces one capture if it is there |
| Team.Entrenador.ObjectiveCompleted | team/src/modelo/equipo/entrenador/Entrenador.c:86-109 | true when every goal species is counted exactly; for a full trainer that is captures equal to goals |
| Team.CreateDependencies | team/src/servicios/servicioDeResolucionDeDeadlocks/ServicioDeResolucionDeDeadlocks.c:53-97 | the nested loops compute the records that Exchanges.DependenciesMean characterizes |
| Team.Pick | team/src/servicios/servicioDeResolucionDeDeadlocks/ServicioDeResolucionDeDeadlocks.c:193-233 | something the giver has to spare, and something needed whenever it has any to spare |
| Team.ResolveOne | team/src/servicios/servicioDeResolucionDeDeadlocks/ServicioDeResolucionDeDeadlocks.c:143-162 | one record: a trainer not involved yet is matched with the first of its helpers that is not involved either, if there is one, and nothing else changes; afterwards its trainer and each of its helpers are in an exchange of their own or of a pair before them |
| Team.ResolveDeadlock | team/src/servicios/servicioDeResolucionDeDeadlocks/ServicioDeResolucionDeDeadlocks.c:138-166 | the exchanges chosen are useful, pairwise disjoint and in the order of the records; a trainer and a helper of it are without an exchange of their own only if one of them is in that of a pair before them, in the order of the records and of their helpers; and there is one if there is any dependency |
| Team.ProcessDeadlock | team/src/servicios/servicioDeResolucionDeDeadlocks/ServicioDeResolucionDeDeadlocks.c:10-51 | every exchange is between two different trainers neither of whom is waiting already; the mover lacks what it gets and both give what they have to spare; nobody is in two; of any two who are not waiting, one of whom can help the other, one takes part; and there is one while anybody among them lacks anything, if they are balanced |
| Team.RunExchanges | team/src/modelo/equipo/entrenador/Entrenador.c:29-49 | the tasks run on the trainer objects carry out the planned exchanges |
| Team.OneRound | team/src/servicios/servicioDeResolucionDeDeadlocks/ServicioDeResolucionDeDeadlocks.c:10-51 | a round keeps the rest balanced and lowers their total deficit by at least the number of its exchanges, at least one |
| Team.ResolveAll | team/include/servicios/servicioDeResolucionDeDeadlocks/ServicioDeResolucionDeDeadlocks.h:21-29 | rounds end with every trainer's captures equal to its goals, after at most the initial total deficit of exchanges |
| Blocks.ReadDump | gamecard/src/mapeo.c:11-58 | reading as many characters as were written, from distinct blocks enough for them, gives back the text |
| Blocks.DumpElsewhere | gamecard/src/mapeo.c:37-58 | writing changes no other block |
| Blocks.ReadSame | gamecard/src/mapeo.c:11-35 | reading depends on the file's own blocks only |
| Blocks.DumpAt | gamecard/src/mapeo.c:37-58 | after a write the c-th character of the i-th block is the (i * blockSize + c)-th of the text, and a zero byte where the text has ended |
| Blocks.ReadAt | gamecard/src/mapeo.c:11-35 | the (i * blockSize + c)-th character read is the c-th of the i-th block |
| Blocks.BlocksForIs | gamecard/src/bloques.c:51-53 | the number of blocks for a size is the least whose total is more than the size |
| Handlers.StepKeeps | gamecard/src/manejoDeArchivos.c:42-64 | under any interleaving of handlers' steps no block comes to belong to two files, every owned block is marked, and closed files have the blocks their size asks for |
| Handlers.StepContents | gamecard/src/manejoDeArchivos.c:66-72 | no handler's step changes what another file reads as; a file reads as what its last completed operation wrote |
| Handlers.RunKeeps | gamecard/src/reintentoOperacion.c:41-72 | the same at every point of every run |
| Handlers.StartsWell | gamecard/src/bloques.c:25-43 | empty files over an empty bitmap are a way to start |
| Handlers.ClosedFile | gamecard/src/manejoDeArchivos.c:42-72 | at every point of every run a closed file has no blocks if it is empty and size / blockSize + 1 distinct marked ones otherwise; no other closed file has any of them and no handler has one in its list; and each character of its text is at its place in them |
| Handlers.RollbackExact | gamecard/src/manejoDeArchivos.c:52-63 | a New that finds the disk full ends with exactly its old blocks if and only if its file was not empty or it had taken none |
| Handlers.LossExactly | gamecard/src/manejoDeArchivos.c:52-63 | a step loses a block (marked, owned by no file) if and only if it ends such a rollback of an empty file that had taken some |
| Handlers.BlockLost | gamecard/src/manejoDeArchivos.c:52-63 | a run in which that happens: one block of 4 characters, one empty file, a first record of 6 |
| Handlers.NothingEverLost | gamecard/src/manejoDeArchivos.c:42-64 | when blocks are larger than any first record, the marked blocks are exactly the owned ones at every point of every run |
| Records.ParseRender | gamecard/src/mapeo.c:72-94 | reading the lines of a file gives back its records |
| Records.LineText | gamecard/src/mapeo.c:62-69 | a record is x, a hyphen, y, an equals sign, the quantity and the end of the line |
| Records.PrintDigits | gamecard/src/mapeo.c:63-67 | the k-th digit from the right is that of ten to the k, and there are no leading zeros |
| Records.AtIs | gamecard/src/mapeo.c:76-84 | what there is at a position is the quantity of its record, and nothing without one |
| Records.AddIs | gamecard/src/mapeo.c:62-100 | a New raises the record of its position where it stands, or appends a new one |
| Records.TakeIs | gamecard/src/mapeo.c:102-137 | a Catch lowers the record of its position where it stands, or takes it out if it was at one; the others keep their order |
| Records.AddCounts | gamecard/src/mapeo.c:62-100 | a New adds its quantity at its position, changes no other position, and keeps keys unique and quantities positive |
| Records.TakeCounts | gamecard/src/mapeo.c:102-137 | a Catch takes one at its position and changes no other; a record at one disappears |
| Records.AddGrows | gamecard/src/mapeo.c:62-100 | a New never makes the text shorter, nor empty |
| Records.TakeShrinks | gamecard/src/mapeo.c:102-137 | a Catch never makes it longer, and empties it exactly with the last record |
| Sightings.HeldIsSum | gamecard/src/fileSystem.c:104-186 | at any point of any interleaving on any files, a file holds at each position what it held at the start plus what the News carried out there added minus the Catches carried out there |
| Sightings.BlocksHoldSum | gamecard/src/fileSystem.c:104-186 | and that is what reading its blocks gives while it is closed |
| TallGrass.FileSystem.TryOpen | gamecard/src/reintentoOperacion.c:41-63 | opens the file if and only if it was closed |
| TallGrass.FileSystem.CloseFile | gamecard/src/reintentoOperacion.c:65-72 | the file is closed and nothing else changes |
| TallGrass.FileSystem.AssignFreeBlock | gamecard/src/bloques.c:25-43 | marks and empties the block before which all are taken, and no other; or returns -1, changing nothing, exactly when all are |
| TallGrass.FileSystem.FreeBlock | gamecard/src/bloques.c:45-49 | unmarks the block |
| TallGrass.FileSystem.MapFile | gamecard/src/mapeo.c:11-35 | the loop over the blocks computes Blocks.Read |
| TallGrass.FileSystem.DumpFile | gamecard/src/mapeo.c:37-58 | the loop over the blocks computes Blocks.Dump |
| TallGrass.FileSystem.AddCoordinate | gamecard/src/manejoDeArchivos.c:26-85 | succeeds if and only if the blocks of the file and the free ones together are enough; then the file holds the records with the new ones added, on size / blockSize + 1 blocks that begin with its old ones; otherwise no file changes, and the bitmap is as before if and only if the file was not empty or the disk was full at once |
| TallGrass.FileSystem.RollBack | gamecard/src/manejoDeArchivos.c:52-63 | gives back what was taken: the bitmap is as before if and only if the file was not empty or nothing was taken |
| TallGrass.FileSystem.RemoveCoordinate | gamecard/src/manejoDeArchivos.c:89-158 | fails if and only if there is nothing at that position, changing nothing; otherwise one Pokemon less, and exactly the blocks past those still needed (all, with the last record) become free |
| TallGrass.FileSystem.GetCoordinates | gamecard/src/manejoDeArchivos.c:160-192 | the positions of the file's records, in their order |
| TallGrass.FileSystem.ProcessNew | gamecard/src/fileSystem.c:104-146 | one attempt: open, add, close; it succeeds if and only if there are enough blocks, and then the new text is on the disk, in the file's blocks; no other file changes |
| TallGrass.FileSystem.ProcessCatch | gamecard/src/fileSystem.c:148-186 | one attempt: 2 (FAIL) for a missing file or an empty position, otherwise 1 (OK), with the text without that Pokemon on the disk and exactly the blocks past those still needed unmarked; no other file changes |
| TallGrass.FileSystem.ProcessGet | gamecard/src/fileSystem.c:188-231 | one attempt: exactly the positions with any Pokemon; nothing for a missing file |
| TallGrass.PositionsAre | gamecard/src/manejoDeArchivos.c:176-185 | a position is listed if and only if the file has any Pokemon there |
| TallGrass.MarkedCount | gamecard/src/bloques.c:25-43 | every block taken leaves exactly one fewer free |
| TallGrass.FreeCountIs | gamecard/src/bloques.c:25-43 | the number of free blocks is the length of the ascending list of exactly the unmarked ones |
| Wire.DecodeEncode | libs/src/new_pokemon.c:3-28 | for all six operations, a receiver gets exactly the message that was sent and leaves what follows it |
| Wire.EncodeDecode | libs/src/utils.c:3-85 | whatever a receiver accepts is the encoding of what it takes it to be |
| Wire.RebuildStored | broker/src/serialization.c:33-277 | what the broker rebuilds is the producer's encoding followed by the right id, if and only if the name's last byte is NUL |
| Wire.SizesAgree | broker/src/serialization.c:5-31 | the computed size is that of the stored bytes if and only if the name ends at its first NUL |
| Wire.SentSize | broker/src/broker.c:118-139 | the bytes sent are as many as computed |
| Wire.EncodedLayout | libs/src/new_pokemon.c:3-28 | byte by byte: the number of the queue (NEW 1, LOCALIZED 2, GET 3, APPEARED 4, CATCH 5, CAUGHT 6), the name's length and bytes, and the positions, quantity, count or result after it, each a word with its lowest byte first |
| Wire.StoredLayout | broker/src/serialization.c:33-147 | the same for what is cached: no number, and the name one byte shorter |
| Wire.BytesOf | libs/src/utils.c:52-64 | the four bytes of a word are its digits to the base 256, the lowest first |
| Wire.IdAtEnd | broker/src/serialization.c:149-277 | the last four bytes sent on are the message's id modulo 2^32 for NEW, GET and CATCH, and the correlational id for APPEARED, CAUGHT and LOCALIZED |
| Wire.StoreAndForward | broker/src/serialization.c:149-277 | storing, rebuilding and receiving is the identity: what is sent on is the producer's encoding and then four bytes, the message's own id for NEW, GET and CATCH and the correlational id for APPEARED, CAUGHT and LOCALIZED; right lengths, same message |
| Forwarding.CachedIsSentOn | broker/src/broker.c:22-38 | after any run of saves and replays, a message still cached is sent on as its producer's bytes followed by the four bytes of its id (NEW, GET, CATCH) or of the id it answers (APPEARED, CAUGHT, LOCALIZED), and decodes to the message received |
| Serialization.Name.constructor | libs/src/utils.c:96-106 | a name ends at its only NUL, and its size counts it |
| Serialization.Serialize | libs/src/localized_pokemon.c:3-31 | the buffer, filled by displacement, is exactly the encoding, and begins with the number of the queue |
| Serialization.AppendPositions | libs/src/localized_pokemon.c:21-28 | the loop over the coordinates appends each in turn |
| Serialization.SerializeData | broker/src/serialization.c:33-147 | the buffer is exactly what is stored, and the name's size is one less afterwards |
| Serialization.CopyMessageFromMemory | broker/src/serialization.c:149-277 | the buffer is exactly the rebuilt message, and its last four bytes are the id, or the correlational id, by operation |
| Serialization.Socket.ReceiveName | libs/src/utils.c:3-24 | decodes a name, or fails on a short connection or an empty name |
| Serialization.Socket.ReceiveCoordinates | libs/src/utils.c:52-85 | decodes one coordinate, or as many as announced |
| Serialization.Socket.ReceivePokemon | libs/src/pokemon.c:3-19 | decodes a name and its coordinates |
| Serialization.Socket.ReceiveData | libs/src/new_pokemon.c:53-73 | decodes the message of the given operation and consumes exactly its bytes |
| Locks.StepKeeps | broker/src/mem.c:46-84 | every step of every thread keeps: the semaphore's value plus its holders is one, READERS counts the readers, one thread holds the readers' mutex |
| Locks.Exclusion | broker/src/mem.c:46-84 | a writer overlaps no writer and no reader |
| Locks.AlwaysExclusive | broker/src/mem.c:46-84 | the same at every point of every interleaving of any number of threads |
| Locks.ReadersShare | broker/src/mem.c:46-58 | while one thread reads and the readers' mutex is free, another gets in by its own steps alone, and the first goes on reading |
| Locks.IdleIsInit | broker/src/mem.c:60-84 | when everyone has let go, the semaphore, READERS and the mutex are as at the start |
| Locks.Progress | broker/src/mem.c:46-58 | unless all are idle some thread can step, also while the first reader waits with the readers' mutex locked |
| Locks.AllGetThrough | broker/src/mem.c:46-84 | if nobody new arrives, every schedule takes exactly as many steps as were left to take and ends with all idle |
| Replays.StepKeeps | broker/src/broker.c:40-71 | every step of publications and replays keeps that what is still to be sent is cached, of its queue and not yet notified, in increasing order of ids |
| Replays.AcknowledgedOnce | broker/src/broker.c:141-167 | no (message, process, id) is acknowledged twice in any run where nobody subscribes again while there is something of the queue left to send it, and what is recorded is what was acknowledged |
| Replays.ReplayEnds | broker/src/broker.c:40-71 | what a replay has sent when it ends is, in increasing order of id, exactly the cached messages of the queue the subscriber had not acknowledged when it began; and if each was acknowledged, every message of the queue that is cached by then has been |
| Replays.PublicationEnds | broker/src/broker.c:84-116 | a publication that ends began with a latest Publish step; since then its message was sent exactly once to everyone who had subscribed to its queue by then and not acknowledged it, and nothing was sent to anybody else; if every send was acknowledged, everyone who had subscribed has been notified; and the message is cached |
| Replays.ReplayBegan | broker/src/broker.c:40-71 | a replay that ends was begun by a step of its thread |
| Replays.SubscribedExactly | broker/src/subscribers.c:64-103 | subscribed to a queue are, in any run, exactly those who have subscribed to it |
| Replays.CachedExactly | broker/src/broker.c:22-38 | cached under a queue are exactly the messages published to it and not evicted since |
| Replays.AcksAre | broker/src/broker.c:152-158 | recorded as notified are exactly the sends that were acknowledged, in their order |
| Replays.NobodyMisses | broker/src/broker.c:22-71 | whoever subscribed and had a replay end has, from then on and whenever no publication is under way, acknowledged every cached message of the queue, if what was sent to it was acknowledged: nothing published meanwhile falls between the two |
| Replays.FilterKeeps | broker/src/broker.c:97-98 | the subscribers a publication goes to are exactly those not notified, each once |
| Replays.TwiceExactly | broker/src/broker.c:40-71 | subscribing again lets some message be acknowledged twice later on if and only if a replay of the same queue to the same subscriber had something left to send |
| Replays.OverlapComesAbout | broker/src/broker.c:40-71 | a run that leads to such a replay |
| Subscriptions.OneOrder | broker/src/mem.c:34-42 | the order of a replay depends on nothing but which messages it has |
| Subscriptions.InsertedIs | broker/src/mem.c:34-42 | sorting by id keeps exactly the ids found |
| Subscriptions.Broker.MessagesFromOperation | broker/src/mem.c:20-44 | exactly the occupied partitions with a message of the queue that the subscriber is not listed as notified of, by strictly increasing id |
| Subscriptions.Broker.CreateOrUpdateSubscriber | broker/src/subscribers.c:64-76 | a known process and id gets its socket updated in place and the list stays as it is; otherwise a new one is appended; no other socket changes |
| Subscriptions.Broker.AddNotifiedSubscriber | broker/src/subscribers.c:28-43 | appends to the message's list, which is created if missing |
| Subscriptions.Broker.SendAndWait | broker/src/broker.c:141-167 | one send: recorded as notified if and only if acknowledged |
| Subscriptions.Broker.SendOne | broker/src/broker.c:54-65 | the partition's access time is written and its message sent |
| Subscriptions.Broker.constructor | broker/src/main.c:70-103 | the initial broker: an empty cache, nobody subscribed or notified |
| Subscriptions.Broker.NewSuscription | broker/src/broker.c:40-71 | sends what is to be sent in order of id, adds exactly the acknowledged ones to what the subscriber has been notified of, and marks in the cache exactly the sent ones as used now; the clock moves only if there is anything to send |
| Subscriptions.CacheSaved | broker/src/broker.c:22-38 | after a save the new message is cached, and of the others those not evicted |
| Subscriptions.Broker.FilterNotNotified | broker/src/broker.c:84-98 | the subscribers not listed as notified of the message, in their order |
| Subscriptions.Broker.SendPublished | broker/src/broker.c:141-167 | one send of a publication: recorded as notified if and only if acknowledged |
| Subscriptions.Broker.SendToSubscribers | broker/src/broker.c:102-113 | every thread is joined: exactly those who acknowledge are added to those notified |
| Subscriptions.Broker.NewRequest | broker/src/broker.c:22-38 | unless the guard refuses it, the message is cached and sent, once each, to exactly the subscribers of its queue not notified of it; exactly those who acknowledge are added to those notified; and the cache, its list and the subscribers' lists agree again |

## Left out

- `_zero_frecuency` (broker/src/dynamic.c:61-88): with frequency 0 the code compacts after each eviction, also when nothing is occupied any more, which `_compact` does not handle; the configuration is assumed to have another frequency.
- `list_sort`, `list_filter`, the dictionaries and the bit array are a library that is not part of this model: a sort may leave equal elements in any order, and `list_sort` in `_compact` changes nothing, as the list is by position already.
- TIME and ids are unbounded, positions and starts too; the size arithmetic of arithmetic.c, the sizes searched for and the cut of `find_partition_dynamic` are in 32 bits.
- Memory.BrokerMemory.SaveMessage: does not model a payload above TAMANO_MEMORIA bytes. The code then chooses a victim among no partitions, compacts with none occupied, or copies past a block (Runs.TooBigEvictsAll, Runs.HugeFitsAnywhere), and what follows is undefined.
- The message of an evicted partition is modelled as gone; in the code the pointer to it stays until the partition is used again. malloc and free are not modelled.
- Partition mutexes, `replace_partition_at`, `find_partition_at` and the memory dump.
- Names of species and trainers are compared exactly; the code ignores case. A trainer's counters are a multiset, so a counter at zero and a missing one are the same.
- Team.Subtract: the recursion of `restarPrimerListaASegunda` is a loop that restarts after each removed pair; what the C loop does with its freed names after the inner call returns is not modelled.
- Team.ProcessDeadlock: the report of the first round (`detectarEnDetalleYLogear`) and its metrics are not modelled.
- Team.ResolveAll: rounds are not mixed; each ends before the next is planned, so nobody is waiting then.
- That the team's captures add up to its goals is assumed, not derived from the accounting of global objectives; movement, planning, queues and scheduling estimates of team are left out.
- The tasks of a round run one after another in Team.RunExchanges; Exchanges.AnyInterleaving covers other orders of their sides.
- Creation of Pokemon files and its race (gamecard/src/fileSystem.c:112-115).
- Records are compared by exact position; gamecard/src/mapeo.c:66, 77 and 110 match by substring or prefix of the text. Coordinates and quantities are unbounded naturals printed in decimal.
- The text of a metadata file: BLOCKS, SIZE and OPEN are values, and writing one of them is one step. A handler that waits for a file tries again; TallGrass.FileSystem.ProcessNew and its siblings are one attempt each.
- Handlers.StepContents: says nothing about what a file reads as while its Catch has given back blocks and not yet written; nobody reads it then, as it is open.
- Sockets: a receive gets all its bytes or fails, and a send that is accepted arrives whole.
- Serialization.Serialize: one method for the five serializers, which differ in what follows the name; a NEW, APPEARED or CATCH has one coordinate, as every constructor and receiver makes them.
- The mutex per subscriber (`lock_subscriber`) orders sends on one socket; nothing proved here needs it.
- Registering a subscriber is one step; the code looks for it and adds it under two separate locks.
- Subscriptions.Broker.NewSuscription: is one replay's code from beginning to end. Several replays under the readers' lock are interleaved in Replays, where their sends and acknowledgements are, and in Runs, where their clock and access times are (TickOp and TouchOp); no theorem has both at once.
- Subscriptions.Broker.SendToSubscribers: the threads of a publication are one after the other; Replays lets them finish in any order.
- Logging, configuration, signals, and all of gameboy.
