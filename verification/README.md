# noDare-DB: model and proofs

noDare-DB keeps string keys and values in memory. A database is a fixed number of shards; the shard of
a key is chosen by a small streaming hash, and each shard is a dictionary of two chained hash tables
that grows by moving one bucket at a time from the old table to one of twice the size. Clients reach the
database through a line protocol over TCP. This project models these parts and proves what they promise.

| file | what it models |
|---|---|
| `Bits.dfy`, `NextPower.dfy` | bit operations, powers of two, and the table size computed by the shift-and-or smear |
| `DictSpec.dfy` | the two-table dictionary on values: chains, expansion, incremental rehash, every operation and every invariant |
| `DictRefinement.dfy` | the dictionary refines a plain map, for any sequence of requests at any point of a rehash |
| `Dick.dfy` | the dictionary in memory: nodes relinked in place, bucket arrays, counters, tables overwritten and swapped |
| `PcasHash.dfy` | the streaming hasher with its four-byte buffer, its pool and its short forms |
| `Operations.dfy` | the sharded front: all shards together are one map |
| `Linearize.dfy` | any number of threads that call the database, one step at a time, with a lock a shard |
| `Protocol.dfy`, `Socket.dfy` | a session of the line protocol: as a step function on values, and as an object updated line by line |
| `ClientSpec.dfy`, `Client.dfy` | the client at the other end of the wire and the slice that registers its connections |
| `Escape.dfy` | escaping of line ends |
| `LoadRun.dfy` | the load client: goroutines that share connections, write and read back, and report to main over bounded channels |
| `LoadChecks.dfy` | what the load client reads back, and when a run of it comes to its end |

## How it fits together

The dictionary is proved in two layers. `DictSpec` describes what each operation does to two sequences of
chains, for an arbitrary placement of keys into buckets, and proves what every operation keeps. `Dick` is
the heap code in the shape of the original: each method rewrites nodes, arrays and counters and is tied
to its `DictSpec` counterpart by a ghost value `d`, so that everything proved about the values holds for
the heap. There the placement is the 64-bit hash under the size mask, for any hash function.

The central invariant is `DictSpec.Inv`. `Shape` says that each entry sits in the bucket of its hash, that no
key repeats within or across the tables, that `used` counts the entries, that the main buckets below the
cursor are empty and that the second table is empty when no rehash is pending. `Growth` bounds the number
of entries from both sides by the cursor: `size + 2 - rehashidx <= used0 + used1 <= size + rehashidx` during
a rehash. It is the growth bound that rules out an expansion that comes too late and a rehash left pending on
an empty dictionary, where the early exits of `get` and `del` would hide entries.

`Linearize`, `Protocol`, `ClientSpec` and `LoadRun` are state machines. Their main results speak about every
run: every interleaving of threads, every sequence of lines, every sequence of requests.

Where the code and what is written about it differ, the model follows the code:

- The hasher drops the byte that triggers a fold, so every fifth byte of a key has no influence on its
  shard (`pcas_hash/hasher.go:50-58`); see `PcasHash.FifthByteIgnored`.
- A comment lets BEL announce a further pair in SET mode (`server/socket.go:327`); the code keeps waiting
  for ETB. It ignores every other single byte and ends the session at any line of another length, so that a
  second pair is refused or, if key and value are single bytes, lost behind an ACK; see
  `Protocol.PairDecided`, `Protocol.SecondPairLost` and `Protocol.SeveralStored`.
- HTTP clients may store numbers, bools, arrays and objects (`server/ndb-server.go:103-111`); a GET over a
  session asserts that the value is a string (`server/socket.go:460`) and panics on them, with nothing to
  recover. A key that holds LF cannot be asked for and is harmless; see `ClientSpec.BytesPanicIff`.
- A value that holds LF, which HTTP clients may store too, leaves the client one reply behind for good; see
  `ClientSpec.GetExchange` and `ClientSpec.RunSettles`.
- DEL answers NUL for a key that was deleted and ACK for one that was not there, and the session never
  leaves DEL mode (`server/socket.go:506-536`); see `Protocol.DelAnswerInverted` and `Protocol.DelNeverLeaves`.
- A missing key is reported by the client as found (`client/clilib/client.go:325-339`); see
  `ClientSpec.MissingLooksFound`.
- Unescaping does not undo escaping for strings that hold a literal backslash-n or backslash-r
  (`client/clilib/client.go:493-520`), and keys that differ in this way only become one; see
  `Escape.EscapeRoundTrip` and `Escape.KeysCollide`.
- The final loop of the load client never ends for a negative number of items, and a failed connect keeps
  its slot, so that the run never completes (`client/main.go:118-123`, `client/main.go:346-357`). Nor does it
  end in the random mode, the default, when two random keys of a round are equal; and when two rounds draw
  one key with different values, a check reads the other round's value and ends the process
  (`client/main.go:314-317`); see `LoadChecks.Completes` and `LoadChecks.ClashNeverFinishes`.
- A DEL keeps its keys, so that a second ETB deletes them again; see `Protocol.DelRepeats`.

## Model
| member | source | states |
|---|---|---|
| NextPower.Compute | database/dick.go:448-462 | for every int64 the result is the least power of two that is at least 128 and the request, up to 2^62; above that it wraps to the least int64 |
| NextPower.Smeared | database/dick.go:454-461 | the six shift-and-or steps turn any positive 63-bit number into all ones below its top bit |
| Bits.MaskIsMod | database/dick.go:193 | masking a hash with a power of two minus one is the remainder modulo it |
| Dick.MaskedIsMod | database/dickTable.go:17-31 | in a table of any size that is ever allocated the masked hash is the remainder and a bucket in range |
| Dick.DoublingSplits | database/dick.go:286-291 | when a table doubles, the entries of bucket b land in bucket b or b + size |
| DictSpec.ExpandKeeps | database/dick.go:104-145 | expansion keeps the contents and the shape, gives an empty dictionary its first table of 128 buckets, and starts a rehash exactly at full load |
| DictSpec.MoveBucketKeeps | database/dick.go:282-305 | moving the bucket under the cursor keeps the map, the number of entries and every part of the shape, with both tables half way |
| DictSpec.SkipKeeps | database/dick.go:274-280 | while an entry is left in the main table, stepping over an empty bucket never leaves the table |
| DictSpec.RehashKeeps | database/dick.go:265-307 | a rehash call with any numbers of buckets and visits keeps the map and the count, and either swaps to a table of twice the size or advances the cursor inside the main table |
| DictSpec.RehashStepKeeps | database/dick.go:256-258 | the single step: same contents, and the cursor moves on or the doubled table takes over |
| DictSpec.TargetSizeStable | database/dick.go:226-233 | the table that receives a new entry keeps its size across the rehash step, even when the step swaps the tables |
| DictSpec.InsertKeeps | database/dick.go:235-247 | linking an absent key extends the map by it alone and keeps the shape |
| DictSpec.AssignKeeps | database/operations.go:46-49 | overwriting the value of the entry found updates the map at that key alone |
| DictSpec.UnlinkKeeps | database/dick.go:369-390 | unlinking from the first table that holds the key removes it from both and touches no other key |
| DictRefinement.AddRefines | database/dick.go:219-250 | adding an absent key, with its expansion and rehash step, keeps every invariant and is the map update |
| DictRefinement.AssignRefines | database/operations.go:46-49 | the overwriting half of Set is the map update |
| DictRefinement.SetRefines | database/operations.go:40-53 | Set is the map update whatever stage the rehash is at |
| DictRefinement.DelRefines | database/dick.go:357-393 | Del succeeds exactly when the key is present and removes it completely |
| DictRefinement.StepRefines | database/operations.go:19-72 | each request gives the next state of a plain map and its reply: Get answers what is stored or nil, Set stores, Del removes and says whether there was something to remove |
| DictRefinement.StepKeeps | database/operations.go:19-72 | each request keeps the invariants, whatever the dictionary stores |
| DictRefinement.HistoryMap | database/operations.go:19-72 | after any requests a key is held, with that value, exactly if the last Set or Del of it is a Set of the value, or there was none and it was held before |
| DictRefinement.RunRefines | database/operations.go:19-72 | any sequence of Get, Set and Del on a dictionary that meets the invariants runs through, keeps them, and is answered, each request, by the last Set or Del of its key before it; what it then holds is what the history says |
| DictRefinement.NewRepresentsEmpty | database/dick.go:69-75 | a new shard meets the invariants and is the empty map |
| DictRefinement.GrowthConsequences | database/dick.go:104-145 | expansion is due exactly at full load, a pending rehash has entries and ends below full load, and none is pending on an empty dictionary, so the early exits hide nothing |
| DictRefinement.RehashEnds | database/dick.go:265-307 | any rehash ends within as many steps as the main table has buckets, at the doubled size, with the same contents |
| DictRefinement.StepInspects | database/dick.go:265-307 | one rehash step inspects at most ten buckets: the cursor moves on by one to ten, or the rehash ends with all entries that were left found in one of the next ten buckets |
| DictRefinement.StepExact | database/dick.go:265-307 | with entries left, a step moves the first filled bucket if it is among the next ten, and otherwise moves the cursor by ten |
| Dick.DickEntry.constructor | database/DickEntry.go:17-23 | a node with the given key and value, linked to nothing |
| Dick.DickTable.constructor | database/dickTable.go:17-31 | a table with that many nil buckets, the matching mask and no entries |
| Dick.DickTable.Link | database/dick.go:241-246 | the node becomes the head of its bucket's chain; every other chain stays as it was |
| Dick.DickTable.Unlink | database/dick.go:376-386 | exactly the found node leaves its chain, at the head or after its predecessor, and the count goes down |
| Dick.DickTable.LinkedOnce | database/dick.go:241-246 | chains are acyclic and disjoint: a linked node stands at one place of one bucket |
| Dick.SubDICK.AllDetachable | database/dick.go:357-393 | every linked node is linked once and in one of the two tables only |
| Dick.SubDICK.constructor | database/dick.go:69-75 | an empty shard that meets every invariant, for any hash function |
| Dick.SubDICK.Expand | database/dick.go:104-129 | the heap after expand is the specified expansion, and the same two table objects stay in use |
| Dick.SubDICK.ExpandIfNeeded | database/dick.go:134-145 | likewise for the test that decides on an expansion |
| Dick.SubDICK.MoveAll | database/dick.go:284-298 | the loop that relinks a chain node by node yields the doubled table with all its entries pushed, and shares no node with what stays |
| Dick.SubDICK.SkipEmpty | database/dick.go:274-280 | the loop over empty buckets stops at a filled one or at the end of its allowance, without leaving the table |
| Dick.SubDICK.Rehash | database/dick.go:265-307 | the nested loops and the swap do exactly the specified rehash with ten visits a bucket |
| Dick.SubDICK.KeyIndex | database/dick.go:182-209 | minus one exactly for a present key, else its bucket in the table that takes new entries; no zero-length table is indexed |
| Dick.SubDICK.SlotStays | database/dick.go:219-235 | the bucket computed before the rehash step is the right one after it |
| Dick.SubDICK.Add | database/dick.go:219-250 | an error exactly for a present key; otherwise the heap holds the specified dictionary after add |
| Dick.SubDICK.Get | database/dick.go:324-348 | the node that carries the key, from the main table first, or nil |
| Dick.SubDICK.EntryOfLookup | database/dick.go:324-348 | that node is nil exactly when the key is absent, and holds the value stored for it |
| Dick.SubDICK.Del | database/dick.go:357-393 | the heap after del is the specified dictionary, and a node comes back exactly when one was unlinked |
| Dick.SubDICK.Store | database/operations.go:46-49 | writing a value into the node found is the specified assignment and changes no other entry |
| PcasHash.Hash.Write | pcas_hash/hasher.go:45-62 | the state depends on the concatenation of all writes alone: the index is the length modulo five and the hash is the fold of the complete groups |
| PcasHash.Hash.NextByte | pcas_hash/hasher.go:45-62 | how the closed form grows by one byte, in the buffer or through a fold |
| PcasHash.Hash.Value | pcas_hash/hasher.go:83-107 | the hash of everything written; the state stays |
| PcasHash.Hash.Reset | pcas_hash/hasher.go:110-116 | whatever was written before and whatever bytes stay in the buffer, the hasher is a fresh one |
| PcasHash.Pool.New | pcas_hash/hasher.go:31-35 | a recycled hasher behaves like a new one |
| PcasHash.ByteSlice | pcas_hash/hash.go:284-302 | the direct forms for up to four bytes and the streamed one give one and the same hash |
| PcasHash.StringSlice | pcas_hash/hash.go:265-276 | the hash of a list of strings is the hash of their concatenation |
| PcasHash.CombineIs | pcas_hash/hash.go:18-20 | the combination is h1 exclusive-or the wrapping sum of h2, 0x9e3779b9, 64 times h1 and a quarter of h1 |
| PcasHash.StringHashIs | pcas_hash/hasher.go:45-107 | the hash is the fold of the words of the string: for each group of five bytes the number of its first four to the base 256, least significant first, and that of what is left over |
| PcasHash.ShortHash | pcas_hash/hash.go:284-302 | strings of up to five bytes hash to the number of their first four |
| PcasHash.TwoHashes | pcas_hash/hash.go:284-302 | the hashes of `abc` and of `abcdef`, which needs a fold |
| PcasHash.CombineInjective | pcas_hash/hash.go:18-20 | in wrapping 32-bit arithmetic, folding different words into one hash gives different hashes |
| PcasHash.FifthByteIgnored | pcas_hash/hasher.go:45-62 | strings that agree except at positions 4, 9, 14 and so on hash alike |
| PcasHash.TailDecides | pcas_hash/hash.go:284-302 | strings of one length that agree on the complete groups hash alike if and only if their tails agree |
| Operations.Shard | database/operations.go:20 | the index, computed by the byte hash with its direct and pooled forms, is below the number of shards and differs from the hash of the key by a multiple of it |
| Operations.ShardIsCongruent | database/operations.go:20 | it is the only shard that does |
| Operations.OneByteShard | database/operations.go:20 | a key of one byte goes to the shard of that number |
| Operations.RestrictSet | database/operations.go:40-45 | an update changes the part of its key's shard and no other |
| Operations.RestrictDel | database/operations.go:61-66 | a deletion changes the part of its key's shard and no other |
| Operations.KeysCommute | database/operations.go:19-72 | requests on different keys, so all requests on different shards, commute in their effect and in their replies |
| Operations.XDICK.constructor | database/dick.go:59-82 | separate empty shards that together are the empty map |
| Operations.XDICK.Get | database/operations.go:19-32 | the value the whole database stores for the key, nil if none; the reply of one plain map |
| Operations.XDICK.SetShard | database/operations.go:40-53 | Set on one shard never fails and leaves every other shard's dictionary and part of the map alone |
| Operations.XDICK.Set | database/operations.go:40-53 | the update of the one map that all shards together are; no error |
| Operations.XDICK.DelShard | database/operations.go:61-72 | Del on one shard leaves every other shard alone |
| Operations.XDICK.Del | database/operations.go:61-72 | an error exactly for an absent key; otherwise the key leaves the map |
| Linearize.BodyRefines | database/operations.go:43-51 | under the lock, the halves of each body do what the operation does to the shard's map, with its reply |
| Linearize.StepKeeps | database/operations.go:19-72 | every step of every thread keeps the lock, data, order and history invariants |
| Linearize.RunInvariant | database/operations.go:19-72 | they hold in every state of every interleaving |
| Linearize.Linearizable | database/operations.go:19-72 | every interleaving is one sequential history in which each request is answered by the last Set or Del of its key before it, with every finished call once and with its reply, in real-time order, and each shard's calls in lock order |
| Linearize.ShardsPartitionMap | database/operations.go:20-24 | in every reachable state shard i holds a key, with a value, exactly if the last Set or Del of the key sets it to that value and the hash of the key is congruent to i |
| Linearize.MutualExclusion | database/operations.go:22-23 | two threads are never inside the same shard |
| Linearize.RunsCommute | database/operations.go:19-72 | bodies that run on different shards can run in either order: same shards, same replies, and histories that leave the same map |
| Linearize.NoDeadlock | database/operations.go:22-23 | while a call is in progress, some call can make a step |
| Protocol.StepConsistent | server/socket.go:252-677 | every line keeps the session invariant, and panics if and only if it ends a GET of a key that holds neither nil nor a string; no other dereference, map write or assertion of the loop can fail |
| Protocol.NeverPanics | server/socket.go:252-677 | on a database that holds strings and nil only, under every key that a line can name, no sequence of lines makes the server panic, and the database stays such |
| Protocol.PanicsIff | server/socket.go:410-471 | some lines can make the server panic if and only if a key within the limit and without LF holds a value that is neither nil nor a string, as HTTP clients may store (server/ndb-server.go:103-111) |
| Protocol.PanicsOnNumber | server/socket.go:410-471 | the input: a GET of one such key panics before it answers |
| ClientSpec.BytesPanicIff | server/socket.go:252-259 | the same over every stream of bytes on a connection: a key that holds LF can never be asked for |
| ClientSpec.ReadIsLineSafe | server/socket.go:254 | a line that has been read holds no LF |
| Protocol.HeaderDecides | server/socket.go:539-674 | a header that is too short or without the bar gets CAN and ends the session; one with another command, or with a count that is not a positive decimal number of 64 bits, ends it in silence; any other begins its command |
| Protocol.CountParsed | utils/utils.go:45-53 | the count is taken exactly if up to the end or a further bar stand digits, not all zeros, of a number of at most 2^63 - 1 |
| Protocol.KeyTooLong | server/socket.go:332-339 | a key of more than 2^30 bytes gets CAN and ends the session, any other line is taken as the key |
| Protocol.ValueTooLong | server/socket.go:341-357 | likewise for a value |
| Protocol.GetFraming | server/socket.go:410-477 | a GET of any keys within the limit, even BEL and ETB themselves, gives one line a key in order, the stored value or a lone NUL; it answers them all, counts hits and misses and ends ready with no keys kept if and only if no key holds a value that is neither nil nor a string, else it panics at the first such key; the database is left alone |
| Protocol.KeyWaits | server/socket.go:432-476 | after a key, in GET and DEL mode, single bytes other than BEL and ETB are ignored, however many come |
| Protocol.GetDecided | server/socket.go:410-477 | after the keys of a GET and ignored bytes, a line of another length than 1 gets CAN and ends the session with the database untouched, BEL asks for a further key, ETB has the keys answered |
| Protocol.DelDecided | server/socket.go:479-537 | the same for DEL |
| Protocol.SetFraming | server/socket.go:321-401 | a SET of one pair stores exactly that pair, answers ACK once and ends ready with nothing kept |
| Protocol.WaitsForEnd | server/socket.go:359-408 | after a pair every single-byte line but ETB is ignored, however many come, so that the first other line decides |
| Protocol.PairDecided | server/socket.go:359-408 | that line stores the first pair alone with ACK if it is ETB, and ends the session with CAN and nothing stored otherwise |
| Protocol.SecondPairRefused | server/socket.go:359-408 | a second key after BEL ends the session with CAN and nothing stored if and only if it is not one byte long, and stores the first pair with ACK if and only if it is ETB; any other byte is ignored |
| Protocol.SecondPairLost | server/socket.go:359-408 | the input: a second pair of single bytes is lost although ACK comes back |
| Protocol.SeveralAcknowledged | server/socket.go:321-408 | a SET of several pairs is acknowledged once, and the session ready, if and only if the first pair is within the limits and every later key and value is a single byte other than ETB; only the first pair is then stored |
| Protocol.SeveralStored | server/socket.go:321-408 | it is acknowledged and stores all its pairs if and only if, besides, the database holds every later pair already |
| Protocol.DelNeverLeaves | server/socket.go:479-537 | a session in DEL mode stays in it until it ends |
| Protocol.DelAnswerInverted | server/socket.go:479-537 | DEL of any keys deletes them all and answers each in order, ACK exactly where there was nothing to delete; the session stays in DEL mode with the keys kept |
| Protocol.DelRepeats | server/socket.go:500-537 | a further ETB deletes and answers all the kept keys again, whatever the database then holds |
| Socket.Server.constructor | server/socket.go:235-250 | the session flags a connection starts with, over any database |
| Socket.Server.Line | server/socket.go:316-676 | the flags, the database and the reply after a line are those of the protocol step |
| Socket.Server.HeaderLine | server/socket.go:539-674 | likewise for a line in no mode |
| Socket.Server.StoreKeys | server/socket.go:371-389 | the loop sets every collected pair in order and moves the counters |
| Socket.Server.AnswerKeys | server/socket.go:439-470 | the loop answers every collected key in order and counts the hits, up to the first value that fails the type assertion |
| Socket.Server.DeleteKeys | server/socket.go:507-532 | the loop deletes every collected key in order and answers each |
| Socket.Server.Serve | server/socket.go:252-259 | the read loop over any bytes that have arrived, split into lines |
| ClientSpec.ReadLineOf | server/socket.go:254 | a line without LF, sent with CRLF, is read back as it was |
| ClientSpec.ReadLineBare | server/socket.go:254 | a bare LF ends a line too, and without LF there is no line yet |
| ClientSpec.ServeLines | server/socket.go:252-677 | lines sent as bytes act as those lines |
| ClientSpec.RequestBytes | client/clilib/client.go:278 | a SET and a GET request byte by byte |
| ClientSpec.SetExchange | client/clilib/client.go:267-299 | SOCK_Set on a settled connection stores the pair, returns ACK and settles again |
| ClientSpec.GetExchange | client/clilib/client.go:301-341 | SOCK_Get on a settled connection changes nothing in the database; the connection settles again if and only if the key holds no value of another type and the reply holds no LF, and then the client has the stored value or a lone NUL |
| ClientSpec.RunSettles | client/clilib/client.go:267-341 | any run of SOCK_Set and SOCK_Get leaves the connection settled if and only if every key it asks for can be answered with one line when it is asked for; the database then holds exactly what the run has set |
| ClientSpec.SetStaysUnsettled | client/clilib/client.go:267-299 | a client that has fallen behind its replies, or whose server died, does not recover by SOCK_Set |
| ClientSpec.GetStaysUnsettled | client/clilib/client.go:301-341 | nor by SOCK_Get |
| ClientSpec.RunKeeps | client/clilib/client.go:267-341 | a run leaves alone every key it does not set |
| ClientSpec.RoundTrip | client/clilib/client.go:267-341 | after SOCK_Set(k, v) and any run that sets other keys only, the connection has stayed settled if and only if the run asked for nothing that cannot be answered with one line; then SOCK_Get(k) reports found and v if and only if v is not empty and, for a caller that passes `nfk`, is not a NUL followed by more; in that case `nfk` gets what follows |
| ClientSpec.MissingLooksFound | client/clilib/client.go:325-339 | a missing key is reported as found with a lone NUL, like a key that stores one |
| SocketClient.Client.Roundtrip | client/clilib/client.go:278-288 | a request and its reply line over a live server |
| SocketClient.Client.SOCK_Set | client/clilib/client.go:267-299 | the connection, the database and the result are those of the specified exchange |
| SocketClient.Client.SOCK_Get | client/clilib/client.go:301-341 | likewise, with or without an `nfk` pointer, and with the out-pointers left alone by an error |
| SocketClient.CliHandler.Register | client/clilib/client.go:124-134 | the client gets the next id and its slot, and no registered client is lost or moved |
| SocketClient.CliHandler.ExpandSlice | client/clilib/client.go:464-485 | when the slots are used up the slice doubles, with every client at its old id and room for the new one |
| Escape.EscapedIsLineSafe | client/clilib/client.go:493-515 | an escaped string holds neither CR nor LF |
| Escape.EscapeHead | client/clilib/client.go:492-515 | escaping character by character: LF becomes a backslash and an n, CR a backslash and an r, every other character stays |
| Escape.UnmaskMask | client/clilib/client.go:502-520 | undoing one replacement gives what undoing it on the original string gives |
| Escape.MaskUnmaskCommute | client/clilib/client.go:492-520 | replacing one line end does not interfere with undoing the other |
| Escape.EscapeUnEscape | client/clilib/client.go:492-500 | escaping an unescaped string gives what escaping the string gives |
| Escape.EscapeRoundTrip | client/clilib/client.go:492-500 | unescaping gives the string back if and only if it holds no literal backslash-n or backslash-r |
| Escape.KeysCollide | client/clilib/client.go:492-500 | two raw keys share one stored key if and only if they unescape to the same string |
| Escape.KeysApart | client/clilib/client.go:492-500 | keys without literal backslash-n and backslash-r never collide, while LF and backslash-n do |
| Escape.EscapedRoundTrip | client/clilib/client.go:487-520 | with escaping, what was set comes back over the wire unchanged if and only if it holds no literal backslash-n or backslash-r, is not empty and, for a caller that passes `nfk`, is not a NUL followed by more |
| LoadRun.StepKeeps | client/main.go:96-357 | every step of every goroutine keeps the invariants on slots, connections, signals and sums |
| LoadRun.RunKeeps | client/main.go:96-357 | they hold in every state of every interleaving |
| LoadRun.Safety | client/main.go:109-174 | connections existing or being opened never exceed `parallel`, each is held by one worker or sits once in the pool, none is lost, and no send ever blocks |
| LoadRun.ChecksFollowInserts | client/main.go:182-203 | once a check worker exists, every insert worker has made all its writes |
| LoadRun.Descends | client/main.go:96-357 | every step of every goroutine lowers one potential |
| LoadRun.RunsEnd | client/main.go:96-357 | no run goes on for ever: an explicit bound on the number of steps, whatever the interleaving |
| LoadChecks.StepData | client/main.go:124-174 | every step keeps the database and the testmaps in step: what a round has set is stored as some round has set it last, every testmap is on its way or captured, and all that has been read was right |
| LoadChecks.RunData | client/main.go:96-357 | this holds in every state of every interleaving |
| LoadChecks.UpcountingNeverAborts | client/main.go:220-242 | in the upcounting mode no value is ever read back wrong, whatever the database held before |
| LoadChecks.AbortMeansClash | client/main.go:298-319 | a wrong read ends the process only if two captured maps have different values under one key |
| LoadChecks.ClashNeverFinishes | client/main.go:298-319 | two rounds that have drawn one key with different values keep main from finishing, even if each has drawn enough keys |
| LoadChecks.RunHalts | client/main.go:96-357 | every run can be continued until it halts |
| LoadChecks.Halts | client/main.go:346-357 | without a failed connect or a wrong read a run halts only when main is through, or has had every result and their sum does not fit |
| LoadChecks.AllSummed | client/main.go:346-357 | once main has every result it has summed exactly what the check workers had to check |
| LoadChecks.Completes | client/main.go:196-357 | a halted run is complete if and only if there were rounds and slots, no connect failed, the sum is one that items times rounds can be, no captured map lost an item to two equal keys, and no two captured maps have different values under one key; the upcounting mode rules the last two out. With a positive product that does not wrap around, every round's result is then counted |
| LoadChecks.NegativeNeverCompletes | client/main.go:346-357 | the input: with a negative number of items, and a product with the rounds that does not wrap around to 0, there is a run that halts unfinished |
| LoadChecks.FailedConnectHangs | client/main.go:109-123 | the input: for any rounds and slots there is a run that one failed connect leaves halted and unfinished |

## Left out

- Operations.XDICK.Set: for databases of up to 2^61 entries, more than any memory holds; beyond that the doubled size of a full table is not an int64.
- Operations.XDICK.SetShard: for shards of up to 2^61 entries, for the same reason.
- Operations.XDICK.SetOn: the same limit.
- Operations.SetIn: the same limit.
- Socket.Server.Line: the same limit, for the entries there are with the keys collected so far.
- Socket.Server.SetModeLine: the same limit.
- Socket.Server.EndPair: the same limit.
- Socket.Server.StoreKeys: the same limit.
- Socket.Server.Serve: the same limit, with the bytes to come; on the unix socket the two profiling commands differ, only TCP is modelled; I/O errors end a session early and are not modelled.
- SocketClient.Client.Roundtrip: the same limit.
- SocketClient.Client.SOCK_Set: the same limit.
- SocketClient.Client.SOCK_Get: the same limit.
- Dick.SubDICK.Add: for `used` up to 2^61, so that its double is a table size an int64 holds.
- Dick.SubDICK.KeyIndex: the same limit.
- Dick.SubDICK.ExpandIfNeeded: the same limit.
- Dick.SubDICK.Expand: for requests up to 2^62, the largest table size an int64 holds; `NextPower.Compute` covers the rest.
- Operations.XDICK.constructor: for at least one shard; with none the source divides by zero, and its configuration never asks for none.
- Dick.SubDICK.Index: SipHash, FNV and the random salt are one arbitrary function from keys to 64-bit hashes, fixed for the run.
- PcasHash.Pool.New: which hasher the pool hands out is an arbitrary choice; a pool shared by goroutines is not modelled.
- LoadRun.RunsEnd: connects succeed or fail at once, and no other I/O error occurs; one would end the whole process.
- LoadRun.InsertItem: a request is one step on the map that the database stores, which `Linearize.Linearizable` and `ClientSpec.RoundTrip` justify; nobody else uses the database during the run. The text of an upcounting key is not spelled out: it is the pair of its two numbers, which the source prints one after the other. HTTP mode is not modelled.
- LoadChecks.Completes: in the random mode for `items * rounds` up to 2^63 - 1; beyond, a partial sum could fit by wrapping around. A number of items of 2^63 - 1, at which the loop counter itself would wrap around, and negative numbers of rounds or slots, at which the source panics before it starts, are not modelled.
- LoadChecks.NegativeNeverCompletes: for -2^63 items and two rounds the product wraps around to 0 and a run can complete; `LoadChecks.Attainable` is the exact condition.
- Operations.Shard: the hasher pool of the process is one that has nothing to recycle; `PcasHash.Pool.New` says that recycling makes no difference.
- Linearize.Linearizable: the lock hands itself to any waiting thread; fairness is not modelled, and neither is the Go memory model, since every shard is accessed under its lock.
- Protocol.GetFraming: the number of keys in the header is only parsed and counted down, as in the code, so nothing is claimed about it; other clients may act between a session's lines, which is why each command is stated over the map it finds.
- Protocol.DelAnswerInverted: the counters of deletions are not part of the session flags.
- The welcome banner, which a client reads while connecting; the model of a connection starts after it.
- Hash.Sum, which hashes its argument although it is described as appending, and the other slice hashes, which only fold a value a slot.
- nil values stored by a caller of the package read as absent, as in the code.
- The HTTP handlers (only what they may store matters here), TLS, the access list, configuration, logging, profiling, the disabled watchdog and shutdown.
