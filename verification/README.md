# A verified model of the hash table, the intrusive lists and the select-loop server

Dafny 4.11 model of three parts of the repository, with proofs. `dafny verify dfyconfig.toml` checks
everything. Source lines below are relative to the repository root.

**The chained hash table (`pet_hashtable.c`).** `HashTables.HashTable` is the C structure: an array of
bucket heads, entries linked through `next`, a 32-bit count, a load limit and an index into the list
of primes. Ghost fields hold the sequence of items that the pointers of every bucket spell, and a log
of every key, value and entry handed to a free function. `TableModel` says on plain values what each
operation does; every method of the class is proved to take the class from the state before to exactly
that state (`State() == ...`) on the heap, relinking in place. All results about runs are then proved
of the value model. `Scripts.Execute` carries out any script of calls on the heap and says that the
table goes through a run of exactly these calls, and that the caller gets the answers of that run;
`Sessions.Session` puts this together with the results about runs.

* `Chains`: entries, the cells that hold a link (`entry_ptr`), linking and unlinking.
* `Rehash`, `Expansion`: the two growth plans, step by step, on the heap, and what they amount to.
* `HashIterator`, `Walks`: iterators, the walk that removes while advancing, search-then-remove.
* `Runs`, `Calls`: runs of the value model, and the calls of a client that they carry out.
* `Order`, `Classes`, `Retrieval`, `Multimap`: every run is a run of a multimap, and how duplicate keys are
  retrieved; `Refinement`: the run of a client that removes before it inserts is one of a finite map.
* `Scripts`, `Sessions`: calls carried out on the heap, and what the client sees of a table from its
  creation to its destruction. `Duplicates`: a table whose growth does not reverse its duplicates.
* `LoadFactor`, `Primes`: load limits over runs and the amortised cost of growing.
* `Ownership`: every key, value and entry is accounted for.
* `HashFunctions`: the multiplicative hashes, and the mixing steps applied to them.

**The intrusive lists (`pet_list.h`).** `Rings` and `HLists` keep the nodes on the heap with the same
four or two pointer writes per operation. Each operation is proved to turn a ring (list) that spells
one sequence of nodes into one that spells the result of the sequence operation.

**The server (`http_server2.c`).** `Server` is the connection table and the endless `select` loop,
with the answers of `select` and `accept` as inputs, against the set of descriptors that the process has
open. `Transfer` has the loops that receive a request and send a file, against a peer and a file that
move any number of bytes per call.

## Modelling decisions

* `uintptr_t` is 64 bits wide and `uint32_t` 32 bits; both wrap. So does `entry_count`: it is the
  number of linked entries modulo two to the 32 in every run, and equal to it exactly while
  there are fewer than two to the 32 entries (`LoadFactor.CountExact`).
* `hash_fn` and `eq_fn` are pure functions supplied by the caller. Nothing is asked of them for
  memory safety, well-formedness, counts, order of traversal or ownership. The results about classes
  of equal keys ask that equality is an equivalence and that equal keys hash alike
  (`Classes.Agreeing` of the two functions, `Classes.Congruent` of the table made from them); the functions of
  `hashtable_example.c` meet that (`Classes.ExampleCongruent`).
* Whether `calloc` and `realloc` succeed is an input of each call; runs quantify over all answers.
* `pet_hashtable.c:274` passes `memset` the contents of a slot where its address is meant, and a number
  of slots where a number of bytes is meant. The model clears the new slots, as intended.
* `pet_hashtable.h:94-98` says that a change of size reverses the order of duplicates. The code does so
  with a freshly allocated table; in the in-place plan a class of equal keys is reversed exactly
  if its bucket changes (`Classes.ExpandClass`). `Duplicates.Grow` reaches a table of 36 duplicates
  from creation that has grown in place and keeps their order. The model follows the code.
* `pet_htable_remove` returns the value and does not free it, as `pet_hashtable.h:112-114` says; the
  comment at `hashtable_example.c:92-95` says otherwise.
* A list pointer that is poisoned after a deletion is null here, and a poisoned `pprev` is
  `HLists.PoisonCell`. `pprev` is the name of a cell: a head's `first` or an entry's `next`.
* A failed `accept` skips the rest of a turn of the server loop, readable connections included, as the
  `continue` at `http_server2.c:247` does.
* A request with a NUL byte in front of the empty line is never recognised as complete, because the scan is
  `strstr`; `Http.ScanExact` says exactly when the scan succeeds, `Http.NulHidesEnd` gives a request.
* The response header is sent by one call of `send` whose short count is not noticed, and the file
  size is an `int`. `Transfer.HandleConnection` and `Transfer.ResponseIsHonest` say that a successful
  response is whole exactly if that one call may move as many bytes as the header has, and that its
  Content-length (section 10.4 of RFC 1945) is the length of the body exactly below two to the 31 bytes.
  `Transfer.SplitHeader` is a connection that is served with success and loses most of its header.

## Model

| member | source | states |
|---|---|---|
| Primes.LimitIsCeiling | pet_hashtable.c:161-171 | each load limit is 65 hundredths of the listed length, rounded up |
| Primes.PrimesOdd | pet_hashtable.c:161-171 | every listed length is odd, and is the only odd number that its load limit is 65 hundredths of |
| Primes.ScheduleGrows | pet_hashtable.c:161-171 | listed lengths grow, and each limit is more than one and a half times the one before |
| Primes.PrimesIncrease | pet_hashtable.c:191-197 | the list is sorted, so the first length above the minimum is the smallest |
| HashFunctions.MixAdd9 | pet_hashtable.c:73 | the shift, complement and addition are minus 511 times the word, minus one |
| HashFunctions.MixXor14 | pet_hashtable.c:74 | the or of two shifts is a rotation by 14 |
| HashFunctions.MixAdd4 | pet_hashtable.c:75 | the shift and addition multiply by 17 |
| HashFunctions.MixXor10 | pet_hashtable.c:76 | the or of two shifts is a rotation by 10 |
| HashFunctions.DoHashIs | pet_hashtable.c:66-79 | the whole mixing of any word: a multiplication and a rotation, twice |
| HashFunctions.DoHashValues | pet_hashtable.c:66-79 | its value at four arguments |
| HashFunctions.DoHashCollides | pet_hashtable.c:66-79 | the mixing is not injective: two different raw hashes with the same result |
| HashFunctions.HashU32Invertible | pet_hashtable.c:81-93 | multiplying the hash by a constant gives the low 32 bits of the argument back |
| HashFunctions.HashU32Congruent | pet_hashtable.c:85-93 | hashes are equal exactly for arguments that agree in their low 32 bits |
| HashFunctions.HashPtr | pet_hashtable.c:95-117 | the chain of shifts, additions and subtractions is the high half of the product with 0x9e37fffffffc0001 modulo two to the 64 |
| Chains.PushDistinct | pet_hashtable.c:336-337 | linking an unlinked entry keeps chains acyclic and disjoint and adds that entry only |
| Chains.UnlinkDistinct | pet_hashtable.c:473 | unlinking keeps chains acyclic and disjoint and takes that entry away only |
| Chains.MoveKeeps | pet_hashtable.c:287-289 | moving an entry to the head of another chain keeps the multiset of items |
| Chains.Detach | pet_hashtable.c:287 | writing through the cell that leads to an entry, head or link, spells the chains without it |
| Chains.Prepend | pet_hashtable.c:336-337 | the two writes spell the chains with the entry in front of one bucket |
| Chains.Store | pet_hashtable.c:361 | writing the value of one entry changes that item and no other |
| Rehash.DrainAt | pet_hashtable.c:249-257 | each new chain, at any point of the fresh-table plan: the old entries still to come that belong there, reversed, in front of what is there |
| Rehash.DrainIsFresh | pet_hashtable.c:249-257 | the whole fresh-table plan in closed form |
| Rehash.DrainKeeps | pet_hashtable.c:249-257 | the fresh-table plan loses, duplicates and alters no entry |
| Rehash.SettleAt | pet_hashtable.c:276-292 | each chain, from any point of the in-place plan, although moved entries land in buckets visited and not yet visited: reversed newcomers, then its own entries in order |
| Rehash.SettleIsInPlace | pet_hashtable.c:276-292 | the whole in-place plan in closed form |
| Rehash.SettleKeeps | pet_hashtable.c:276-292 | the in-place plan loses, duplicates and alters no entry |
| Rehash.MoveSettlesOne | pet_hashtable.c:286-290 | each move takes one entry off the number still to move, so none is moved twice |
| Rehash.MisplacedBound | pet_hashtable.c:276-292 | the in-place plan relinks at most every entry once |
| Expansion.MoveHead | pet_hashtable.c:251-255 | one turn of the draining loop, between two arrays that share out the entries |
| Expansion.DrainBucket | pet_hashtable.c:251-256 | the inner draining loop empties one old chain and does the corresponding part of the plan |
| Expansion.DrainTable | pet_hashtable.c:249-257 | on the heap the fresh-table plan gives the closed form and relinks every entry once |
| Expansion.Relocate | pet_hashtable.c:286-290 | one move of the in-place plan keeps cell and cursor in step, and the set of entries |
| Expansion.SettleNext | pet_hashtable.c:280-291 | one turn of the inner in-place loop passes an entry at home or moves any other, with cell, cursor and plan in step |
| Expansion.SettleBucket | pet_hashtable.c:278-291 | the inner in-place loop terminates and does the corresponding part of the plan |
| Expansion.SettleTable | pet_hashtable.c:276-292 | on the heap the in-place plan gives the closed form and relinks exactly the entries whose bucket changes |
| Expansion.Regrow | pet_hashtable.c:265-274 | the longer array holds the old heads and null in every new slot |
| TableModel.FreshKeeps | pet_hashtable.c:245-261 | the closed form of the fresh-table plan has the same items and disjoint chains |
| TableModel.InPlaceKeeps | pet_hashtable.c:262-293 | the closed form of the in-place plan has the same items and disjoint chains |
| TableModel.FreshSound | pet_hashtable.c:245-261 | after it every entry is in the bucket of its key's hash |
| TableModel.InPlaceSound | pet_hashtable.c:262-293 | after it every entry is in the bucket of its key's hash |
| TableModel.ExpandShaped | pet_hashtable.c:224-300 | expansion keeps the structural invariant and the items, whichever plan runs or if none does |
| TableModel.InsertWellFormed | pet_hashtable.c:308-340 | insertion keeps the invariant, and the count agrees even if it expands and then finds no memory |
| TableModel.RemoveAtWellFormed | pet_hashtable.c:473-481 | removal keeps the invariant with one entry fewer |
| TableModel.SetHitWellFormed | pet_hashtable.c:353-364 | storing a value keeps the invariant and the set of entries |
| TableModel.ConditionDecides | pet_hashtable.c:468-484 | for a key that is found: if the condition says no nothing changes and the answer is 0, otherwise that entry leaves and the answer is its value |
| HashTables.Create | pet_hashtable.c:175-222 | fails exactly for too large a minimum or without memory; otherwise the empty table with the smallest listed length above the minimum, the caller's equality and callbacks, and the caller's hash function mixed |
| HashTables.HashTable.constructor | pet_hashtable.c:205-221 | a valid empty table |
| HashTables.HashTable.TransferToFresh | pet_hashtable.c:245-261 | the fresh-table plan on the table's own array |
| HashTables.HashTable.TransferInPlace | pet_hashtable.c:262-293 | the in-place plan on the table's own array |
| HashTables.HashTable.Expand | pet_hashtable.c:224-300 | the new table for each answer of the allocator; after a failure the array and its slots, length, limit and prime index are as before |
| HashTables.HashTable.MakeRoom | pet_hashtable.c:315-321 | counts first and expands if that exceeds the limit; the table is intact while the count is one ahead |
| HashTables.HashTable.Link | pet_hashtable.c:330-337 | the filled-in entry is at the head of the bucket of its hash |
| HashTables.HashTable.Insert | pet_hashtable.c:308-340 | the whole new state and result, with and without memory for the longer table and for the entry |
| HashTables.HashTable.Locate | pet_hashtable.c:460-488 | the search stops at the first match of its bucket, with the cell that leads there, or at the end |
| HashTables.HashTable.Search | pet_hashtable.c:420-442 | the value of the first match, or 0 |
| HashTables.HashTable.Change | pet_hashtable.c:342-368 | the first match gets the value, and the value it had is freed if there is a callback; -1 and no change without a match |
| HashTables.HashTable.Inc | pet_hashtable.c:370-393 | the value of the first match grows modulo two to the 64; -1 and no change without one |
| HashTables.HashTable.Dec | pet_hashtable.c:395-417 | the value of the first match shrinks modulo two to the 64; -1 and no change without one |
| HashTables.HashTable.Drop | pet_hashtable.c:473-479 | unlinks one entry through its cell, counts it out and frees its key; its own link stays readable |
| HashTables.HashTable.CondRemove | pet_hashtable.c:445-497 | removes the first match and returns its value unless the condition refuses; then, and without a match, nothing changes |
| HashTables.HashTable.Count | pet_hashtable.c:302-306 | the number of linked entries modulo two to the 32 |
| HashTables.HashTable.FreeChain | pet_hashtable.c:510-526 | the inner loop frees every entry of one chain once, in order, as the callbacks allow |
| HashTables.HashTable.Destroy | pet_hashtable.c:500-531 | every remaining key, value and entry is freed once, in traversal order, as the callbacks allow |
| HashIterators.Iterator.constructor | pet_hashtable.c:535-570 | a new iterator stands nowhere |
| HashIterators.Iterator.Scan | pet_hashtable.c:603-610 | the next bucket that is not empty |
| HashIterators.Iterator.Advance | pet_hashtable.c:593-645 | where the iterator goes from an entry that is linked or has just been unlinked |
| HashIterators.Iterator.AdvanceFrom | pet_hashtable.c:593-645 | goes to the next entry in traversal order, with its true predecessor as parent; 0 exactly at the end |
| HashIterators.Iterator.Remove | pet_hashtable.c:653-685 | removes the entry it stands on, head or not, and stands on its successor with the parent repaired |
| HashIterators.Iterator.Search | pet_hashtable.c:687-723 | stands on the first match with its predecessor, or stays as it was |
| Walks.RemoveFound | pet_hashtable.c:653-723 | searching and removing with an iterator has the effect of remove on chains, count and logs, and ends on the successor in the same table; without a match the iterator stays as it was |
| Walks.RemoveOrAdvance | pet_hashtable.c:593-685 | removing or advancing at an entry: the new table and where the iterator stands in it |
| Walks.Advanced | pet_hashtable.c:653-685 | going past one entry of a walk, removed or not: what is visited and what is left |
| Walks.Landed | pet_hashtable.c:615-644 | the place after an entry is the next original entry, over any run of empty buckets |
| Walks.PurgeStep | pet_hashtable.c:593-685 | one turn of a walk that removes or advances |
| Walks.Purge | pet_hashtable.c:593-685 | the walk visits every original entry once in order, leaves every chain with the others in their order, counts and logs exactly those for which the predicate holds, and is a run of one removal for each of them |
| Walks.LeftExactly | pet_hashtable.c:593-685 | an entry is left exactly if the predicate does not hold of it, and goes exactly if it does |
| Order.OneChain | pet_hashtable.c:148-153 | all entries with one hash are in one chain |
| Order.FreshReverses | pet_hashtable.c:246-257 | a fresh table reverses the order of the entries with the same hash |
| Order.InPlaceReversesMovers | pet_hashtable.c:276-292 | the in-place plan reverses it exactly if the bucket changes, and keeps it otherwise |
| Classes.ConfiguredCongruent | pet_hashtable.c:66-79 | if the caller's functions agree with each other, the table's do after mixing |
| Classes.ExampleCongruent | hashtable_example.c:33-38 | the example's equality and hash are an equivalence with equal hashes for equal keys |
| Classes.SearchIsScan | pet_hashtable.c:420-442 | a search finds the first entry of a scan of the whole table by key equality alone, and fails exactly if the scan does |
| Classes.NullMeansAbsent | pet_hashtable.h:108-110 | if no stored value is zero, a search answers 0 exactly if no entry has an equal key |
| Classes.ExpandClass | pet_hashtable.h:94-98 | what an expansion does to the retrieval order of duplicates, for every answer of the allocator |
| Classes.PushClass | pet_hashtable.c:336-337 | a new entry comes first in its own class and leaves the others |
| Classes.ReplaceClass | pet_hashtable.c:361 | replacing or removing one entry touches its class at its place and no other class |
| Classes.HitIsFirst | pet_hashtable.c:465-468 | the entry found is the first of its class, whichever equal key is asked for |
| Runs.StepWellFormed | pet_hashtable.c:308-685 | every operation, refused or failed ones included, keeps the invariant |
| Runs.RunWellFormed | pet_hashtable.c:308-685 | so does every run |
| Runs.RunsJoin | pet_hashtable.c:308-685 | a run continued by another one, such as a script by a walk, is a run |
| Retrieval.StepClass | pet_hashtable.c:308-685 | the effect of each operation on the list of entries of every class, duplicates included |
| Retrieval.RemoveUndoesInsert | pet_hashtable.h:88-101 | retrieval is last in, first out: a search after an insertion finds the new value, and removing the key restores every class and the count up to the reversal by an expansion |
| Calls.FirstMatch | pet_hashtable.c:705-716 | an iterator that searched for a key stands on the first entry of its class in the bucket |
| Calls.EveryRunIsTold | pet_hashtable.c:308-723 | every run of the value model carries out some sequence of calls |
| Calls.ToldAt | pet_hashtable.c:308-723 | in a run that carries out calls, each step is what its call comes to in the state before it, with its answer |
| Multimaps.StepShown | pet_hashtable.c:308-685 | each step does to the table what its call does to a multimap that knows no buckets, chains or entries, with the same answer |
| Multimaps.RunShown | pet_hashtable.h:88-101 | every run, with duplicates, expansions and allocation failures anywhere, is a run of that multimap: the same pairs for every key in the same order |
| Multimaps.AnswersShown | pet_hashtable.c:308-685 | and every answer of the run is the multimap's |
| Refinement.MultiRefines | pet_hashtable.h:98 | a multimap with at most one pair for each key does what a finite map does, unless a present key is inserted |
| Refinement.StepRefines | pet_hashtable.c:308-685 | without duplicates each operation has the effect and the answer of a finite map's |
| Refinement.RunRefines | pet_hashtable.h:88-101 | every run whose calls remove before they insert, with expansions and allocation failures anywhere, is a run of a finite map |
| Refinement.AnswersRefine | pet_hashtable.h:88-101 | and each answer of it is the one that the finite map gives after the calls before |
| Duplicates.Overfilled | pet_hashtable.h:94-98 | the insertion that exceeds the first limit reverses 35 duplicates with a fresh table and does not in place |
| Duplicates.Grow | pet_hashtable.h:94-98 | a table on the heap that goes from creation at the first length through these insertions, has grown once and retrieves its duplicates so |
| LoadFactor.LimitSumBound | pet_hashtable.c:167-171 | the limits up to any one of them add up to at most three times that one |
| LoadFactor.ExpansionCost | pet_hashtable.c:224-300 | an expansion takes the next length and relinks at most every entry once |
| LoadFactor.RelinkedExactly | pet_hashtable.c:245-293 | it relinks every entry into a fresh table, in place exactly the entries whose bucket changes, and none if it fails |
| LoadFactor.ExpandsWhenFull | pet_hashtable.c:315-321 | within the limit an insertion expands exactly if there are as many entries as the limit |
| LoadFactor.RunWithinLoad | pet_hashtable.c:315-321 | if table allocations succeed every run stays within the limit of its length until the last one is reached |
| LoadFactor.IndexStep | pet_hashtable.c:236-241 | a step leaves the prime index or raises it by one, and only an insertion raises it |
| LoadFactor.IndexGrows | pet_hashtable.c:236-241 | over every run the prime index never falls, so each one is left at most once |
| LoadFactor.CountExact | pet_hashtable.c:302-306 | in every run the count is the number of entries exactly below two to the 32, and with fewer insertions than that in any case |
| LoadFactor.AmortisedGrowth | pet_hashtable.c:224-321 | all expansions of such a run relink at most three entries for each insertion |
| Ownership.StepBalanced | pet_hashtable.c:308-685 | each operation keeps the books of keys, values and entries balanced |
| Ownership.BooksMean | pet_hashtable.c:342-497 | returned is what removals answer, dropped what iterators remove, replaced and altered what a search would have found |
| Ownership.RunBalanced | pet_hashtable.c:308-685 | after every run each key is linked or freed, each value linked, freed by change, turned into another by inc or dec, returned by remove or dropped by an iterator, and no entry is freed twice or while linked |
| Ownership.NothingAltered | pet_hashtable.c:308-368 | without inc and dec the values are those that the caller passed in |
| Ownership.AllFreedOnce | pet_hashtable.c:500-531 | after destroying the table all keys, all values that did not leave, and all entries have been freed once each |
| Scripts.PerformIterRemove | pet_hashtable.c:653-723 | searching with an iterator, reading the value and removing carries out that call, and nothing but a search for an absent key |
| Scripts.Perform | pet_hashtable.c:308-723 | a call on the heap is the step that this call comes to, with its answer |
| Scripts.Execute | pet_hashtable.c:308-723 | a script on the heap goes through a run that carries out exactly its calls in order, ends in its state and returns its answers |
| Sessions.InsertsTold | pet_hashtable.c:308-340 | the insertions of a run and the memory it is granted are those of its calls |
| Sessions.BooksTold | pet_hashtable.c:308-340 | the keys that went in are those of the calls, with an entry for each |
| Sessions.Session | pet_hashtable.c:175-497 | a table from creation through any script: if the caller's functions agree, it is the multimap of the calls and gives its answers, a finite map by the caller's equality for clients that remove before they insert; growing relinks at most three entries for each insertion |
| Sessions.Lifetime | pet_hashtable.c:175-531 | and then destroyed: when it is created at all, its run and answers, and that every inserted key, every value that was not altered, returned or dropped, and every entry is freed exactly once, keys and values if there is a callback |
| Sessions.Swept | pet_hashtable.c:175-685 | or swept by a walk: the entries that are left, and script and walk together are one run from creation whose books balance |
| Rings.NeighboursAgree | pet_list.h:58-60 | in a ring every node is its successor's predecessor and its predecessor's successor |
| Rings.RingIsDetermined | pet_list.h:58-60 | the pointers determine the sequence, so the contracts below fix the result |
| Rings.Init | pet_list.h:67-71 | a ring of one |
| Rings.AddBetween | pet_list.h:85-93 | inserts at that place, whatever the length, neighbours that coincide included |
| Rings.ListAdd | pet_list.h:103-107 | pushes in front |
| Rings.ListAddTail | pet_list.h:117-121 | pushes at the back |
| Rings.Unlink | pet_list.h:130-134 | takes out the node between two neighbours; a node that is alone stays a ring |
| Rings.ListDel | pet_list.h:142-147 | deletes exactly that entry and poisons it |
| Rings.ListDelInit | pet_list.h:153-157 | deletes exactly that entry and leaves it a ring of its own, also if it was one |
| Rings.ListMove | pet_list.h:164-168 | from any place of the same ring, of another one or of none to the front |
| Rings.ListMoveTail | pet_list.h:175-180 | from any place of the same ring, of another one or of none to the back |
| Rings.ListEmpty | pet_list.h:186-189 | true exactly if the head is alone |
| Rings.Splice | pet_list.h:209-221 | the contents of one ring in order between the head of the other and its contents |
| Rings.ListSplice | pet_list.h:228-232 | the same, and nothing for an empty source |
| Rings.ListSpliceInit | pet_list.h:241-248 | the same, and the source is empty afterwards |
| Rings.VisitSafe | pet_list.h:308-310 | the loop body may delete its entry: the entry remembered is still the next one |
| Rings.DeleteWhere | pet_list.h:308-310 | the loop visits every original entry once in order and leaves those for which the predicate does not hold as a ring, in order |
| Rings.AddThenDelete | pet_list.h:103-147 | adding an entry and deleting it leaves the ring as it was, and the entry poisoned |
| HLists.Unlink | pet_list.h:460-467 | without access to the head, takes out exactly that entry: first, middle or last |
| HLists.Del | pet_list.h:469-474 | the same, and poisons it |
| HLists.DelInit | pet_list.h:476-482 | the same, and the entry is unhashed; does nothing to an unhashed one |
| HLists.AddHead | pet_list.h:484-492 | inserts at the front |
| HLists.AddBefore | pet_list.h:495-502 | inserts before an entry, through the cell that led to it |
| HLists.AddAfter | pet_list.h:504-513 | inserts the second argument after the first, at the end too |
| HLists.ListIsDetermined | pet_list.h:428-434 | the pointers determine the sequence |
| HLists.OneHome | pet_list.h:428-434 | an entry is at one place of one list: its `pprev` leads to a single head |
| Server.Loop.constructor | http_server2.c:198-211 | an empty table that watches the listener |
| Server.Loop.Place | http_server2.c:244-267 | a new connection takes the first free slot, or is closed at once if there is none |
| Server.Loop.Serve | http_server2.c:270-291 | the second part of a turn as the function over slots |
| Server.Loop.Once | http_server2.c:213-296 | one turn, with the two early ends |
| Server.Loop.Turns | http_server2.c:213-296 | any number of turns on the loop's variables is a run of the state machine |
| Server.AdmitGood | http_server2.c:241-268 | accepting keeps the invariant |
| Server.TurnGood | http_server2.c:213-296 | a turn keeps slots distinct, the watched set equal to listener and slots, the maximum an upper bound, and every accepted descriptor in one slot or closed once |
| Server.ServeExactly | http_server2.c:270-291 | exactly the readable connections are handled, in slot order, and only their slots are freed |
| Server.TurnStops | http_server2.c:228-247 | nothing happens in a turn in which select fails, or accept does on a ready listener |
| Server.TurnServes | http_server2.c:213-296 | any other turn handles exactly the reported connections in slot order and frees their slots; a new connection gets the first slot that was free when the turn began, or is rejected |
| Server.FirstFreeIs | http_server2.c:251-262 | the slots in front of the first free one are taken |
| Server.TurnServesReported | http_server2.c:213-296 | the handler runs only on connections that were there and reported readable, never on the listener or on one accepted in the same turn |
| Server.RunGood | http_server2.c:198-296 | the invariant holds after every run from the start |
| Server.RunServes | http_server2.c:198-296 | over every run exactly the reported connections are handled, and exactly the returned ones accepted |
| Server.Pigeonhole | http_server2.c:251-266 | different descriptors below a bound other than the listener's are fewer than the bound |
| Server.AlwaysRoom | http_server2.c:251-266 | with descriptors below FD_SETSIZE there is a free slot |
| Server.NeverTooMany | http_server2.c:263-266 | so in no run is a connection rejected for want of a slot |
| Server.Session | http_server2.c:198-296 | the server from its start through any number of turns keeps the invariant, handles exactly who is reported, and turns nobody away as long as descriptors fit |
| Http.CStringStops | http_server2.c:78-81 | the scan does not see what follows the terminating NUL |
| Http.ContainsGrows | http_server2.c:80-83 | more input never hides an end of headers that the scan has found |
| Http.ScanExact | http_server2.c:80-83 | the scan succeeds exactly if an empty line occurs with no NUL in front |
| Http.ScanBytes | http_server2.c:80-83 | the same in bytes: 13, 10, 13, 10 with no 0 in front |
| Http.NotFoundStatus | http_server2.c:34-38 | the answer to a missing file has status 404 and an empty line |
| Http.OkStatus | http_server2.c:30-32 | the header for a file has status 200 and an empty line |
| Http.NulHidesEnd | http_server2.c:80-83 | a request whose end the scan misses |
| Http.DecimalRoundTrip | http_server2.c:124 | the printed number reads back as the number |
| Http.DigitsCanonical | http_server2.c:124 | the number is printed in decimal digits without leading zeros |
| Http.HonestLength | http_server2.c:115-124 | Content-length is the file's length exactly if that is below two to the 31 |
| Transfer.Peer.Recv | http_server2.c:73 | any short receive: the next bytes of the stream at the offset, the earlier ones untouched |
| Transfer.CompleteGrows | http_server2.c:80-83 | a request that is complete stays so when more arrives |
| Transfer.ReadRequest | http_server2.c:65-84 | for every schedule of receives the buffer is the stream's prefix of at most 1023 bytes with a NUL; success exactly if they hold an empty line with no NUL in front or are 1023, failure only on a failed receive or the end of the stream, and no part up to an earlier receive was complete |
| Transfer.ReceiveNext | http_server2.c:66-84 | one turn of the receive loop: what has arrived, whether the scan finds the end, and why a receive fails |
| Transfer.ScanSeesStream | http_server2.c:77-83 | scanning the buffer is scanning the bytes that have arrived |
| Transfer.Peer.Send | http_server2.c:136 | any short send: how many bytes it takes, and that these are on the wire |
| Transfer.SendAll | http_server2.c:134-143 | for every schedule of sends a prefix goes out, all of it on success; success exactly if no send failed, and the first that fails is the last |
| Transfer.SendBody | http_server2.c:131-144 | for every schedule of reads and sends a prefix of the file goes out in order, the whole file on success; success exactly if no send failed, and the first that fails is the last |
| Transfer.Respond | http_server2.c:65-149 | the body: success and the bytes on the wire for each outcome |
| Transfer.HeadSays | http_server2.c:105-124 | what is sent first says 404 for a missing file and 200 otherwise |
| Transfer.WireSays | http_server2.c:105-124 | and so do the bytes on the wire once twelve of them are out |
| Transfer.HandleConnection | http_server2.c:65-149 | success exactly if the request arrives, can be parsed and no send fails; on the wire are what the first send takes of the header and then a prefix of the file, the whole file on success; the status on the wire is 404 for a missing file and 200 otherwise |
| Transfer.ResponseIsHonest | http_server2.c:115-148 | a successful response is whole exactly if the first send may move the whole header, and its Content-length is true exactly below two to the 31 |
| Transfer.SplitHeader | http_server2.c:124-130 | a request that is served with success although one byte of its header goes out |

## Left out

- Expansion.Regrow: clears the new slots, as `pet_hashtable.c:274` is meant to; what the call of `memset` as written would overwrite is not modelled.
- Scripts.Execute: in a script a removal through an iterator follows a search with it; removals in the middle of a walk are in `Walks.Purge` and `Sessions.Swept`.
- Server.NeverTooMany: assumes that accepted descriptors are below FD_SETSIZE, beyond which FD_SET has undefined behaviour in C; the other results about the server treat `fd_set` as a set of any size.
- Transfer.Peer.Send: a positive result never exceeds the number of bytes asked for, as the system call promises.
- Transfer.File.Read: does not model read errors, or a file that changes while it is sent.
- Transfer.HandleConnection: takes the outcome of `sscanf`, the choice of the file name and the result of `fopen` as inputs.
- The search loop that six functions of `pet_hashtable.c` write out is one method, `Locate`.
- An entry from `calloc` is a new object, so the reuse of a freed address is not modelled.
- Conditions, equality and hash functions with side effects, and callbacks that call the table again.
- Frees of the bucket array, of the table header and of iterators are not logged; those of entries, keys and values are.
- Failure to allocate an iterator, and the iterator's two getters: they would only add easy members.
- `pet_hash_buffer` and `pet_cmp_ptr`; how well any of the hash functions distributes keys.
- What a read of a poisoned list pointer would do: the poison addresses are null.
- The other iteration macros of `pet_list.h`, `list_empty_careful` and `container_of`.
- The select loop counts a call of the handler as one event; what the handler sends is modelled in `Transfer`. Socket setup and error output are not modelled.
- Concurrency: nothing in these files uses threads.
- `http_client.c`, `http_server1.c`, `http_server3.c` and the two interactive examples, apart from `__u32_eq_fn`.
