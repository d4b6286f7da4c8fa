# dleague, verified

A Dafny model of the parts of dleague whose correctness is not visible in any one function:
the WebSocket hub that runs matches between two players, the table of references between Go
and JavaScript that the WebAssembly loader keeps, the word game and its re-scoring on the
server, the leaderboards, and presence and cache entries that expire. To verify it, run

    dafny verify --resource-limit 2000000 dfyconfig.toml

| files | content |
|---|---|
| `Rooms`, `Hub` | room, conn and hub as classes, the message handlers |
| `HubSteps`, `HubSafety`, `HubTheorems`, `HubJoins`, `HubWholes` | the hub as interleaved critical sections: invariant, delivery, which runs leave conns or joiners behind, and how the handlers of `Hub` are such runs |
| `RefTable`, `RefRuns` | `storeValue`, `loadValue`, `finalizeRef` and every run of them |
| `JsStrings`, `ArgvLayout` | UTF-16 strings and their UTF-8 encoding; argv and environment in linear memory |
| `WordleScoring`, `WordleScene`, `ServerScoring`, `WordleRuns` | feedback, game scene, server score, whole games |
| `Boards`, `MemStore`, `MongoStore`, `PairedBoards`, `Attempts`, `MatchRuns` | leaderboards in both stores, the attempt handler, interleaved requests |
| `Ttl` | expiring entries under two stores' rules |
| `Handshake`, `WsClient` | the AUTH handshake on the server and the client |
| `Common`, `Lex`, `Messages`, `Records` | shared types, lexicographic order |

Objects that the program updates in place are classes whose methods are proved against a
transition function; runs of interleaved steps are sequences of actions from a start state, and
the main results are lemmas about every such sequence. A step of the hub is one critical section:
JOIN_ROOM is two, a broadcast is a lookup, a snapshot and one step per peer, and unregister is
three, because `room.add` of another conn takes only the room lock and can fall between
`room.remove` and `room.empty`.

What the program does not do in every run is stated exactly, with the run that shows it:

- A joiner whose room is emptied and deleted between its two sections is left outside the room
  map (`SplitJoinLosesInARun`); `SplitJoinExactly` says when a registered conn is in its mapped room.
- A conn that joined a second match stays in the first room for good (`SecondMatchStrandsFirst`);
  `RoomsDrainExactly` says that this is the only way in which the room map fails to drain.
- `server/internal/ws/conn.go:27` says that `matchID` is cleared on unregister. The code never
  clears it, and neither does the model.
- `client/web/src/net/ws.js:61-62` says that `connect` rejects when the socket closes. The close
  handler overwrites `state` before it compares it with 'connecting', so that branch is dead;
  `WsClient.OnClose` proves that closing never settles the promise.
- For n <= 0 `memstore.TopN` returns all rows and the MongoDB one none; `TopScoresAgree` says that
  the two differ exactly on a non-empty board.
- A read in the millisecond of an expiry and not after it finds the entry in memstore and not in
  MongoDB (`ExpiryInstantDiffers`); `StoresAgreeExactly` says that no other read differs.
- The server trims white space and the client's feedback does not; `WinsAgreeExactly` says that
  they agree on all guesses of the right length exactly when the solution is trimmed.
- `attemptKey` mixes up attempts on two dates exactly when "::" and one date end in "::" and the
  other, shorter, date (`AttemptKeyClashesExactly`); dates of one length never do.
- A guess entered while an earlier row is still flipping can make the scene announce completion
  twice, or with a win before the last row. `AnnouncesRightlyExactly` says that this happens exactly
  when the row still flipping is the winning one or the guess is the sixth or later;
  `LateSolutionGetsBoth` is the run that is announced first as lost and then as won.
- With a row shorter than the solution a key can be grey although the solution has its letter
  (`ShortRowGreysPresent`); `KeysTellTheTruth` says when keys are right. The only caller passes the
  length of the solution (`client/web/src/games/runner/GameRunner.svelte:102`), and then they are.
- Resuming more than six guesses makes `create` throw: the grid has six rows.
- On a wall clock that is set back, a pass of MongoDB's TTL index is visible; `PurgesShowExactly`
  says when, for any clock and any expiry rule.
- The global board lags the daily ones for a uid exactly as long as a call of that uid is due that
  would still raise it (`GlobalIsMaxOfDailies`, with the run `GlobalCanLag`).
- Strings with a NUL or an unpaired surrogate are not recovered from argv; `LaidIsRecovered` says
  that all others are.

Assumptions: conn and room identities are pointers; clock readings, verifier verdicts, puzzle words
and calendar checks are arguments; game words are ASCII; the players the store answers for a match
never change (`MatchEndIsSafe`); all flips take the same time; a table of JavaScript values stays
below 2^32 - 1 entries; sorting library calls are insertion sorts with the same comparison, and the
theorems hold of any result with the stated order.

## Model

| member | source | states |
|---|---|---|
| Rooms.LeftIsExact | server/internal/ws/rooms.go:33-42 | On a duplicate-free list, removal takes out exactly the one conn and keeps every other |
| Rooms.LeftAt | server/internal/ws/rooms.go:36-38 | Removal of the first occurrence is the list with that one index cut out |
| Rooms.Room.Add | server/internal/ws/rooms.go:21-31 | The room lists its old conns and the new one, never twice; true exactly when it was absent; a full slice moves to a fresh array |
| Rooms.Room.Remove | server/internal/ws/rooms.go:33-42 | The list loses the first occurrence; the shared backing array is shifted, so that a header of the old length reads the last conn twice |
| Rooms.Room.Snapshot | server/internal/ws/rooms.go:44-52 | The conns in order, in an array of their own that no later shift reaches |
| Rooms.Room.Empty | server/internal/ws/rooms.go:54-58 | True exactly when no conn is listed |
| HubSteps.RoleOfPlayers | server/internal/ws/match_lifecycle.go:153-163 | A role is given exactly to players, "p1" exactly to the first and "p2" exactly to any other |
| HubSteps.JoinExactly | server/internal/ws/match_lifecycle.go:53-62 | A join puts the conn into the room filed under its match and leaves everybody else, and every other room, as they were |
| HubSteps.UnregisterExactly | server/internal/ws/hub.go:51-63 | unregister takes out the one conn and deletes its room's entry exactly when nobody else is in it; all else is unchanged |
| HubSafety.RunKeepsInv | server/internal/ws/hub.go:45-63 | In every run: rooms are filed under their own match without duplicates, every conn's view between two steps is sound, all members passed the players check, empty mapped rooms are awaited, no peer is written twice for a frame |
| HubSafety.NextKeepsInv | server/internal/ws/match_lifecycle.go:53-62 | Each critical section of any conn keeps that invariant |
| HubSafety.NextKeepsHeld | server/internal/ws/hub.go:51-63 | A mapped room that is empty after a step has a joiner between its sections or an unregister at work on it |
| HubSafety.NextKeepsLog | server/internal/ws/hub.go:100-124 | Each step keeps: written peers are admitted, differ from the sender, and are out of what the broadcast has still to write |
| HubTheorems.MappedRoomsAreSound | server/internal/ws/match_lifecycle.go:53-62 | Over every interleaving a mapped room is keyed by its own match, duplicate-free, and, when the hub lock is free, non-empty or awaited by a joiner |
| HubTheorems.RunsCanGoOn | server/internal/ws/conn.go:79-83 | In every run a conn in the middle of a handler can take its next step, whoever holds the hub lock is such a conn, and with the lock free an idle conn can unregister |
| HubTheorems.AdmittedPassedCheck | server/internal/ws/match_lifecycle.go:47-50 | Every conn admitted to a match has a step at which its uid was found among the players the store has for that match |
| HubTheorems.AdmittedArePlayers | server/internal/ws/match_lifecycle.go:39-50 | In every run the uid of every admitted conn is a player of the stored match |
| HubTheorems.DeliveryIsSafe | server/internal/ws/hub.go:100-124 | In every run a TURN or MATCH_END for m reaches only conns whose uid is a player of the stored match m, never its sender, each at most once |
| HubTheorems.BroadcastIsComplete | server/internal/ws/hub.go:114-123 | In every run, whatever happens between the writes, exactly the conns of the snapshot before the next one to write to have the frame; when the sender has gone on, exactly all of them but itself have |
| HubTheorems.LeftBehindStays | server/internal/ws/hub.go:51-63 | No step takes a left-behind conn, or its room, out of the map |
| HubTheorems.StrayingBeginsIt | server/internal/ws/hub.go:54-60 | A conn becomes left behind exactly at an unregister made while it sits in a mapped room other than that of its current match |
| HubTheorems.LeftBehindStrayed | server/internal/ws/match_lifecycle.go:60 | Every left-behind conn has such a step in its run |
| HubTheorems.StrayedIsLeftBehind | server/internal/ws/hub.go:54-60 | After such a step the conn is left behind in every continuation |
| HubTheorems.RoomsDrainExactly | server/internal/ws/hub.go:51-63 | When all conns have unregistered, the room map is empty if and only if no conn strayed in the run |
| HubTheorems.SecondMatchStrandsFirst | server/internal/ws/match_lifecycle.go:60 | A run for any two matches after which every conn is gone and the first match's room is still mapped |
| HubTheorems.OneMatchIsCurrent | server/internal/ws/match_lifecycle.go:60 | If each conn asks for one match only, that is its current match |
| HubTheorems.OneMatchDrains | server/internal/ws/hub.go:51-63 | With one match per conn, an unregistered conn is in no mapped room and the map is empty once all have unregistered |
| HubJoins.HeadedHomeExactly | server/internal/ws/match_lifecycle.go:54-62 | A live conn is in, or about to enter, its mapped room exactly when that room was not deleted since it looked it up |
| HubJoins.SplitJoinExactly | server/internal/ws/match_lifecycle.go:54-62 | Over every interleaving a registered conn outside its own join is in the mapped room of its match if and only if that room was not deleted since |
| HubJoins.RegisteredIsLive | server/internal/ws/hub.go:45-53 | `conns` holds exactly the conns that registered and have not begun to leave |
| HubJoins.EmptiedStaysEmpty | server/internal/ws/hub.go:55-60 | With joins run as one step, a room found empty is still empty when it is deleted |
| HubJoins.AtomicNeverLoses | server/internal/ws/match_lifecycle.go:54-62 | With joins run as one step no live conn loses its room |
| HubJoins.AtomicJoinIsPresent | server/internal/ws/match_lifecycle.go:54-62 | With joins run as one step every registered conn with a match is in that match's mapped room |
| HubJoins.AtomicMembershipExactly | server/internal/ws/match_lifecycle.go:54-62 | With one match per conn as well, membership is exactly "registered with that match" |
| HubJoins.SplitJoinCanLose | server/internal/ws/match_lifecycle.go:54-62 | From every sound state with a lone member, a schedule leaves the joiner registered for a match that has no mapped room |
| HubJoins.LoneMemberIsReachable | server/internal/ws/hub.go:45-49 | Two registrations and one join reach such a state |
| HubJoins.StepsAreRun | server/internal/ws/match_lifecycle.go:54-62 | A schedule that goes on from the state a run leads to is a run |
| HubJoins.SplitJoinLosesInARun | server/internal/ws/match_lifecycle.go:54-62 | For every match of two players a run after which one is registered for it, the match has no mapped room, and the room was lost |
| HubWholes.JoinIsTwoSteps | server/internal/ws/match_lifecycle.go:53-62 | An uninterrupted join is its two sections in a row |
| HubWholes.UnregisterIsItsSteps | server/internal/ws/hub.go:51-63 | An uninterrupted unregister is its steps in a row, with the same effect on shared memory |
| HubWholes.BroadcastIsItsSteps | server/internal/ws/hub.go:100-124 | An uninterrupted broadcast is its lookup, snapshot and writes, and adds one delivery for each member but the sender |
| HubWholes.DeliveredAsListed | server/internal/ws/hub.go:114-117 | A conn gets one delivery per place it has in the snapshot, the sender none |
| Hubs.RoleOf | server/internal/ws/match_lifecycle.go:153-163 | The loop returns the role the players list gives |
| Hubs.OpponentOf | server/internal/ws/match_lifecycle.go:165-172 | The first player with another uid, so in a match of two the other one; "" exactly when there is none |
| Hubs.Copies | server/internal/ws/hub.go:108-119 | What a broadcast adds to an inbox: that many times the very frame, and nothing else |
| Hubs.FanOut | server/internal/ws/hub.go:114-123 | Every conn, listed or not, receives the frame unchanged as many times as it has places in the list, the excluded one never |
| Hubs.Hub.CopiesFor | server/internal/ws/hub.go:100-119 | A broadcast reaches exactly the members of the mapped room but the sender, each once when the room lists no conn twice |
| Hubs.Hub.Register | server/internal/ws/hub.go:45-49 | The hub's objects change as the register step says, and stay valid |
| Hubs.Hub.LookupOrCreate | server/internal/ws/match_lifecycle.go:54-61 | First section of a join on the objects: the mapped room, or a fresh empty one filed under the match |
| Hubs.Hub.AddTo | server/internal/ws/match_lifecycle.go:62 | Second section on the objects: only that room changes, even if it is no longer mapped |
| Hubs.Hub.TakeOut | server/internal/ws/hub.go:52-56 | unregister up to the removal, as the step system has it |
| Hubs.Hub.Unregister | server/internal/ws/hub.go:51-63 | The whole of unregister on the objects: the mapped room loses the conn and goes when it is empty; all other rooms are untouched |
| Hubs.Hub.BroadcastRoom | server/internal/ws/hub.go:100-124 | Every conn's inbox grows by the frame, once for each of its places in the mapped room, the sender's not at all; rooms are untouched |
| Hubs.Hub.VetJoin | server/internal/ws/match_lifecycle.go:20-51 | Exactly an authenticated player of a stored match is accepted; which reason or error each other request gets, and the role and opponent of an accepted one |
| Hubs.Hub.HandleJoinRoom | server/internal/ws/match_lifecycle.go:20-65 | The ack says ok exactly for such a player, with its role and opponent, and that conn is joined; anybody else gets the reason or error and changes nothing |
| Hubs.Hub.HandleTurn | server/internal/ws/match_lifecycle.go:69-83 | Accepted only from a conn that names its own match; exactly then the other members get the frame; which error otherwise |
| Hubs.EndScoresExactly | server/internal/ws/match_lifecycle.go:121-129 | The first score raises the first player and the second the second, if positive, on the match's daily board and the global one; no other entry changes |
| Hubs.Hub.PersistEnd | server/internal/ws/match_lifecycle.go:87-129 | The match is ended with the reported winner at that time and both players' boards raised exactly when every check passes, else nothing is written; which error each failed check gives |
| Hubs.Hub.HandleMatchEnd | server/internal/ws/match_lifecycle.go:87-135 | The frame is echoed and broadcast exactly when it was persisted |
| Hubs.HandlePing | server/internal/ws/ping.go:11-29 | A decodable PING, and no other, is answered with both clock readings under its own id |
| Hubs.Hub.Dispatch | server/internal/ws/hub.go:82-96 | For every kind the answer, error and effects: PING a PONG; JOIN_ROOM the ack, and the join exactly if it may; TURN nothing, and the broadcast exactly if accepted; MATCH_END itself, stored and broadcast exactly if it may end; any other kind nothing |
| Hubs.DistinctGetsOne | server/internal/ws/hub.go:114-123 | In a room that lists no conn twice every peer is written once |
| MatchRuns.MatchIsLastWrite | server/internal/ws/match_lifecycle.go:105-119 | After any interleaving of reads and writes a match is its first record ended by the last write alone |
| MatchRuns.MatchEndIsSafe | server/internal/ws/match_lifecycle.go:109-119 | Id, players, mode, puzzle date and creation time never change; the winner is "" or a player; winner, end time and the larger score are those of the last write |
| MatchRuns.EndedStaysEnded | server/internal/ws/match_lifecycle.go:113 | A match ended after some prefix of a run is ended after every longer one |
| MatchRuns.EndIsReadWrite | server/internal/ws/match_lifecycle.go:105-119 | An uninterrupted MATCH_END is a read and a write of such a run |
| Records.AttemptKeyClashesExactly | server/internal/store/memstore/memstore.go:69 | Some uids give two dates the same key if and only if "::" and one date end in "::" and the other, shorter, date |
| Records.AttemptKeyInjective | server/internal/store/memstore/memstore.go:69 | On dates of one length the key determines uid and date, whatever the uid contains |
| Records.LookupIsExact | server/internal/store/memstore/memstore.go:161-165 | With attempts filed under their own keys, a lookup finds the attempt of that uid and date, or there is none |
| Records.WriteIsExact | server/internal/store/memstore/memstore.go:174 | Writing an attempt changes what is found for no other uid and date |
| Records.BoardKeysDiffer | server/internal/api/attempts.go:87-88 | No daily board is the global one, and dates have boards of their own |
| Boards.BoardsHoldTheBest | server/internal/store/memstore/memstore.go:265-282 | After any submissions a board lists exactly the submitting uids with the maximum of their scores |
| Boards.BoardsForgetOrder | server/internal/store/memstore/memstore.go:265-282 | Boards depend only on which submissions were made, not on order or repetition |
| Boards.TopIsCanonical | server/internal/store/memstore/memstore.go:284-305 | The top-N list is unique, and a shorter one is a prefix of a longer one |
| Boards.TopIsByScoreThenUid | server/internal/store/memstore/memstore.go:295-303 | It has min(n, size) rows of the board, or all for n <= 0, by score downwards and on equal scores by uid upwards |
| Lex.LexLessExactly | server/internal/store/memstore/memstore.go:299 | One string is less than another when it is its beginning or has the smaller character where they first differ |
| Boards.ScoresAreCanonical | server/internal/store/mongodb/leaderboards.go:50-57 | Sorting by score alone, ties in any order, gives the score sequence of the canonical list |
| Boards.SortRanksSorts | server/internal/store/memstore/memstore.go:295-300 | The order is strict and total on distinct rows: sorting yields a strictly ordered permutation |
| MemStores.MemStore.SubmitScore | server/internal/store/memstore/memstore.go:265-282 | One board entry is raised to the maximum, all else is unchanged; a closed store changes nothing |
| MemStores.MemStore.TopN | server/internal/store/memstore/memstore.go:284-305 | The canonical list of that board in whatever order the map is walked |
| MemStores.MemStore.UpsertAttempt | server/internal/store/memstore/memstore.go:168-176 | Afterwards that uid and date have this attempt and every other uid and date what they had; attempts stay filed under their own keys |
| MemStores.MemStore.GetAttempt | server/internal/store/memstore/memstore.go:155-166 | The one stored attempt of exactly that uid and date, never another's; not found exactly when there is none |
| MemStores.MemStore.UpsertMatch | server/internal/store/memstore/memstore.go:191-199 | Only the match of that id is replaced |
| MemStores.MemStore.GetMatch | server/internal/store/memstore/memstore.go:178-189 | The stored match, or which error |
| MemStores.MemStore.MarkOnline | server/internal/store/memstore/memstore.go:307-315 | A put of an entry that expires at now + ttl; nobody else's changes |
| MemStores.MemStore.IsOnline | server/internal/store/memstore/memstore.go:317-332 | Answers as a read; its own delete is a purge of that one key |
| MemStores.MemStore.CacheGet | server/internal/store/memstore/memstore.go:334-351 | Returns what a read returns; its own delete is a purge of that one key |
| MemStores.MemStore.CacheSet | server/internal/store/memstore/memstore.go:353-367 | A put of the value, expiring at now + ttl, or never without a positive ttl; other keys keep theirs |
| MongoStores.MaxUpsertIsRaise | server/internal/store/mongodb/leaderboards.go:26-30 | A `$max` upsert does to every board what memstore's compare-and-set does |
| MongoStores.StoresHoldSameBoards | server/internal/store/mongodb/leaderboards.go:19-35 | After the same submissions both stores hold the same boards |
| MongoStores.TopScoresAgree | server/internal/store/mongodb/leaderboards.go:40-78 | Both stores return the same score sequence if and only if n > 0 or the board is empty |
| MongoStores.SortByScoreSorts | server/internal/store/mongodb/leaderboards.go:50-52 | The sort orders the documents by score and keeps each once |
| MongoStores.MongoStore.SubmitScore | server/internal/store/mongodb/leaderboards.go:19-35 | The named board is raised for that uid, every other board is unchanged |
| MongoStores.MongoStore.TopN | server/internal/store/mongodb/leaderboards.go:40-78 | Nothing for n <= 0; else n rows in descending score with no omitted row above a kept one |
| MongoStores.MongoStore.MarkOnline | server/internal/store/mongodb/presence.go:19-42 | A put of an entry whose expiry is kept in whole milliseconds |
| MongoStores.MongoStore.IsOnline | server/internal/store/mongodb/presence.go:44-60 | The query-side filter answers as a read, purged or not |
| MongoStores.MongoStore.CacheGet | server/internal/store/mongodb/cache.go:21-53 | The filter returns what a read returns, with or without an expiry field |
| MongoStores.MongoStore.CacheSet | server/internal/store/mongodb/cache.go:55-83 | A put; a key set without ttl does not inherit an earlier expiry |
| MongoStores.MongoStore.TtlPass | server/internal/store/mongodb/indexes.go:78-90 | A pass of the TTL indexes is a purge of some expired entries in each collection |
| Ttl.ReadIsLastPut | server/internal/store/mongodb/presence.go:44-60 | Under a monotone clock a read returns the last value put unless that is dead by now |
| Ttl.PurgesShowExactly | server/internal/store/mongodb/indexes.go:78-90 | On any clock and for any rule, purges change a read if and only if one met the entry dead since its last put and the read finds that entry alive |
| Ttl.PurgesAreInvisible | server/internal/store/mongodb/indexes.go:78-90 | Under a monotone clock purges of dead entries anywhere in a run change no read |
| Ttl.BackwardClockShowsPurges | server/internal/store/mongodb/presence.go:19-60 | Whatever the entry and its ttl, purged at its expiry it is missing from a read stamped earlier |
| Ttl.SamePutsSameLast | server/internal/store/mongodb/cache.go:55-83 | Runs of the two stores with the same puts agree on the last put of every key, up to MongoDB's milliseconds |
| Ttl.StoresAgreeExactly | server/internal/store/mongodb/cache.go:21-53 | Reads of the two stores differ if and only if they fall in the expiry's millisecond and not after the expiry |
| Ttl.StoresAgreeOnMillis | server/internal/store/mongodb/presence.go:44-60 | With whole-millisecond times they differ exactly at the expiry instant |
| Ttl.ExpiryInstantDiffers | server/internal/store/mongodb/cache.go:21-53 | Any value read at its very expiry is there in memstore and not in MongoDB |
| PairedBoards.RunKeepsPInv | server/internal/api/attempts.go:79-89 | In every run of interleaved requests each daily score is on the global board or about to be, each global score is backed by a daily one, each stored attempt by its daily board |
| PairedBoards.SubmitBothExactly | server/internal/api/attempts.go:86-89 | A request's two calls raise exactly the uid's entries on the day's board and on the global one |
| PairedBoards.GlobalIsMaxOfDailies | server/internal/api/attempts.go:86-89 | At every moment of every run, a uid is on the global board iff it is on some daily board, with the maximum of its daily scores, if and only if no outstanding global call of that uid would still raise it |
| PairedBoards.GlobalCanLag | server/internal/api/attempts.go:86-89 | Between the two calls of any scoring submit the global board does not mirror the daily ones |
| PairedBoards.GlobalNeverAhead | server/internal/api/attempts.go:87-88 | At every moment a global score is backed by a daily one |
| PairedBoards.AttemptWithinDaily | server/internal/api/attempts.go:79-88 | The attempt read back for a uid and date is theirs, and its score is at most their score on that day's board unless a daily call that will raise it so far is due |
| PairedBoards.ReportedIsListed | server/internal/api/attempts.go:86-89 | In every run, from the daily call on the uid is on that daily board with at least the reported score and on the global one or about to be; from the global call on it is on the global one |
| Attempts.SubmitAttempt | server/internal/api/attempts.go:38-95 | Which requests are refused and how; an accepted one stores, under that uid and date, the guesses sent, the time, and the score and outcome it answers, and raises both boards by a positive score; a refused one writes nothing |
| Attempts.SubmitIsSchedule | server/internal/api/attempts.go:79-89 | An uninterrupted submit is a run of the paired-board steps |
| Attempts.EndIsSchedule | server/internal/ws/match_lifecycle.go:121-129 | So is each score a match end reports |
| Attempts.Mine | server/internal/api/attempts.go:99-121 | A uid gets back exactly the attempt stored for it and the date, or the error that there is none |
| RefTables.Go.LoadValue | web/wasm_exec.js:134-145 | What a slot loads from the table: undefined for either zero, itself for a number, the value of the id for a NaN |
| RefTables.Go.StoreValue | web/wasm_exec.js:147-195 | Immediates leave the table alone; other values get the id they hold, or the last freed one, or a new one, one reference more, and a slot whose head tells object, string, symbol, function or none of these |
| RefTables.Go.FinalizeRef | web/wasm_exec.js:313-323 | One reference less; the last one frees the value and its id |
| RefRuns.RunKeepsRInv | web/wasm_exec.js:134-195 | In every run reference counts are the outstanding references, `_ids` is the inverse of the live part of `_values`, the pool is exactly the dead ids, held slots are sound |
| RefRuns.OutstandingIsSafe | web/wasm_exec.js:134-195 | In every run an outstanding reference loads as the value it was made for, -0 as 0, and two slots are equal exactly when their values are the same Map key |
| RefRuns.HeadTellsKind | web/wasm_exec.js:176-194 | In every run the head of an outstanding reference is 0x7FF80001 exactly for objects, ..2 for strings, ..3 for symbols, ..4 for functions and ..0 for the rest |
| RefRuns.AllocatorIsSafe | web/wasm_exec.js:165-175 | In every run ids 0-6 are kept and never freed, the pool holds each dead id once and nothing else, and no id in use is handed out |
| RefRuns.TableIsSmallest | web/wasm_exec.js:165-175 | In every run the table's length is 7 plus the peak number of distinct other values held at once |
| RefRuns.TableGrowsLast | web/wasm_exec.js:167-170 | It grows only when the pool is empty, by one, and never shrinks |
| RefRuns.StartIsSound | web/wasm_exec.js:485-503 | The table that `run` sets up satisfies all of that |
| ArgvLayouts.StrPtr | web/wasm_exec.js:509-518 | The text and its zero are at the old offset, the offset moves to the next multiple of 8, nothing else is written; None exactly when it does not fit in memory |
| ArgvLayouts.WriteStrings | web/wasm_exec.js:523-525 | All texts are placed in order, disjoint and aligned, and the rest of memory is kept |
| ArgvLayouts.WriteVector | web/wasm_exec.js:534-539 | The pointers become 8-byte entries and nothing before them changes |
| ArgvLayouts.SortedKeys | web/wasm_exec.js:528 | Exactly the keys of the environment, each once, in the order of their UTF-16 units |
| ArgvLayouts.PassArgs | web/wasm_exec.js:507-546 | For all strings, succeeds exactly when their UTF-8 encodings and the table end below 12288; then both lie in [4096, 12288) as laid out |
| ArgvLayouts.LaidReadsBack | web/wasm_exec.js:520-548 | For all strings, following the pointers to each zero gives the encodings of argv and then of the environment lines, each up to its first NUL |
| ArgvLayouts.LaidIsRecovered | web/wasm_exec.js:509-548 | argv and the lines are recovered exactly if and only if no string has a NUL or an unpaired surrogate; their encodings exactly if and only if none has a NUL |
| JsStrings.DecodeGivesBack | web/wasm_exec.js:511 | Decoding the encoding gives the string back exactly when it is well formed |
| JsStrings.EncodePointIsUtf8 | web/wasm_exec.js:511 | Lengths, first and continuation bytes and the bits they carry are those of section 3 of RFC 3629 |
| JsStrings.EncodeLaws | web/wasm_exec.js:511 | A surrogate outside a pair becomes U+FFFD, any other unit its own encoding, one after the other |
| JsStrings.PairsCountUp | web/wasm_exec.js:511 | Surrogate pairs count from U+10000 to U+10FFFF in the order of their units |
| JsStrings.EncodeInjective | web/wasm_exec.js:511 | Different well-formed strings have different encodings |
| JsStrings.RecoveredExactly | web/wasm_exec.js:511-512 | Cut at the first zero byte, the encoding gives the string back exactly when it is well formed and has no NUL |
| JsStrings.SortStringsSorts | web/wasm_exec.js:528 | Sorting by UTF-16 code units orders the strings and keeps each |
| WordleScoring.PlaceHits | client/web/src/games/wordle/scoring.js:26-36 | Hits are placed, and the counter holds every unmatched letter of the solution |
| WordleScoring.PlacePresents | client/web/src/games/wordle/scoring.js:38-45 | The second pass completes the marks to the declarative feedback |
| WordleScoring.EvaluateGuess | client/web/src/games/wordle/scoring.js:19-46 | For all words of equal length, hit iff the letters match, present iff not a hit and fewer earlier unmatched copies in the guess than in the solution; a length mismatch is an error |
| WordleScoring.MarksAreSharedLetters | client/web/src/games/wordle/scoring.js:30-45 | For each letter hits plus presents is the smaller of its counts in guess and solution |
| WordleScoring.MarkedIsIntersection | client/web/src/games/wordle/scoring.js:30-45 | The marked letters are the multiset intersection, so their number is symmetric in guess and solution |
| WordleScoring.PresentsComeFirst | client/web/src/games/wordle/scoring.js:37-44 | Of equal letters that are not hits the earlier ones are marked present first |
| WordleScoring.WinIsEquality | client/web/src/games/wordle/scoring.js:52-54 | All hits exactly when the words are equal and not empty |
| WordleScoring.LastLetterIsMiss | client/web/src/games/wordle/scoring.js:38-45 | All other letters hit, the last one is never present |
| WordleScoring.GreyExactly | client/web/src/games/wordle/scoring.js:30-45 | A guessed letter is a miss everywhere exactly when the solution lacks it |
| ServerScoring.Score | server/internal/api/scoring.go:26-45 | Won exactly when one of the first six guesses is the word up to case and outer space; 100 less 15 per guess before it, else 0 |
| ServerScoring.Finalize | server/internal/api/scoring.go:50-56 | The client's outcome is overwritten; in progress exactly when not won with fewer than six guesses |
| ServerScoring.ScoreIsUnique | server/internal/api/scoring.go:26-45 | That description determines score and outcome |
| ServerScoring.ClientScore | client/web/src/games/wordle/scoring.js:63-75 | The client's preview is the server's score |
| ServerScoring.WinsAgree | server/internal/api/scoring.go:36-42 | For a trimmed solution the client's feedback is a win exactly when the server's comparison is |
| ServerScoring.WinsAgreeExactly | server/internal/api/scoring.go:27-36 | They agree on all guesses of the right length if and only if the solution is trimmed |
| WordleScenes.WordleScene.Init | client/web/src/games/wordle/WordleScene.js:66-83 | The scene is the fresh or resumed state; fails exactly when a resumed guess has the wrong length |
| WordleScenes.WordleScene.Create | client/web/src/games/wordle/WordleScene.js:85-113 | Fresh buttons show the resumed rows; fails exactly when these do not fit the grid |
| WordleScenes.WordleScene.SubmitGuess | client/web/src/games/wordle/WordleScene.js:213-241 | The guess is stored and its flip started, nothing else; key colours stay those of the rows shown |
| WordleScenes.WordleScene.OnFlipDone | client/web/src/games/wordle/WordleScene.js:227-240 | The callback shows all rows there are by then, and announces completion by its own marks and the number of guesses there are by then |
| WordleScenes.WordleScene.HandleKeyDown | client/web/src/games/wordle/WordleScene.js:173-178 | For every key, during flips or not, scene and announcements follow the transition function and every letter key keeps showing the best mark of the rows shown |
| WordleScenes.WordleScene.HandleVirtualKey | client/web/src/games/wordle/WordleScene.js:181-186 | The same for every button |
| WordleScenes.WordleScene.RefreshKeyboardColors | client/web/src/games/wordle/WordleScene.js:284-304 | A letter key is green iff a shown cell of it is a hit, yellow iff none is and one is present, grey iff only misses are shown, and uncoloured iff none is |
| WordleScenes.RankIsBestMark | client/web/src/games/wordle/WordleScene.js:286-295 | The rank kept for a letter stands for its best mark: hit before present before miss |
| WordleRuns.PlayKeepsInv | client/web/src/games/wordle/WordleScene.js:173-241 | In every run rows and marks agree, running flips belong to stored rows, and a full grid is finished or has a flip running |
| WordleRuns.GuessesAreTold | client/web/src/games/wordle/WordleScene.js:219-226 | In every run the stored guesses are the resumed ones and then those announced one by one, in order |
| WordleRuns.EnteredWordIsStored | client/web/src/games/wordle/WordleScene.js:173-224 | Typing a word and enter stores exactly that word with its marks |
| WordleRuns.AnnouncesOnce | client/web/src/games/wordle/WordleScene.js:189-241 | In every run no guess spoils, with any keys during flips, completion is announced at most once, as the last event, with at most six guesses and no win before the last |
| WordleRuns.AnnouncesRightlyExactly | client/web/src/games/wordle/WordleScene.js:227-239 | In every run whose flips have ended that is so if and only if no guess was stored while a winning row was flipping, nor a sixth or later one while any row was |
| WordleRuns.LateSolutionGetsBoth | client/web/src/games/wordle/WordleScene.js:227-239 | The solution entered sixth while a wrong fifth row flips is announced as lost and then as won |
| WordleRuns.LateSolutionIsReachable | client/web/src/games/wordle/WordleScene.js:173-222 | From a new scene with four wrong guesses, typing reaches that |
| WordleRuns.ServerConfirms | client/web/src/games/wordle/WordleScene.js:227-239 | In every run no guess spoils, the server's score of the announced guesses wins exactly when the status is 'won', is 100 - 15(k - 1) for k guesses, and is no longer in progress |
| WordleRuns.ResumeAgrees | client/web/src/games/wordle/WordleScene.js:74-82 | On resume the scene is finished exactly when the server has the attempt no longer in progress |
| WordleRuns.BestIsMax | client/web/src/games/wordle/WordleScene.js:289-296 | The rank kept for a letter is attained and is the maximum over the cells read |
| WordleRuns.ColoursNeverWorsen | client/web/src/games/wordle/WordleScene.js:284-304 | In every run the rank a key shows never falls from any moment to any later one |
| WordleRuns.GreenStaysGreen | client/web/src/games/wordle/WordleScene.js:284-304 | In every run a key that is green stays green and one that is yellow never turns grey |
| WordleRuns.GreyKeyExactly | client/web/src/games/wordle/WordleScene.js:284-304 | For rows of any length, a key is coloured exactly if a shown cell has its letter, and is grey iff the solution lacks the letter exactly when it does lack it or a marked cell of it is shown, as always with rows that hold the solution |
| WordleRuns.KeysTellTheTruth | client/web/src/games/wordle/WordleScene.js:284-304 | The same in every run from a new scene; with no flip running every stored row is shown, and with rows that hold the solution the coloured keys are the guessed letters |
| WordleRuns.ShortRowGreysPresent | client/web/src/games/wordle/WordleScene.js:291-295 | For any two letters a resumed scene with a short row greys a letter of the solution |
| Handshakes.PerformHandshake | server/internal/ws/handshake.go:45-89 | For every first frame the result and the answer: an accepted token is answered ok with its uid, a refused one with invalid_token, and nothing else is answered |
| Handshakes.ReadLoop | server/internal/ws/conn.go:87-107 | Dispatches the decodable binary frames in order up to the first that fails, and passes over text |
| Handshakes.DispatchesLaws | server/internal/ws/conn.go:98-105 | Text is passed over; an undecodable frame ends the loop; a decodable one is dispatched and ends it exactly when refused |
| Handshakes.UpgradeHandler | server/internal/ws/conn.go:51-85 | With a verifier nothing is registered or dispatched unless the first frame authenticates, and the socket closes with 4001; else register, dispatches, unregister |
| Handshakes.DispatchesOnly | server/internal/ws/conn.go:98-106 | Whatever is dispatched was received as a decodable binary frame |
| WsClients.WsClient.OnMessage | client/web/src/net/ws.js:80-100 | The promise resolves exactly on becoming connected, and rejects exactly on a refused authentication |
| WsClients.WsClient.OnClose | client/web/src/net/ws.js:106-117 | Closing never settles the promise; reconnecting is scheduled exactly from 'connected' and unasked |
| WsClients.RunKeepsNetInv | client/web/src/net/ws.js:75-117 | In every run over FIFO sockets an accepting response on its way tells what the server accepted on that socket |
| WsClients.ConnectedWasAccepted | client/web/src/net/ws.js:92-95 | In every run a client 'connected' with uid u holds a socket whose own token the server accepted for u |
| WsClients.HandshakeSettles | client/web/src/net/ws.js:75-97 | In every run a connecting client can finish: accepted it is connected with the accepted uid, refused it is closed with the server's reason |

## Left out

- Handshakes.UpgradeHandler: does not model the origin check, read limit, timeouts or pings; a read that fails ends the frame list.
- HubSafety.RunKeepsInv: frames that are refused are no steps, since they change nothing the steps share; a match may have any players, the same at every join.
- RefTables.Go.StoreValue: requires room for one more entry below 2^32 - 1; beyond that JavaScript array semantics differ.
- WordleRuns.AnnouncesRightlyExactly: callbacks run in the order of the guesses; a scene that is started again while flips run is not modelled.
- WordleRuns.ServerConfirms: for solutions without outer white space, which `WinsAgreeExactly` shows to be needed, and runs no guess spoils, which `AnnouncesRightlyExactly` does.
- ServerScoring.Score: ASCII letters only; Go lowers and JavaScript raises case, and Unicode folding may differ.
- PairedBoards.GlobalIsMaxOfDailies: no store call fails between the two calls of a request.
- WsClients.ConnectedWasAccepted: one `connect` at a time; when a reconnect happens and whether it succeeds is not modelled.
- MongoStores.MongoStore.TopN: a closed client and driver errors are not modelled; results are those of a call that succeeds.
- Attempts.SubmitAttempt: bearer claims, JSON and status codes are not modelled; date parsing and the submit window are Boolean arguments.
- Protobuf encoding: an envelope carries its body decoded, or a body that does not decode.
- Sockets: a write to a peer always arrives; write timeouts and errors only log.
- User and puzzle records, match lists, export, ping and closing of the stores.
- Drawing, tweens, Svelte, sign-in and the event bus.
- The rest of `web/wasm_exec.js`: Reflect calls, timers, fs and process stubs; slots are pairs of 32-bit words and arithmetic on doubles is not modelled.
