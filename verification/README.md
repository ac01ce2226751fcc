# Sessions, zones, frames and bit tricks: a verified model

This project models the hard parts of the game's servers and of the vendored headers they build on,
and proves what those parts are for. It has no main program; `dafny verify dfyconfig.toml` checks all
of it.

| file | models |
|---|---|
| `AhoCorasick.dfy` | the trie and the multi-pattern matcher of `my_trie.h` |
| `LoginRegistry.dfy` | the login server's five session maps and two counters |
| `RouterNet.dfy`, `RouterObjects.dfy` | the router's servers, zones and users, as a value and as objects that share one another |
| `AtomicOps.dfy` | the compare-and-swap loops of `my_atomic.h`, for any interleaving of any number of threads |
| `SslPump.dfy` | the select loop between keyboard and SSL connection |
| `SkipSpace.dfy` | the word-at-a-time scan for trailing spaces |
| `ControlZones.dfy`, `LoadRound.dfy` | handing out zones, the game servers' zone tables, and one round of load reports |
| `ZoneLoop.dfy` | load averaging and time dilation of a zone |
| `Framing.dfy` | frames on the wire and the factory tables rebuilt for each of them |
| `Codec.dfy`, `Bits.dfy`, `Bitmap.dfy` | integer codecs, bit functions and bitmaps of the vendored headers |
| `Ascending.dfy`, `Options.dfy`, `Bytes.dfy` | ordered walks over number sets; missing values; the byte type |

Code that changes state in place is a class or a method over the same fields, proved to do exactly
what a function on values says; the theorems are about that function. A step that the C++ or C code
leaves undefined (an iterator past the end, an object that is already freed) is excluded by a
predicate whose name ends in `Defined`, and it is proved when such a step cannot happen.

Where the code does not do what it is meant to do, the model follows the code and a lemma says
exactly when it falls short:

- The matcher looks only at the node it stands on, so it misses a key that hides at the end of a
  longer path (`MissesNoKeyExactlyWhen`, `HiddenKeyIsMissed`).
- A login on a connection that is bound to another user, or one whose wrapped-around id is still live,
  breaks the maps (`LoginKeepsConsistent`); so does a logout from a foreign connection
  (`LogoutKeepsConsistent`). Over whole runs nothing else does (`RunConsistentExactlyWhen`).
- A router that starts empty never lists a zone on a server, nor a user in a zone: the end of a
  transfer wants the old server to be known, and a new zone has none. The comment at
  `servrouter/src/InstControl.cpp:38` promises an initialization that does not happen
  (`FreshRouterPlacesNothing`, `InitializePlacesExactlyWhen`, `NewUserPlacedExactlyWhen`).
- Putting a user into the zone it is already in takes it out of that zone's table (`UsersAgreeExactlyWhenSafe`).
- Deleting a user frees its object and leaves the entry behind. Any further use of the same
  number uses the freed object, exactly when an earlier deletion found the user
  (`UserIsSoundExactlyWhenNotDeleted`, `DeletedUserIsUsedAgain`).
- A failing read of the keyboard is followed by a write of length -1 (`FailedReadIsWritten`).
- An offline front server leaves its block of zones unassigned (`EveryZoneOwnedExactlyWhen`). With no
  server online the assignment never ends, and with the front server offline and fewer zones than
  servers it writes behind its table (`EndsInTableExactlyWhen`).
- The mask of a load round never reaches zero if a number below n has no server, or with fewer zones
  than servers (`MaskZeroExactlyWhen`, `FirstRoundEnds`, `EveryServerServedExactlyWhen`). Start-up leaves
  such a gap whenever a server is missing before one that answers (`WithoutGapExactlyWhen`).
- The sender takes protocol names of 8 bytes, which the receiver never reads back
  (`FrameDeliveredExactlyWhen`).
- A frame with an unknown instruction is given up after its header, and its payload is then read as the
  start of the next frame (`FrameRejectedExactlyWhen`, `RejectedPayloadIsReadOn`).
- The tables rebuilt for each frame answer every lookup as before, whatever protocol the frame names
  (`StreamKeepsLookups`), except after a frame that names "none" (`FrameKeepsLookupsExactlyWhen`,
  `FrameNamingNone`). The protocol name that senders put on their own frames does follow the frame
  received last (`StreamTables`, `TablesStayExactlyWhen`).
- `my_bit_log2` rounds down, its comment rounds up (`Log2MeetsItsComment`).

## Model

| member | source | states |
|---|---|---|
| `AhoCorasick.SuffixIsLongest` | mysqlDriver/include/my_trie.h:82-92 | the word the matcher remembers is the longest suffix of the text that labels a path |
| `AhoCorasick.ReadOneByte` | mysqlDriver/include/my_trie.h:82-92 | the longest suffix of text + byte depends on the text only through its own longest suffix, so one node is enough memory |
| `AhoCorasick.ReportIsLongestKey` | mysqlDriver/include/my_trie.h:68-80 | a non-zero answer is the length of the longest key that ends the text |
| `AhoCorasick.ReportExactlyWhen` | mysqlDriver/include/my_trie.h:78-92 | the answer is n > 0 if and only if the last n bytes of the text are a key and no longer suffix of the text is a path; if no key hides at the end of a longer path it is positive whenever a key ends the text |
| `AhoCorasick.MissesNoKeyExactlyWhen` | mysqlDriver/include/my_trie.h:78-92 | on all texts, a node that is a key is reached exactly when some key ends the text, if and only if no key hides at the end of a path that is not a key |
| `AhoCorasick.HiddenKeyIsMissed` | mysqlDriver/include/my_trie.h:78-92 | keys abc and b: after ab the key b ends the text and nothing is reported |
| `AhoCorasick.Trie.WordsArePrefixClosed` | mysqlDriver/include/my_trie.h:22-38 | in any linked-up trie the words of the nodes are closed under dropping the last byte, and every key is one of them |
| `AhoCorasick.Trie.Goto` | mysqlDriver/include/my_trie.h:55-65 | finds the child for the byte if the longer word exists; otherwise the root answers itself and any other node nothing |
| `AhoCorasick.Trie.Step` | mysqlDriver/include/my_trie.h:82-92 | from the node of the text read so far, the loop ends on the node of the longest suffix of text + byte and gives the answer of `ReportExactlyWhen`; each failure link is strictly shorter, so it ends |
| `AhoCorasick.Trie.Search` | mysqlDriver/include/my_trie.h:116-136 | true exactly for the keys of the trie |
| `AhoCorasick.Trie.SearchByGoto` | mysqlDriver/include/my_trie.h:55-65 | iterating the goto function without its root fallback answers the same as the search: true exactly for the keys |
| `AhoCorasick.AcTrieState.constructor` | mysqlDriver/include/my_trie.h:40-50 | a fresh state stands on the root and has read nothing |
| `AhoCorasick.AcTrieState.Next` | mysqlDriver/include/my_trie.h:82-92 | after every byte of every text the state again spells the longest suffix that is a path, and the answer is n > 0 exactly when the last n bytes are a key that no longer path covers |
| `LoginRegistry.LoginServer.LoginRequest` | servlogin/src/LoginRequest.cpp:26-75 | the five maps and both counters become those of `AfterLogin` (insert never overwrites), the id and token are the old counter, and the notices to the control server, none if it is not connected, name the superseded session with its token and then the new one |
| `LoginRegistry.LoginServer.Supersede` | servlogin/src/LoginRequest.cpp:39-52 | exactly the older session leaves all five maps, found through the user, and the count drops by one |
| `LoginRegistry.LoginServer.LogoutRequest` | servlogin/src/LogoutRequest.cpp:9-39 | the answer is 1 exactly for an unknown id, 2 exactly for a wrong token, 0 exactly for the right one; only on 0 the session leaves the maps, by the calling connection |
| `LoginRegistry.LoginServer.CallOnClose` | servlogin/src/ClientClosedConnection.cpp:8-24 | a connection that holds a session takes that session out of all five maps; any other changes nothing |
| `LoginRegistry.LoginKeepsConsistent` | servlogin/src/LoginRequest.cpp:30-67 | a login from consistent tables is always defined, and keeps them consistent if and only if its id is free and its connection is free or holds the superseded session |
| `LoginRegistry.LoginWithTakenId` | servlogin/src/LoginRequest.cpp:34-36 | with a wrapped-around id that is still live the tables always become inconsistent: no token is stored and the session is counted |
| `LoginRegistry.LoginWithTakenConnection` | servlogin/src/LoginRequest.cpp:62-63 | with a connection bound to another user the tables always become inconsistent: the connection keeps its older id, and the new id points at it too |
| `LoginRegistry.LogoutKeepsConsistent` | servlogin/src/LogoutRequest.cpp:22-30 | a logout answered 0 is defined and keeps the tables consistent if and only if it comes from the session's own connection |
| `LoginRegistry.CloseKeepsConsistent` | servlogin/src/ClientClosedConnection.cpp:12-21 | the loss of a connection is always defined and always keeps the tables consistent |
| `LoginRegistry.OneSessionEach` | servlogin/src/LoginRequest.cpp:62-65 | in consistent tables a user and a connection each have at most one session |
| `LoginRegistry.StepMeans` | servlogin/src/LoginRequest.cpp:26-85 | each of the three handlers does to the five maps together what the event means for the sessions |
| `LoginRegistry.RunConsistentExactlyWhen` | servlogin/src/LoginRequest.cpp:30-67 | the tables are consistent in every state of a run, also when the 32-bit counter wraps, if and only if each event came from its own connection and each successful login found its id unused |
| `LoginRegistry.RunMeans` | servlogin/src/LoginRequest.cpp:26-85 | in every state of every such run the five maps hold exactly the sessions that the events so far mean |
| `LoginRegistry.CounterComesRound` | servlogin/src/LoginRequest.cpp:66 | after n events the counter is the start value plus the successful logins, modulo 2^32 |
| `LoginRegistry.ComesBackExactlyWhen` | servlogin/src/LoginRequest.cpp:34-36 | an id that is over is live after an event if and only if the event is a successful login for which the counter stands at that id |
| `LoginRegistry.OverUntilReissued` | servlogin/src/LoginRequest.cpp:34-66 | also when the counter wraps, an id that is over stays over until a login is given it again |
| `LoginRegistry.ReplayedUntilReissued` | servlogin/src/LogoutRequest.cpp:12-15 | until then, replaying its logout is answered 1 and changes nothing, from whatever connection |
| `LoginRegistry.RunKeepsAhead` | servlogin/src/LoginRequest.cpp:34-67 | before the counter wraps the tables are consistent and the counter is ahead of every live id, in every state of every run |
| `LoginRegistry.OverForever` | servlogin/src/LoginRequest.cpp:34-66 | before the counter wraps, an id that is over at some point of a run is over at every later point |
| `LoginRegistry.ReplayedLogout` | servlogin/src/LogoutRequest.cpp:12-15 | before the counter wraps, replaying the logout of a session that is over is answered 1 and changes nothing, from whatever connection, at any later point of a run |
| `LoginRegistry.EndsExactly` | servlogin/src/LogoutRequest.cpp:8-46 | a live session ends at an event if and only if the event is its logout, the loss of its connection or a new login of its user |
| `RouterNet.RunListingsTrue` | servrouter/src/Router.cpp:85-240 | in every run, whatever the operations, a server lists only known zones that are on it |
| `RouterNet.RunHoldingsTrue` | servrouter/src/Router.cpp:181-240 | in every run, whatever the operations, a zone holds only users that are there and whose zone it is |
| `RouterNet.RunOnOneServer` | servrouter/src/Router.cpp:146-179 | in every run, in the middle of a transfer too, a zone is listed by at most one server, and that is its own |
| `RouterNet.ServersAgreeExactlyWhenSafe` | servrouter/src/Router.cpp:85-179 | each operation keeps the server index in agreement if and only if it is safe for it: a fresh server must not be named by a zone, a fresh zone's -1 must not be a server |
| `RouterNet.UsersAgreeExactlyWhenSafe` | servrouter/src/Router.cpp:181-240 | each operation keeps the user index in agreement if and only if it is safe for it: no user may live in a fresh zone, a fresh user's -1 must not be a zone, a move must move |
| `RouterNet.KeepsAgreementExactlyWhenSafe` | servrouter/src/Router.cpp:85-240 | both indexes stay in agreement if and only if both conditions hold |
| `RouterNet.ServersAgreeThroughout` | servrouter/src/Router.cpp:85-179 | the server index agrees in every state of a run if and only if each operation of the run was safe for it |
| `RouterNet.UsersAgreeThroughout` | servrouter/src/Router.cpp:181-240 | the user index agrees in every state of a run if and only if each operation of the run was safe for it |
| `RouterNet.FreedExactlyWhenDeleted` | servrouter/src/Router.cpp:229-240 | in every run of a fresh router the entry of a user is that of a freed object if and only if an earlier deletion found the user |
| `RouterNet.UserIsSoundExactlyWhenNotDeleted` | servrouter/src/Router.cpp:181-277 | in every run of a fresh router, registering, deleting, validating or connecting a user or sending to it is defined if and only if no earlier deletion found it; moving it between known zones needs its old zone known as well |
| `RouterNet.DeletedUserIsUsedAgain` | servrouter/src/Router.cpp:229-240 | add a user, delete it, and add or delete it again: the last message uses a freed object |
| `RouterNet.KnownInRun` | servrouter/src/Router.cpp:85-211 | in every run of a fresh router the servers and zones known are those last added and not deleted since, and the users those ever added |
| `RouterNet.UserInRun` | servrouter/src/Router.cpp:181-227 | in every run of a fresh router a user's token is the one that came last, its zone the target of the latest move that found user and zone, and its connection that of the latest ConnectUser that found it with a token other than 0, or none |
| `RouterNet.ZoneInRun` | servrouter/src/Router.cpp:146-179 | in every run of a fresh router a zone's server, target and transfer flag are where the starts and ends that took effect have brought them |
| `RouterNet.RecipientInRun` | servrouter/src/Router.cpp:252-259 | in every run of a fresh router what is sent to a server's users is for exactly the users not deleted, on the connection last given to them, whose last zone is on that server |
| `RouterNet.TransferHeadsForTarget` | servrouter/src/Zone.cpp:20-40 | in every run a zone in transfer heads for the target of the latest start that found zone and server |
| `RouterNet.MovesOnlyToLatestTarget` | servrouter/src/Router.cpp:146-179 | in every run a zone changes server only at an end of its transfer, and then to the target of the latest start |
| `RouterNet.MoveToSameServer` | servrouter/src/Router.cpp:171-174 | ending a transfer to the server the zone is on changes nothing but the transfer state |
| `RouterNet.FreshRouterPlacesNothing` | servrouter/src/Router.cpp:171-177 | no run of a fresh router ever lists a zone on a server or a user in a zone, unless -1 is registered as a number |
| `RouterNet.InitializePlacesExactlyWhen` | servrouter/src/InstControl.cpp:38-52 | the instruction that should initialize a server/zone pair places the zone if and only if its previous server is known or is the same one |
| `RouterNet.NewUserPlacedExactlyWhen` | servrouter/src/InstControl.cpp:55-62 | adding a new user and placing it is defined if and only if a zone numbered -1 is registered |
| `RouterObjects.Router.constructor` | servrouter/src/Router.cpp:65-75 | a fresh router is the empty net |
| `RouterObjects.Router.AddServer` | servrouter/src/Router.cpp:85-94 | a number not yet known gets a server without zones; all else, and the sharing of the objects, stays |
| `RouterObjects.Router.DelServer` | servrouter/src/Router.cpp:109-117 | the router forgets exactly that server; all else, and the sharing, stays |
| `RouterObjects.Router.AddZone` | servrouter/src/Router.cpp:121-130 | a number not yet known gets a zone without server and users; all else, and the sharing, stays |
| `RouterObjects.Router.DelZone` | servrouter/src/Router.cpp:132-144 | the zone goes and all else, and the sharing, stays; it is unlisted on the server it names, and as listings are true in every run no server keeps the deleted object |
| `RouterObjects.Router.StartZoneToServerTransfer` | servrouter/src/Router.cpp:146-155 | a target is noted only for a known zone and a known server |
| `RouterObjects.Router.EndZoneToServerTransfer` | servrouter/src/Router.cpp:157-179 | unlist, list and arrive only if a transfer is under way and both servers are known, else nothing |
| `RouterObjects.Router.SetUserToZone` | servrouter/src/Router.cpp:181-196 | join the new zone, leave the old one, settle, in this order; all else, and the sharing, stays |
| `RouterObjects.Router.AddUser` | servrouter/src/Router.cpp:200-211 | a new user belongs nowhere, a known one only gets a new token; all else, and the sharing, stays |
| `RouterObjects.Router.DelUser` | servrouter/src/Router.cpp:229-240 | the zone drops the user, the object is freed, the router's entry stays |
| `RouterObjects.Zone.StartTransfer` | servrouter/src/Zone.cpp:37-40 | notes the target and that a transfer is under way, and nothing else |
| `RouterObjects.Zone.EndTransfer` | servrouter/src/Zone.cpp:20-26 | moves to the noted target if a transfer is under way, else changes nothing |
| `RouterObjects.Zone.AddUser` | servrouter/src/Zone.cpp:43-50 | files a user that is not yet in the zone, under its own number |
| `RouterObjects.Zone.DelUser` | servrouter/src/Zone.cpp:52-57 | drops the user's entry and no other |
| `RouterObjects.Zone.SendToUsers` | servrouter/src/Zone.cpp:65-72 | exactly one copy to each connected user of the zone, in ascending order of their numbers |
| `RouterObjects.Server.AddZone` | servrouter/src/Server.cpp:20-26 | lists the zone object under its own number |
| `RouterObjects.Server.DelZone` | servrouter/src/Server.cpp:28-33 | drops the zone's entry and no other |
| `RouterObjects.Server.SendToUsers` | servrouter/src/Server.cpp:55-62 | exactly one copy to each connected user of each listed zone, in ascending order |
| `RouterObjects.Router.ValidateUser` | servrouter/src/Router.cpp:213-218 | stores the token it is given and answers whether the user is known and the token is not 0, as the assignment in `User::validate` does |
| `RouterObjects.Router.ConnectUser` | servrouter/src/Router.cpp:220-227 | stores the token, and the connection if that is not 0; all else, and the sharing, stays |
| `RouterObjects.Router.SendToUser` | servrouter/src/Router.cpp:270-277 | goes to the connection of a known and connected user, and else nowhere |
| `RouterObjects.Router.SendToServerUsers` | servrouter/src/Router.cpp:252-259 | in every state of a run nobody but the connected users whose zone is on the server gets a copy, and nobody gets two; where the indexes agree each of them gets one |
| `RouterObjects.Router.MeetsNoFreedUser` | servrouter/src/Router.cpp:252-259 | in every state of a run the walk over a server's zones meets only users that are there |
| `AtomicOps.RunKeepsInv` | mysqlDriver/include/my_atomic.h:66-85 | the invariant holds in every state of every interleaving of any number of threads |
| `AtomicOps.EveryRunIsLinearized` | mysqlDriver/include/my_atomic.h:16-35 | in every state of every interleaving the cell and every answer are those of a sequential run of the operations, one per call, each within its call, in real-time order |
| `AtomicOps.RunExplained` | mysqlDriver/include/my_atomic.h:19-35 | at any point of any run each operation but a store answered the value just before it took effect, and left what the header promises of it; a load changed nothing |
| `AtomicOps.CallAndReturn` | mysqlDriver/include/my_atomic.h:66-85 | a call enters the history, and a finished thread's next step returns its result |
| `AtomicOps.AloneReturns` | mysqlDriver/include/my_atomic.h:66-85 | a thread left alone returns after at most three steps, with the result and the effect of its operation on the value it found |
| `AtomicOps.RunFits` | mysqlDriver/include/my_atomic.h:37-38 | if all calls are for cells of one width, the cell and every answer stay in its range |
| `AtomicOps.LostOnlyToOthers` | mysqlDriver/include/my_atomic.h:66-76 | an attempt fails only if operations of other calls took effect since the thread last looked |
| `AtomicOps.AttemptsBounded` | mysqlDriver/include/my_atomic.h:66-76 | a thread loses at most as many attempts as operations took effect since it started |
| `SslPump.RoundKeepsInvExactlyWhen` | cliente/testsVarios/read_write.c:28-143 | one turn of the loop keeps the invariant if and only if it does not run into a failing read of the keyboard |
| `SslPump.RunsKeepInv` | cliente/testsVarios/read_write.c:28-143 | in every run without such a failure: accepted bytes = sent bytes + the pending slice, in order; the keyboard is read only when nothing is pending; no write has length 0; a blocked write is repeated with the same place, length and bytes |
| `SslPump.ReadsMade` | cliente/testsVarios/read_write.c:52-95 | the do loop reads up to the first answer after which nothing is pending, and ends running, closed or failed, and waiting to write, as that answer says |
| `SslPump.TurnCallsExactlyWhen` | cliente/testsVarios/read_write.c:31-143 | a turn reads the socket, reads the keyboard, writes and shuts down exactly when the descriptors, the flags and the answers call for it |
| `SslPump.KeyboardIsAccepted` | cliente/testsVarios/read_write.c:99-107 | what is read of the keyboard is accepted and pending; its end is answered by a shutdown, which ends the loop if it is complete |
| `SslPump.PendingIsWritten` | cliente/testsVarios/read_write.c:110-141 | a turn that writes points one call at the whole pending slice; what that takes is sent and no longer pending, at least a byte unless it blocks or fails |
| `SslPump.PendingGetsOut` | cliente/testsVarios/read_write.c:28-143 | if each of the next turns that finds bytes pending writes some, after at most as many turns as bytes all that was accepted has been sent |
| `SslPump.FailedReadIsWritten` | cliente/testsVarios/read_write.c:100-115 | after a failing read of the keyboard the next writable socket gets a write of length -1 |
| `SslPump.Loop.ReadSocket` | cliente/testsVarios/read_write.c:52-95 | the do loop makes the calls and leaves the flags of `AfterReads` |
| `SslPump.Loop.ReadKeyboard` | cliente/testsVarios/read_write.c:99-107 | the buffer, length, offset and shutdown calls are those of `AfterStdin` |
| `SslPump.Loop.WriteSocket` | cliente/testsVarios/read_write.c:112-141 | the length, offset and flag are those of `AfterWrite` |
| `SslPump.Loop.Turn` | cliente/testsVarios/read_write.c:29-142 | one turn: which descriptors are asked for, and the three parts in order, are those of `AfterRound` |
| `SslPump.ReadWrite` | cliente/testsVarios/read_write.c:8-149 | the whole loop makes the calls and ends in the state of `AfterRounds` |
| `SkipSpace.SpaceWords` | mysqlDriver/include/m_string.h:361-385 | SPACE_INT for 4 and 8 byte words is a word of spaces |
| `SkipSpace.WordOfSpaces` | mysqlDriver/include/m_string.h:378-379 | one comparison of words holds exactly when all bytes are spaces |
| `SkipSpace.TrimmedLengthIs` | mysqlDriver/include/m_string.h:382-384 | a length is the trimmed one if and only if only spaces follow and none precedes |
| `SkipSpace.SkipWords` | mysqlDriver/include/m_string.h:378-379 | the loop over words stays in the buffer and passes over nothing but spaces |
| `SkipSpace.SkipTrailingSpace` | mysqlDriver/include/m_string.h:361-385 | for every buffer, length, address and word size the result is that of the byte-by-byte scan; every access is inside the buffer |
| `ControlZones.OwnerIsOnline` | servcontrol/src/Control.cpp:226-267 | a zone outside the block, or any zone if the front server is online, goes to an online server |
| `ControlZones.EveryZoneOwnedExactlyWhen` | servcontrol/src/Control.cpp:216-269 | every zone gets an online server if and only if the front server is online or the block is empty |
| `ControlZones.OwnerExactly` | servcontrol/src/Control.cpp:226-267 | the block goes to the front server if that is online and else to nobody; the zones after it go to the online servers in the order of the list, round by round |
| `ControlZones.RankCounts` | servcontrol/src/Control.cpp:246-247 | a server's rank is the number of servers before it in the list that are online |
| `ControlZones.FairShares` | servcontrol/src/Control.cpp:216-269 | apart from the block, the shares of any two online servers differ by at most one |
| `ControlZones.ShareIsShare` | servcontrol/src/Control.cpp:256-258 | a server's share lists exactly the zones it owns, once each, ascending |
| `ControlZones.OrdersBringShares` | servcontrol/src/Control.cpp:228-249 | the orders sent to a server bring it exactly its share, in order |
| `ControlZones.EndsInTableExactlyWhen` | servcontrol/src/Control.cpp:216-269 | the assignment ends without writing behind its table if and only if there is no zone, or a server is online and either the front server is or its block leaves zones over |
| `ControlZones.NeverEnds` | servcontrol/src/Control.cpp:245-267 | with no server online the second loop goes round without an effect for ever |
| `ControlZones.LeavesTable` | servcontrol/src/Control.cpp:245-267 | started behind the last zone, with a server online, the second loop has written behind the table after its first walk and ever after |
| `ControlZones.WithoutGapExactlyWhen` | servcontrol/src/Control.cpp:169-183 | the numbers start-up gives are those below the count of servers if and only if no server is missing before one that answers |
| `ControlZones.Control.Assign` | servcontrol/src/Control.cpp:228-240 | one assignment sends the order and notes zone and server in both tables |
| `ControlZones.Control.GiveBlock` | servcontrol/src/Control.cpp:226-242 | the first loop hands the block to the front server, or passes over it while that is offline |
| `ControlZones.Control.Serve` | servcontrol/src/Control.cpp:247-264 | a server takes the zone if and only if it is online |
| `ControlZones.Control.WalkServers` | servcontrol/src/Control.cpp:246-266 | one walk of the second loop hands each online server one zone, returns at the last zone, and leaves zoneIndex and zonesRestants as `WalkFrom` says |
| `ControlZones.Control.ZoneAssignment` | servcontrol/src/Control.cpp:216-269 | whenever it ends inside its table: every order is sent, every distribution is the server's share, zoneServer the owners, and its loops are those of `Walks` |
| `LoadRound.GameServer.StartZone` | servjuego/src/GameServer.cpp:80-91 | starts a zone that is not there yet, and nothing else |
| `LoadRound.GameServer.SetZoneToServer` | servjuego/src/InstControl.cpp:64-70 | the first order fixes the server number; orders for another number are dropped |
| `LoadRound.GameServer.SendZoneLoads` | servjuego/src/GameServer.cpp:168-187 | one report per zone of the table, ascending, with its load and a countdown that ends at 0 |
| `LoadRound.OnlyOwnOrdersCount` | servjuego/src/InstControl.cpp:64-70 | for any row of orders, the number is that of the first if there was none, only orders for that number start zones, running zones keep their load and new ones have none |
| `LoadRound.OrdersAddUp` | servjuego/src/InstControl.cpp:64-70 | the table after any row of orders holds the old zones and the ordered ones |
| `LoadRound.TableMatchesAssignment` | servjuego/src/InstControl.cpp:64-70 | once its orders are delivered a game server's table holds exactly the zones the control server's rule gives it |
| `LoadRound.LoadControl.constructor` | servcontrol/src/Control.cpp:380-383 | the mask starts with one bit for each of n servers |
| `LoadRound.LoadControl.Note` | servcontrol/src/ServerLoad.cpp:15-22 | every entry about the zone takes the load and adds it to the total; no other entry changes |
| `LoadRound.LoadControl.ServerLoad` | servcontrol/src/ServerLoad.cpp:6-36 | the books become those of `AfterReport`: the right server's sheet, and its mask bit if the countdown is at 0 |
| `LoadRound.TotalsAddUp` | servcontrol/src/ServerLoad.cpp:13-22 | in every interleaving, at every point, each total is the sum of the loads that server has reported so far |
| `LoadRound.MaskFollows` | servcontrol/src/ServerLoad.cpp:24-31 | in every interleaving a bit is down exactly if it was down before or its server has made its last report |
| `LoadRound.MaskZeroExactlyWhen` | servcontrol/src/Control.cpp:380-415 | in every interleaving the mask is zero if and only if each number below n has a server and that server has made its last report |
| `LoadRound.FirstRoundEnds` | servcontrol/src/Control.cpp:374-415 | from start-up to the end of the first round, whichever servers are online and whatever their numbers: for every interleaving and all loads, each entry holds its zone's load, each total is the sum of that server's loads and the mask is zero if and only if every number below n is that of a server with a zone |
| `LoadRound.AllServingExactlyWhen` | servcontrol/src/Control.cpp:217-267 | with all servers online and the numbers below n given to them, that is so if and only if there are at least as many zones as servers |
| `LoadRound.EveryServerServedExactlyWhen` | servcontrol/src/Control.cpp:217-267 | with all servers online each has a zone to report, so that the mask can reach zero, if and only if there are at least as many zones as servers |
| `ZoneLoop.WindowsAreSeconds` | servjuego/src/ZoneHandler.cpp:180-183 | every window closes at the first step that brings it to a second |
| `ZoneLoop.WindowsAdjoin` | servjuego/src/ZoneHandler.cpp:216-217 | the windows lie end to end from the first step on, and the open one begins where the last ended |
| `ZoneLoop.LoadOfEachWindow` | servjuego/src/ZoneHandler.cpp:183-192 | every reported load is in [0, 1] and is the clamped affine image of the mean step time of its own window |
| `ZoneLoop.LoadIsShare` | servjuego/src/ZoneHandler.cpp:184-192 | the load is 0 exactly when the mean is at most the lower step time, 1 exactly when it is at least the upper one, and in between the mean is the lower one plus the load times the difference |
| `ZoneLoop.EachLoadIsShare` | servjuego/src/ZoneHandler.cpp:180-192 | that is so of each reported load and the mean step time of its own window |
| `ZoneLoop.LoadGrows` | servjuego/src/ZoneHandler.cpp:184-192 | more step time never gives less load |
| `ZoneLoop.StrainCounts` | servjuego/src/ZoneHandler.cpp:195-207 | the exponent of the delay counts the loads over the boundary since the last one below it |
| `ZoneLoop.PowerBounds` | servjuego/src/ZoneHandler.cpp:197 | the delay is in (0, 1], and is 1 exactly when the exponent is 0 |
| `ZoneLoop.GameTimeOn` | servjuego/src/ZoneHandler.cpp:168 | each step adds the time of the step before, slowed down as often as the strain says |
| `ZoneLoop.SlowedByDelay` | servjuego/src/ZoneHandler.cpp:168 | a time slowed down k times is the time multiplied by the delay |
| `ZoneLoop.GameClockUndelayed` | servjuego/src/ZoneHandler.cpp:168 | as long as no load is over the boundary the game clock shows real time |
| `ZoneLoop.GameClockNeverAhead` | servjuego/src/ZoneHandler.cpp:168-171 | the game time handed out is never negative and never more than the real time of the steps it stands for |
| `ZoneLoop.ZoneHandler.StepTime` | servjuego/src/ZoneHandler.cpp:168 | the time handed to a step is the previous step's, slowed down |
| `ZoneLoop.ZoneHandler.CloseWindow` | servjuego/src/ZoneHandler.cpp:184-207 | the load is the share of the mean, and the delay is multiplied by decreaser over the boundary, 1 below it, and else as it was |
| `ZoneLoop.ZoneHandler.StartThread` | servjuego/src/ZoneHandler.cpp:157-222 | for any run of step times the loop's load, delay and game time are the last window's load, decreaser to the power of the strain, and the sum of the slowed times |
| `Framing.IntRoundTrip` | conexion/source/TCPConnectionSecurity.cpp:250-252 | every 32-bit int survives memcpy into and out of a buffer |
| `Framing.TransferableFactory.SetProtocol` | conexion/source/TransferableFactory.cpp:42-70 | whatever was loaded before, the tables afterwards have exactly the keys of the profile's offer, each with the value of its first entry |
| `Framing.TransferableFactory.Clear` | conexion/source/TransferableFactory.cpp:16-20 | clears the name and both tables |
| `Framing.CStringOfField` | conexion/source/TCPConnectionSecurity.cpp:251 | for every name of up to 8 bytes: it reads back from its field, whatever follows in memory, if and only if it is shorter than 8 bytes |
| `Framing.LookupsAnswer` | conexion/source/TransferableFactory.cpp:77-98 | then a lookup finds the value of the first entry of its key, and nothing if there is none |
| `Framing.KnownExactlyWhen` | conexion/source/TransferableFactory.cpp:89-98 | an instruction is known exactly when the profile offers a creator for it under that name |
| `Framing.FrameLayout` | conexion/source/TCPConnectionSecurity.cpp:250-253 | what stands where in a frame: size, name with its 0, instruction, payload |
| `Framing.FrameRejectedExactlyWhen` | conexion/source/TCPConnectionSecurity.cpp:376-385 | a frame is given up after its header if and only if it names a protocol that can be loaded but an unknown instruction |
| `Framing.RejectedPayloadIsReadOn` | conexion/source/TCPConnectionSecurity.cpp:376-385 | then its payload is read as the start of the next frame |
| `Framing.FrameDeliveredExactlyWhen` | conexion/source/TCPConnectionSecurity.cpp:340-417 | a frame under any name the sender accepts is delivered as its message and takes exactly its bytes if and only if the name is shorter than 8 bytes and knows the instruction |
| `Framing.StreamKeepsLookups` | conexion/source/TransferableProfile.cpp:14-20 | with a profile that does not look at the name, as none here does, no lookup changes at any point of any stream of frames, under whatever names |
| `Framing.BytesKeepLookups` | conexion/source/TransferableProfile.cpp:14-20 | with such a profile any bytes at all leave either every lookup as it was or no protocol loaded |
| `Framing.FrameKeepsLookupsExactlyWhen` | conexion/source/TransferableProfile.cpp:14-20 | with such a profile and a non-empty offer a frame keeps every lookup if and only if it does not name no protocol |
| `Framing.FrameKeepsLookupsOfOffers` | conexion/source/TransferableFactory.cpp:42-64 | with any profile, a frame under an offered name keeps the lookups if and only if that offer fills the same tables as the loaded one |
| `Framing.FrameKeepsTablesExactlyWhen` | conexion/source/TransferableFactory.cpp:42-64 | the protocol name that senders stamp on frames stays as well if and only if the frame names the loaded protocol, or one that is refused while nothing is loaded |
| `Framing.FrameNamingNone` | conexion/source/TransferableFactory.cpp:42-64 | a frame that names no protocol is rejected and leaves no class with a number, so nothing can be sent |
| `Framing.StreamTables` | conexion/source/TCPConnectionSecurity.cpp:375-378 | after a stream the tables are those of the protocol its last frame names |
| `Framing.TablesStayExactlyWhen` | conexion/source/TCPConnectionSecurity.cpp:375-378 | the rebuild for each frame leaves the tables and the protocol name as they are at every point of a stream if and only if every frame names the loaded protocol |
| `Framing.StreamRoundTrip` | conexion/source/TCPConnectionSecurity.cpp:234-275 | frames of any list of messages, each under its own known name, come back as that list and use up the stream, whatever pads the names |
| `Framing.CutStream` | conexion/source/TCPConnectionSecurity.cpp:351-408 | a stream cut anywhere yields exactly the messages that were whole before the cut |
| `Framing.Link.Send` | conexion/source/TCPConnectionSecurity.cpp:231-277 | writes the frame byte by byte, or up to the failing write, and nothing if offline, for too long a name or an unknown class |
| `Framing.Link.Read` | conexion/source/TCPConnectionSecurity.cpp:351-369 | the loop returns exactly the next bytes, or closes when they run out |
| `Framing.Link.Examine` | conexion/source/TCPConnectionSecurity.cpp:375-385 | gives the verdict of the profile, whatever was loaded before, and leaves the tables of the protocol named |
| `Framing.Link.ReceiveTransf` | conexion/source/TCPConnectionSecurity.cpp:340-421 | one call has the outcome of `ReceiveOne`, leaves the stream after the bytes taken, and the tables of `TablesAfter` |
| `Framing.Link.ReceiveThread` | conexion/source/TCPConnectionSecurity.cpp:329-338 | the loop delivers exactly the messages of `ReceiveAll` and leaves the tables of `TablesAfterAll` |
| `Codec.HighRoundTrip` | mysqlDriver/include/myisampack.h:84-125 | the high-byte-first notation gives back every number that fits |
| `Codec.LowRoundTrip` | mysqlDriver/include/my_global.h:1284-1312 | the low-byte-first notation gives back every number that fits |
| `Codec.ValueRoundTrip` | mysqlDriver/include/myisampack.h:42-79 | every row of bytes is the notation of its value |
| `Codec.LowIsReversed` | mysqlDriver/include/my_global.h:1284-1312 | the low-byte-first bytes are the high-byte-first ones reversed |
| `Codec.BytesOrderLikeNumbers` | mysqlDriver/include/myisampack.h:84-125 | rows of one width compare byte by byte as their unsigned values do |
| `Codec.SignedRoundTrip` | mysqlDriver/include/myisampack.h:27-41 | two's complement in n bytes gives back every number in its range |
| `Codec.SignedOrderExactlyWhen` | mysqlDriver/include/myisampack.h:27-41 | two different stored signed numbers compare byte by byte like numbers if and only if their signs agree |
| `Codec.LoadsUndoStores` | mysqlDriver/include/myisampack.h:42-125 | for widths 2 to 8 (2 to 6 and 8 low byte first) the unsigned load undoes the store |
| `Codec.SignedLoadsUndoStores` | mysqlDriver/include/myisampack.h:27-41 | for widths 2, 3, 4 and 8 of either header the sign-extending load undoes the store |
| `Codec.MiUint2Korr` | mysqlDriver/include/myisampack.h:42-43 | the shifted and added bytes are the value of the first 2 bytes, high byte first |
| `Codec.MiUint3Korr` | mysqlDriver/include/myisampack.h:44-46 | the shifted and added bytes are the value of the first 3 bytes, high byte first |
| `Codec.MiUint4Korr` | mysqlDriver/include/myisampack.h:47-50 | the shifted and added bytes are the value of the first 4 bytes, high byte first |
| `Codec.MiUint5Korr` | mysqlDriver/include/myisampack.h:51-55 | the shifted and added bytes are the value of the first 5 bytes, high byte first |
| `Codec.MiUint6Korr` | mysqlDriver/include/myisampack.h:56-62 | the shifted and added bytes are the value of the first 6 bytes, high byte first |
| `Codec.MiUint7Korr` | mysqlDriver/include/myisampack.h:63-70 | the shifted and added bytes are the value of the first 7 bytes, high byte first |
| `Codec.MiUint8Korr` | mysqlDriver/include/myisampack.h:71-79 | the shifted and added bytes are the value of the first 8 bytes, high byte first |
| `Codec.MiSint2Korr` | mysqlDriver/include/myisampack.h:27-28 | the two's complement value of the first 2 bytes, high byte first |
| `Codec.MiSint3Korr` | mysqlDriver/include/myisampack.h:29-36 | the two's complement value of the first 3 bytes, high byte first |
| `Codec.MiSint4Korr` | mysqlDriver/include/myisampack.h:37-40 | the two's complement value of the first 4 bytes, high byte first |
| `Codec.MiSint8Korr` | mysqlDriver/include/myisampack.h:41 | the two's complement value of the first 8 bytes, high byte first |
| `Codec.MiInt2Store` | mysqlDriver/include/myisampack.h:84-86 | writes the 2 low digits high byte first in place, and no other byte |
| `Codec.MiInt3Store` | mysqlDriver/include/myisampack.h:87-92 | writes the 3 low digits high byte first in place, and no other byte |
| `Codec.MiInt4Store` | mysqlDriver/include/myisampack.h:93-97 | writes the 4 low digits high byte first in place, and no other byte |
| `Codec.MiInt5Store` | mysqlDriver/include/myisampack.h:98-104 | writes the 5 low digits high byte first in place, and no other byte |
| `Codec.MiInt6Store` | mysqlDriver/include/myisampack.h:105-112 | writes the 6 low digits high byte first in place, and no other byte |
| `Codec.MiInt7Store` | mysqlDriver/include/myisampack.h:113-121 | writes the 7 low digits high byte first in place, and no other byte |
| `Codec.MiInt8Store` | mysqlDriver/include/myisampack.h:122-125 | writes the 8 low digits high byte first in place, and no other byte |
| `Codec.Uint2Korr` | mysqlDriver/include/my_global.h:1255-1256 | the value of the first 2 bytes, low byte first |
| `Codec.Uint3Korr` | mysqlDriver/include/my_global.h:1257-1259 | the value of the first 3 bytes, low byte first |
| `Codec.Uint4Korr` | mysqlDriver/include/my_global.h:1260-1263 | the value of the first 4 bytes, low byte first |
| `Codec.Uint5Korr` | mysqlDriver/include/my_global.h:1264-1268 | the value of the first 5 bytes, low byte first |
| `Codec.Uint6Korr` | mysqlDriver/include/my_global.h:1269-1274 | the value of the first 6 bytes, low byte first |
| `Codec.Uint8Korr` | mysqlDriver/include/my_global.h:1275-1283 | the value of the first 8 bytes, low byte first |
| `Codec.Sint2Korr` | mysqlDriver/include/my_global.h:1240-1241 | the two's complement value of the first 2 bytes, low byte first |
| `Codec.Sint3Korr` | mysqlDriver/include/my_global.h:1242-1249 | the two's complement value of the first 3 bytes, low byte first |
| `Codec.Sint4Korr` | mysqlDriver/include/my_global.h:1250-1253 | the two's complement value of the first 4 bytes, low byte first |
| `Codec.Sint8Korr` | mysqlDriver/include/my_global.h:1254 | the two's complement value of the first 8 bytes, low byte first |
| `Codec.Int2Store` | mysqlDriver/include/my_global.h:1284-1287 | writes the 2 low digits low byte first in place, and no other byte |
| `Codec.Int3Store` | mysqlDriver/include/my_global.h:1288-1292 | writes the 3 low digits low byte first in place, and no other byte |
| `Codec.Int4Store` | mysqlDriver/include/my_global.h:1293-1296 | writes the 4 low digits low byte first in place, and no other byte |
| `Codec.Int5Store` | mysqlDriver/include/my_global.h:1297-1302 | writes the 5 low digits low byte first in place, and no other byte |
| `Codec.Int6Store` | mysqlDriver/include/my_global.h:1303-1309 | writes the 6 low digits low byte first in place, and no other byte |
| `Codec.Int8Store` | mysqlDriver/include/my_global.h:1310-1312 | writes the 8 low digits low byte first in place, and no other byte |
| `Bits.BitLog2` | mysqlDriver/include/my_bit.h:16-21 | for words of any width the loop counts to the position of the highest bit |
| `Bits.Log2MeetsItsComment` | mysqlDriver/include/my_bit.h:11-21 | the comment's promise, the least exponent that reaches the value, holds if and only if the value is 0 or a power of two; otherwise the least exponent is one more |
| `Bits.HighestBounds` | mysqlDriver/include/my_bit.h:70-90 | the word lies from its highest power of two up to the next one, exclusive |
| `Bits.ValueOfHighest` | mysqlDriver/include/my_bit.h:16-21 | as a number, the highest power of two in a word is two to its logarithm |
| `Bits.ValueOfRest` | mysqlDriver/include/my_bit.h:81-90 | as a number, a word without its highest power of two is less by that power |
| `Bits.RoundUpToNextPower` | mysqlDriver/include/my_bit.h:70-79 | the least power of two not below v for v from 1 to 2^31, and 0 for every other v; as a number, two to the logarithm of v - 1, plus one |
| `Bits.ClearHighestBit` | mysqlDriver/include/my_bit.h:81-90 | v without its highest power of two; as a number, v less two to its logarithm |
| `Bits.ReverseBitsMirrors` | mysqlDriver/include/my_bit.h:92-99 | with a right byte table each byte of the result is the reversed opposite byte |
| `Bits.MirroredBit` | mysqlDriver/include/my_bit.h:92-99 | then bit k of the result is bit 31 - k of the word |
| `Bits.ReverseBitsTwice` | mysqlDriver/include/my_bit.h:92-99 | with a right byte table, reversing twice gives back every word |
| `Bitmap.OneIsShifted` | mysqlDriver/include/my_bitmap.h:99-106 | the bit for position k of a byte is 1 shifted k places |
| `Bitmap.Map.Contains` | mysqlDriver/include/my_bitmap.h:105-106 | the tested bit is a member of the set |
| `Bitmap.Map.SetBit` | mysqlDriver/include/my_bitmap.h:99-100 | adds the bit to the set; no other bit of the buffer changes, padding included |
| `Bitmap.Map.FlipBit` | mysqlDriver/include/my_bitmap.h:101-102 | adds or removes the bit; no other bit of the buffer changes |
| `Bitmap.Map.ClearBit` | mysqlDriver/include/my_bitmap.h:103-104 | removes the bit; no other bit of the buffer changes |
| `Bitmap.MaskedEqualExactlyWhen` | mysqlDriver/include/my_bitmap.h:150-155 | with the padding set, the buffers are equal if and only if the sets are, and no set changes |
| `Bitmap.Compare` | mysqlDriver/include/my_bitmap.h:150-155 | true if and only if the two sets agree, whatever the padding held and even if the buffer is shared; both sets stay as they were |

## Left out

- Sockets, OpenSSL, certificates, threads and sleeps: what they answer is an input; a handler that runs under a mutex is one step.
- SQL queries and password hashes of the login server: the verdict is a parameter of the login.
- LoginRegistry.LoginServer.LoginRequest: the message to the control server after a failed login carries uninitialised numbers and is not described; the client's answer is modelled as its code and numbers only.
- LoginRegistry.OverForever: ends before the 32-bit id counter wraps, as does LoginRegistry.ReplayedLogout; for all runs these hold until the id is given out again (`OverUntilReissued`, `ReplayedUntilReissued`).
- RouterObjects.Router.ConnectUser: a connection that is replaced is deleted in the original, which the model does not show; `User::validate` is modelled as the assignment it is (`servrouter/src/User.cpp:30`).
- `Router::sendToZone`: its condition is inverted (`servrouter/src/Router.cpp:265`).
- RouterObjects.Router.SetUserToZone: does not say what the use of an unknown old zone or of a freed user does, which C++ leaves undefined; nor do RouterObjects.Router.AddUser and RouterObjects.Router.DelUser for a freed user. When this happens is `UserIsSoundExactlyWhenNotDeleted`.
- `Router::clear`, `connectServer` and the server's own connection.
- `Control::balance` and every load round after the first: the mask is never set again.
- ControlZones.Control.ZoneAssignment: which servers are online is fixed while it runs; the method needs the condition of `EndsInTableExactlyWhen`, without which the original runs for ever or writes behind its table.
- LoadRound.LoadControl.ServerLoad: the numbers of the listed servers are below 32, the width of the shifted word; reports with other numbers are ignored, as in the original.
- LoadRound.LoadControl.constructor: takes 1 to 32 servers; for none, and for 33 to 50, the original shifts a word by its width or more, which has no defined result.
- LoadRound.TotalsAddUp: loads are real numbers, so the order of additions does not matter.
- ZoneLoop.ZoneHandler.StartThread: step times are real numbers given from outside (the original's clock counts whole seconds); the sleep of a fast step does not change its measured time and is left out, as are stress calls, statistics and changes of the settings while the loop runs.
- Zone receive, detach and stop, client tables, and the router's zone change, which are stubs or bookkeeping beside the zone tables.
- `ac_trie_prepare`, `trie_insert` and `ac_trie_init` are only declared in the header: `Trie.Valid` and `Trie.FailLinked` say what they must leave behind.
- AhoCorasick.Trie.KeyMark: the depth mark is unbounded, while the header's is 16 bits wide.
- AtomicOps.EveryRunIsLinearized: the machine's own compare-and-swap and the lock-based fallback are taken as given; the plain read of the cell is not torn.
- SslPump.Loop.ReadSocket: what is read of the socket is recorded as the answers to SSL_read; the screen it is written to is not modelled.
- SkipSpace.SkipTrailingSpace: words of 4 and 8 bytes; a buffer at an address below the word size is not excluded.
- Framing.Link.Send: `sendAnswer` writes the same frame without asking whether the link is online.
- Framing.Link.ReceiveTransf: a protocol name that the profile throws on (none here does, but the functions are virtual and declared to), one without a terminating 0, and a negative size have no defined effect in the original and end the model's stream; the objects built from payloads are not modelled.
- Framing.FrameDeliveredExactlyWhen: a protocol name contains no 0 byte.
- Codec.MiInt5Store: the header's `ulong` is taken as 32 bits wide where it holds a half of the number; only the low 8 bits of each shift are stored, so a wider one stores the same bytes.
- Codec.Sint3Korr: the bitwise or of bytes in different places is written as their sum.
- Float and double codecs, and the unaligned x86 forms of the integer ones.
- Bit counting by table.
- Bitmap.Compare: two bitmaps of one non-zero size, as the mask of the last word needs one; `create_last_word_mask` is only declared, so its result is a precondition.
