# The chat server, modelled and proved in Dafny

OjalvoChat is a chat server in C. One thread per client reads newline-terminated JSON messages and
updates a table of users and a table of rooms that all threads share. Each room keeps two users tables
of its own, members and guests, which hold *copies* of user records (`report/main.tex:260`), so every
handler has to keep all copies in step, whether its sends succeed or not.

The project proves that it does: the server with copies behaves, over every run, like a server whose
rooms hold only usernames. What users are promised (who gets into a room, who receives what, what is
left of somebody who disconnects) is then proved on the simple server and carried over.

| file | what it is about |
|---|---|
| `Base.dfy` | options, user records, limits of names |
| `Messages.dfy` | messages and their JSON trees: the codec |
| `UserTables.dfy` | a users table as a value: an index by name and one by descriptor |
| `UsersTable.dfy` | the same table as objects that both indexes share and update in place |
| `Protocol.dfy` | the server with copies: every handler, for every outcome of every send and every iteration order |
| `NameServer.dfy` | the simple server: one record per user, rooms of usernames |
| `Refinement.dfy` | every handler of the one is the handler of the other, written out with its copies |
| `Effects.dfy` | what one line can do to rooms and to the log |
| `Runs.dfy` | refinement and invariants over whole runs |
| `Provenance.dfy` | how anybody came into a room |
| `Delivery.dfy` | what the log of a run holds |
| `Handlers.dfy` | broadcasts, DISCONNECT, INVITE, JOIN_ROOM and the user lists, from any consistent state |
| `Outcomes.dfy` | what every line does, told without any part of the handlers, all messages written out |
| `Answers.dfy` | every entry of a log traced back to the line that made it, and every answer that a line expects |
| `Tables.dfy` | all tables of a server on the heap, none sharing anything with another |
| `Server.dfy` | the handlers as methods that update those tables step by step |
| `Framing.dfy` | the byte buffer of a connection, its lines, and sanitizing in place |
| `Utf8.dfy` | UTF-8 after sections 3 and 4 of RFC 3629, and sanitizing |
| `Client.dfy` | the thread of one client: receive, drain, dispatch |
| `Traces.dfy` | sequences of moves and the states they lead to |
| `Races.dfy` | threads racing for names, one step per call on the users table |
| `Snapshots.dfy` | threads that carry copies of records from the users table to the rooms |
| `Locks.dfy` | threads and mutexes, one step per lock or unlock |

How it is modelled:

- Sending is an oracle `Env.delivers`, indexed by the position in the log, and each send appends an
  entry to the log. Iteration order is an oracle `Env.order` that visits every key once. Both are
  arbitrary, so the theorems hold for every pattern of failures and every order.
- In `Protocol` a handler is one atomic step. `Races`, `Snapshots` and `Locks` have finer steps for the
  claims about threads.
- `Servers.Server` has a method for each handler. Those with loops and arrays have rows below; the others
  are the straight-line ones that `Servers.Server.Process` dispatches to, each proved to do what its
  function in `Protocol` does. All of them work on the tables of `Tables.Store`, whose two indexes share
  mutable records.
- `Outcomes.Does` tells for every command who is sent what, in which order, and what users and rooms there
  are afterwards. It uses no function of the handlers, so it also says what their common parts (cutting
  names, building answers and news, reading the list of invited users) have to compute.
- A run is a sequence of inputs: a descriptor, and the message a line decodes to, or nothing when the
  line is no message (then the client is told so and disconnected).
- Strings are C strings, one `char` per byte; C `int`s used as descriptors are unbounded and not negative.

Findings, each stated by lemmas as an exact condition or a witness:

- A failed send in a room makes the thread take the rooms mutex while it holds it
  (`server/src/message_handler.c:643-647`, then line 83). Exactly the calls with such a failure break
  the order of the mutexes, and the thread waits forever (`Locks.OrderKept`, `Locks.StuckForever`,
  `Handlers.RoomBroadcastCompletes`).
- `users_table_add` tests only the name. The indexes stay inverse exactly if every added descriptor is
  new (`UserTables.InverseKept`), which every call makes sure of (`Handlers.AdditionsAreFresh`,
  `Races.NoSharedEntries`).
- The last removal of a DISCONNECT that was overtaken removes the record of another client exactly if the
  name was taken since the thread looked itself up and not removed after that, and removes nothing if it
  was only removed (`Races.WhatDisconnectRemoves`, `Races.DisconnectMayRemoveAnother`).
- The second loop of a broadcast finds a user by descriptor under one lock and removes it by name under
  another. It removes whoever holds the name by then, which can be a client whom every send has reached
  (`Races.WhatBroadcastRemoves`, `Races.BroadcastMayRemoveAnother`).
- A broadcast reads the size of the users table before it locks it (line 61). It leaves its array of failed
  descriptors exactly if more sends fail than that size, which takes users who came in between
  (`Races.OverrunExactly`, `Races.OverrunNeedsNewcomers`, `Races.OverrunHappens`).
- A room can keep an entry for somebody who is gone, exactly if the way of the copy from the users table
  into the room overlaps the removal of the user; and one with an old status, if it overlaps a STATUS or
  if the user was removed and came back (`Snapshots.StaleExactly`, `Snapshots.InviteMayOutliveItsGuest`,
  `Snapshots.InviteMayMissAStatus`).
- Decoding, encoding and decoding again equals one decoding, except for exactly the inputs whose
  `usernames` array has elements but no string (`Messages.DecodeIsStable`).
- Sanitizing keeps well-formed UTF-8 well-formed. It mends text that was not exactly when it brings
  together bytes of a character that a removed byte had split (`Utf8.WellFormedExactly`).
- Whether a long line gets through can depend on how the network cuts the stream: some cut overflows the
  buffer (`Clients.OverflowExactly`), or every cut does (`Clients.EveryCutOverflowsExactly`).

Where the code is not what one might expect, the model follows the code: a TEXT that cannot be delivered
disconnects its sender, not its receiver (lines 335-339); NEW_ROOM with a long name whose first 16 bytes
name an existing room gets no reply (lines 431-493); INVITE stops at the first listed user who is in the
room already (line 617); the JSON library ignores case when it detaches `users`
(`server/src/message.c:136`) and only then.

## Model

| member | source | states |
|---|---|---|
| Refinement.StepAgrees | server/src/client_handler.c:52-79 | for every line a client can send, every send outcome and every iteration order, the server with copies does what the name-only server does: the same result, log and users, and rooms that are its rooms written out with copies |
| Refinement.ProcessAgrees | server/src/message_handler.c:1056-1119 | the same for every message |
| Refinement.NotifyUsersRefines | server/src/message_handler.c:54-88 | a broadcast that skips a descriptor and purges by looking up failed descriptors is one that skips a name and forgets the unreached names everywhere |
| Refinement.NotifyMembersRefines | server/src/message_handler.c:643-647 | the same in a room: the unreached names leave every room |
| Refinement.DisconnectAgrees | server/src/message_handler.c:90-112 | DISCONNECT agrees with forgetting the name |
| Refinement.IdentifyAgrees | server/src/message_handler.c:135-211 | IDENTIFY agrees, also for a taken name, a second name and a failed reply |
| Refinement.SetStatusAgrees | server/src/message_handler.c:213-267 | changing the status by descriptor in the master table and in each copy agrees with changing one record |
| Refinement.TextAgrees | server/src/message_handler.c:299-364 | TEXT agrees |
| Refinement.NewRoomAgrees | server/src/message_handler.c:399-500 | NEW_ROOM agrees, with truncation and both ways of failing |
| Refinement.InviteEachAgrees | server/src/message_handler.c:607-624 | the second loop of INVITE, on copies taken before it, agrees with adding names |
| Refinement.InviteAgrees | server/src/message_handler.c:516-634 | INVITE agrees |
| Refinement.GuestToMemberAgrees | server/src/message_handler.c:636-641 | moving a copy from guests to members agrees with moving a name |
| Refinement.JoinRoomAgrees | server/src/message_handler.c:649-754 | JOIN_ROOM agrees |
| Refinement.RoomUsersAgrees | server/src/message_handler.c:773-861 | ROOM_USERS agrees: listing the copies is listing the members' own records |
| Refinement.RoomTextAgrees | server/src/message_handler.c:864-956 | ROOM_TEXT agrees |
| Refinement.LeaveRoomAgrees | server/src/message_handler.c:958-1054 | LEAVE_ROOM agrees, with the removal of a room that became empty |
| Refinement.RecipientsAreOthers | server/src/message_handler.c:36-52 | in tables with agreeing records, skipping one's own descriptor is skipping one's own name |
| Runs.RunRefines | server/src/message_handler.c:1056-1119 | refinement over every run: at each point the users, rooms and whole log are those of the name-only server written out |
| Runs.ResultsAgree | server/src/message_handler.c:1056-1119 | and so is every result returned |
| Runs.ConsistentMeansCopies | server/src/message_handler.c:399-421 | a state satisfies the invariant exactly if it is a valid name-only state written out with copies |
| Runs.StepKeepsConsistent | server/src/message_handler.c:1056-1119 | every line keeps the invariant, whatever happens to the sends |
| Runs.ReachableIsConsistent | server/src/message_handler.c:213-226 | in every reachable state the two indexes of every table are inverse, every entry of every room equals the master table's entry in name, descriptor and status, and members and guests are disjoint by name and by descriptor |
| Outcomes.InputDoes | server/src/message_handler.c:1056-1119 | from any consistent state every line does what `Outcomes.Does` tells: who is sent which message in which order, what becomes of those not reached, and the users and rooms afterwards |
| Outcomes.RunDoes | server/src/message_handler.c:1056-1119 | the same at every input of every run |
| Outcomes.IdentifyIsDone | server/src/message_handler.c:135-211 | IDENTIFY by the first 8 bytes of the name: registered and announced, taken, repeated, or another name |
| Outcomes.NewcomerIsRegistered | server/src/message_handler.c:147-207 | a newcomer has exactly that name, is answered first, and is announced exactly once to each other user if the answer arrives; otherwise it leaves no trace |
| Outcomes.StatusIsDone | server/src/message_handler.c:228-267 | STATUS by its three texts: refused, nothing, or taken and told |
| Outcomes.StatusIsTaken | server/src/message_handler.c:244-262 | a new status is in the record, and each other user is sent it once, under the name of its user |
| Outcomes.UsersIsDone | server/src/message_handler.c:269-297 | USERS sends the object that names each user once, with the text of its status |
| Outcomes.TextIsDone | server/src/message_handler.c:299-364 | TEXT goes to the user it names, or is answered |
| Outcomes.TextGoesToItsReceiver | server/src/message_handler.c:305-340 | a text to another user is sent first and once to that user's descriptor, under the sender's name; if it does not arrive the sender leaves no trace |
| Outcomes.NewRoomIsDone | server/src/message_handler.c:423-500 | NEW_ROOM by the first 16 bytes of the name |
| Outcomes.InviteIsDone | server/src/message_handler.c:516-634 | INVITE name by name: refused, the first unknown one reported, or let in up to the place where it stops |
| Outcomes.JoinIsDone | server/src/message_handler.c:649-754 | JOIN_ROOM: the answer, the move, and JOINED_ROOM to each other member |
| Outcomes.RoomUsersIsDone | server/src/message_handler.c:773-861 | ROOM_USERS: the answer, or the list of the members |
| Outcomes.RoomTextIsDone | server/src/message_handler.c:864-956 | ROOM_TEXT: the answer, or the text to each other member |
| Outcomes.LeaveIsDone | server/src/message_handler.c:968-1054 | LEAVE_ROOM: the answer, or the news to those who stay, or the end of the room |
| Outcomes.DisconnectDoes | server/src/message_handler.c:90-112 | DISCONNECT: the news to everyone else, the loss of whoever is not reached, and the closed connection |
| Outcomes.UnknownTypeIsIgnored | server/src/message_handler.c:1062-1066 | an object whose type is no string or names no type changes nothing and is not answered |
| Answers.EveryEntryFits | server/src/message_handler.c:1056-1119 | every entry of the log of a run belongs to one input: an answer is the first it leads to, goes to its sender and is the one expected; any other message goes to a user to whom that input says it, with the names and texts of that input |
| Answers.EveryAnswerIsExpected | server/src/message_handler.c:1056-1119 | every RESPONSE of a run has the operation of its input, or INVALID, the result that the state before calls for, and the name in question, and goes to the descriptor of its input |
| Answers.EveryInputIsAnswered | server/src/message_handler.c:1056-1119 | and every input is answered first by exactly that |
| Answers.EveryTextIsAddressed | server/src/message_handler.c:315-339 | every TEXT_FROM of a run comes from a TEXT of another user, went to the user it named, and has its text and its sender's name |
| Effects.ProcessExplained | server/src/message_handler.c:1092-1116 | after any message whoever is in a room was there before in the same role, or just founded it, was invited by a member, or joined as a guest |
| Effects.StepAppends | server/src/server.c:191-234 | a line only appends to the log, with the outcomes of the environment, and appends room texts only if it is ROOM_TEXT |
| Provenance.EveryoneIsWarranted | server/src/message_handler.c:467-704 | within one lifetime of a room, every guest was invited by a then-member and every member founded it or sent its own JOIN_ROOM as such a guest, and has been there since; nothing before the lifetime counts |
| Provenance.RoomsHaveLifetimes | server/src/message_handler.c:467-480 | every room of every reachable state exists without a break since one NEW_ROOM |
| Provenance.GuestHasChain | server/src/message_handler.c:559-619 | a finite chain of invitations, at later and later inputs, leads from the founder to every guest |
| Provenance.CopiedEntriesHaveChains | server/src/message_handler.c:467-704 | the same for every entry the server with copies keeps in a room; each host but the founder, and every member but the founder, sent its own JOIN_ROOM in between |
| Delivery.DeliveredToMembers | server/src/message_handler.c:905-937 | every ROOM_TEXT_FROM in the log of a run was sent by a member to another member of that room at that moment, and to nobody who was only a guest |
| Delivery.EachOtherMemberOnce | server/src/message_handler.c:928-933 | a member's text is sent exactly once to each other member and to nobody else |
| Delivery.TextKeepsRooms | server/src/message_handler.c:864-956 | and changes neither users nor rooms when all sends succeed |
| Delivery.EverySendIsDecodable | server/src/message.c:115-189 | every message the server ever sends is decoded as it was meant |
| Handlers.BroadcastToUsers | server/src/message_handler.c:54-88 | a broadcast is sent exactly once to each other user; the caller and whoever was reached have exactly the entries they had, and no index of any table holds a trace of anybody else |
| Handlers.BroadcastToMembers | server/src/message_handler.c:643-647 | in a room: once to each other member, the master table is unchanged, and exactly the unreached leave every room |
| Handlers.RoomBroadcastCompletes | server/src/message_handler.c:54-88 | a broadcast to a room keeps the order of the mutexes and ends exactly if all its sends succeed, and then changes only the log |
| Handlers.DisconnectLeavesNoTrace | server/src/message_handler.c:90-112 | after DISCONNECT neither name nor descriptor is in an index of any table, whoever was reached keeps exactly its entries, and the connection is closed last |
| Handlers.AdditionsAreFresh | server/src/message_handler.c:152-182 | in every reachable state each call that adds a record, in IDENTIFY, NEW_ROOM, JOIN_ROOM and every turn of the loop of INVITE, brings a name and a descriptor that are in no index of the table |
| Handlers.NewRoomOpens | server/src/message_handler.c:423-500 | NEW_ROOM opens a room exactly if the first 16 bytes of the name, or all of it, are not empty and neither they nor the whole name are taken; only the creator is in it and nothing else changes, or the creator is fully disconnected when the reply fails |
| Handlers.JoinMovesOneGuest | server/src/message_handler.c:636-641 | joining moves one user from the guests to the members of one room and changes nothing else |
| Handlers.InviteUnknown | server/src/message_handler.c:563-593 | if the i-th listed name is the first unknown one, nobody becomes a guest anywhere, and the answer NO_SUCH_USER names it |
| Handlers.InviteKnown | server/src/message_handler.c:607-624 | otherwise the guests gain exactly the listed users, as the message lists them, before the place where the loop stops, each is sent one invitation, and an invitee whose send fails is fully disconnected |
| Handlers.WelcomeIsFirstInside | server/src/message_handler.c:609-617 | that place is the first user who is a member or guest already, duplicates in the list included, unless a send fails before |
| Handlers.SomewhereItStops | server/src/message_handler.c:607-624 | there always is such a place |
| Handlers.RoomListIsUserList | server/src/message_handler.c:756-771 | what ROOM_USERS sends is what USERS would send, restricted to the members, in whatever order either is listed |
| Handlers.RoomListSent | server/src/message_handler.c:813-843 | the list that ROOM_USERS sends, as the log records it, is the one USERS would send in the same state, restricted to the members |
| Handlers.ListAsMap | server/src/message_handler.c:277-286 | the object sent by USERS maps exactly the users to their statuses |
| Servers.Server.Process | server/src/message_handler.c:1056-1119 | dispatching updates the server as `Protocol.Process` says |
| Servers.Server.SendIfIsNotSelf | server/src/message_handler.c:36-52 | one visit sends at most once, and a failed descriptor goes into the next cell of the array |
| Servers.Server.SendToOthers | server/src/message_handler.c:61-74 | all visits together send to the recipients in order; the array holds the failed descriptors and keeps its closing -1 |
| Servers.Server.NotifyUsers | server/src/message_handler.c:54-88 | the array code, whose scan stays in bounds and ends, does the broadcast of `Protocol` |
| Servers.Server.NotifyMembers | server/src/message_handler.c:643-647 | the same for the members of a room |
| Servers.Server.RemoveFromRooms | server/src/message_handler.c:29-34 | the name is removed from both tables of every room |
| Servers.Server.ChangeStatusInRooms | server/src/message_handler.c:213-226 | the status changes in both tables of every room |
| Servers.Server.ListTable | server/src/message_handler.c:756-771 | the loop over the visited users builds the object of `Protocol` |
| Servers.Server.LookUpAll | server/src/message_handler.c:563-593 | the first loop of INVITE fills an array with copies of the listed users or finds the first unknown name |
| Servers.Server.InviteEach | server/src/message_handler.c:607-624 | the second loop of INVITE as in `Protocol` |
| UserTables.LinkedKept | server/src/users_table.c:20-184 | whatever the callers do, no entry of the descriptor index dangles |
| UserTables.InverseKept | server/src/users_table.c:31-44 | an operation keeps the indexes inverse exactly if it does not insert a descriptor that is already there |
| UserTables.RunKeepsIndexes | server/src/users_table.c:20-184 | so every sequence of operations with fresh descriptors keeps them inverse throughout |
| UserTables.SharedDescriptorIsReachable | server/src/users_table.c:40-41 | two users can share a descriptor when the caller does not check |
| UserTables.StatusIsShared | server/src/users_table.c:149-166 | a status set by descriptor is seen by name, and nothing else changes |
| UserTables.RemoveClearsBoth | server/src/users_table.c:168-184 | a removed user is in neither index, and everybody else is where they were |
| UserTables.RemoveUndoesAdd | server/src/users_table.c:168-184 | removing what was just added restores the table |
| UsersTables.UsersTable.Add | server/src/users_table.c:20-45 | on shared objects: adds with status ACTIVE, or refuses a taken or unacceptable name |
| UsersTables.UsersTable.AddWithStatus | server/src/users_table.c:47-74 | the same with a status |
| UsersTables.UsersTable.ContainsByUsername | server/src/users_table.c:77-86 | true exactly if a record is found under the name |
| UsersTables.UsersTable.ContainsByFd | server/src/users_table.c:88-97 | true exactly if a record is found under the descriptor |
| UsersTables.UsersTable.Usernames | server/src/users_table.c:188-233 | what an iteration visits |
| UsersTables.UsersTable.FindByUsername | server/src/users_table.c:100-113 | a copy of the record under the name |
| UsersTables.UsersTable.FindByFd | server/src/users_table.c:115-128 | a copy of the record under the descriptor |
| UsersTables.UsersTable.ChangeStatusByUsername | server/src/users_table.c:130-147 | one assignment to the shared object changes what both indexes show |
| UsersTables.UsersTable.ChangeStatusByFd | server/src/users_table.c:149-166 | the same through the descriptor |
| UsersTables.UsersTable.Remove | server/src/users_table.c:168-184 | both indexes lose the entry |
| Tables.Store.RemoveAt | server/src/users_table.c:168-184 | of all tables of the server on the heap, only the one at the given place loses the entry |
| Tables.Store.AddAt | server/src/users_table.c:47-74 | only the one at the given place gains it, and no two tables come to share anything |
| Tables.Store.ChangeStatusAt | server/src/users_table.c:149-166 | the shared record of one table changes, and no copy of it in another table |
| Messages.RoundTrip | server/src/message.c:115-189 | decoding an encoded message returns it exactly if its usernames are NULL, or not empty and without NULL elements |
| Messages.DecodeEncode | server/src/message.c:115-189 | in any case everything but the usernames returns |
| Messages.DecodeIsStable | server/src/message.c:115-189 | decode, encode and decode equals one decode exactly unless the usernames array has elements but no string |
| Messages.DecodeIsNotAlwaysStable | server/src/message.c:137-158 | such an input exists |
| Messages.DecodableMessages | server/src/message.c:137-158 | exactly the messages whose usernames hold no NULL can come from decoding |
| Messages.KindsByName | server/src/message.c:15-43 | each type is what exactly its own name is read as, so any other text, or no text, is of no known type |
| Messages.WrittenFields | server/src/message.c:165-189 | the members of an encoded message, by their names |
| Messages.DetachesFirst | server/src/message.c:136 | the member `users` is the first whose name is that but for case |
| Messages.MessageFromJson | server/src/message.c:115-163 | the code that fills the fields one by one computes `Decode` |
| Messages.MessageToJson | server/src/message.c:165-189 | the code that adds the members one by one computes `Encode` |
| Framing.Sanitize | server/src/message_buffer.c:59-73 | sanitizing in place leaves the filtered text and a closing NUL, in bounds |
| Framing.SanitizedIsValid | server/src/message_buffer.c:48-73 | the filter yields valid text always, and changes nothing exactly on valid text |
| Framing.MessageIsValid | server/src/message_buffer.c:48-57 | accepts exactly what the filter leaves alone |
| Framing.NothingLost | server/src/message_buffer.c:20-46 | a byte sequence is its lines with their newlines, then its residue, and none of these holds a newline |
| Framing.LinesContinue | server/src/message_buffer.c:10-46 | taking the lines out and then appending gives the lines and the residue of appending first |
| Framing.MessageBuffer.Append | server/src/message_buffer.c:10-18 | appends the chunk, or refuses it and changes nothing exactly if it does not fit |
| Framing.MessageBuffer.Extract | server/src/message_buffer.c:20-46 | takes out the first line, reports its whole length, copies as much as fits and a NUL, and shifts the rest over it |
| Utf8.SanitizedPoints | server/src/message_buffer.c:59-73 | on UTF-8 the filter keeps text well-formed and removes exactly the code points NUL, backspace, tab, newline and carriage return |
| Utf8.PointsOfWritten | server/src/message_buffer.c:59-73 | the decoder used there reads every encoding of scalar values as what was written |
| Utf8.WrittenOfPoints | server/src/message_buffer.c:59-73 | and accepts nothing else |
| Utf8.WellFormedExactly | server/src/message_buffer.c:59-73 | text is well-formed exactly if its filtered form is and no removed byte stands before a continuation byte |
| Utf8.SanitizingMayMend | server/src/message_buffer.c:59-73 | text that is not well-formed can become so |
| Clients.ChunkingIndependence | server/src/client_handler.c:36-83 | for every stream whose lines and residue leave room for a chunk, and every way to cut it into chunks, nothing overflows and the server gets the same inputs: the sanitized lines that are not empty, up to the first that is no message |
| Clients.InputsUpToFirstRefused | server/src/client_handler.c:44-79 | what those inputs are, index by index |
| Clients.TextsInOrder | server/src/client_handler.c:44-48 | the texts are exactly the lines with something left after sanitizing, in their order |
| Clients.LongLineOverflows | server/src/client_handler.c:40-41 | a first line longer than the buffer never gets through, however it is cut |
| Clients.OverflowExactly | server/src/client_handler.c:36-41 | some way to cut a stream overflows the buffer exactly if it has two places at most a chunk apart with more than the buffer holds between the last newline before the first and the second, and no line before that is refused |
| Clients.EveryCutOverflowsExactly | server/src/client_handler.c:36-48 | every way to cut a stream overflows the buffer exactly if, before any line that is refused, some line has at least as many bytes as the buffer, or what follows the last one has more |
| Clients.OnlyTextsLackFields | server/src/message.c:115-163 | of what is decoded, a handler can miss only the fields of TEXT and PUBLIC_TEXT |
| Clients.ReceivingConserves | server/src/client_handler.c:36-83 | over any run of the loops each accepted byte is in one extracted line, is the newline that ended it, or is left; unless a line was refused, no newline is left |
| Clients.NextText | server/src/client_handler.c:44-48 | with room for a whole buffer nothing is truncated, and sanitizing stays in bounds |
| Clients.Refuse | server/src/client_handler.c:52-77 | a line that is no message: the client is told so and disconnected, identified or not |
| Clients.HandleClient | server/src/client_handler.c:14-88 | for every parser and every stream whose messages have the fields their handlers use, the thread does to the server exactly the inputs of its session |
| Clients.SessionIsRun | server/src/client_handler.c:79-82 | so what is proved of runs holds of the server in every session |
| Races.NoSharedEntries | server/src/message_handler.c:147-210 | over every interleaving of any number of threads running IDENTIFY and DISCONNECT, no two entries share a username or a descriptor |
| Races.OnlyOneWins | server/src/users_table.c:31-44 | between two successful additions of a name the name was removed |
| Races.OneNamePerClient | server/src/message_handler.c:152-182 | between two additions of a client the name it had was removed |
| Races.WhatDisconnectRemoves | server/src/message_handler.c:90-112 | the last removal of DISCONNECT removes its own record exactly if nobody removed that name since the thread looked itself up, the record of another client exactly if the name was taken since and not removed after that, and nothing otherwise |
| Races.DisconnectMayRemoveAnother | server/src/message_handler.c:76-105 | it can be the record of a client that never left |
| Races.WhatBroadcastRemoves | server/src/message_handler.c:76-87 | a removal in the second loop of a broadcast hits the client it found exactly if its name was not removed since or it has taken the name again, another client exactly if that one has taken it since, and otherwise nobody |
| Races.BroadcastMayRemoveAnother | server/src/message_handler.c:76-87 | it can be a client that every send has reached and that never left |
| Races.InBoundsExactly | server/src/message_handler.c:61-87 | the writes and the scan stay in the array of size + 1 exactly if no more sends fail than the size |
| Races.OverrunExactly | server/src/message_handler.c:61-74 | so a broadcast can leave its array exactly if the table now has more others than it had users when its size was read |
| Races.OverrunNeedsNewcomers | server/src/message_handler.c:61-74 | over every interleaving this takes at least one more addition than removals since then, and at least two more if the thread's own user is still there |
| Races.OverrunHappens | server/src/message_handler.c:61-74 | and two newcomers are enough |
| Snapshots.StaleExactly | server/src/message_handler.c:563-624 | over every interleaving of the calls of the handlers, an entry of a room lacks its record in the users table exactly if the user was removed after the copy was made and has not come back, by a thread whose purge of the rooms for that very removal was before the copy was put in; and while the record is there, also if the user has come back, the entry differs from it exactly if the status last set since the copy was made (ACTIVE for who came back) is not the one last written into the entry since it was put in |
| Snapshots.InviteMayOutliveItsGuest | server/src/message_handler.c:563-624 | an INVITE that is overtaken by the DISCONNECT of the invited leaves a guest who is no user |
| Snapshots.InviteMayMissAStatus | server/src/message_handler.c:563-624 | an INVITE that is overtaken by a STATUS of the invited leaves a guest with the old status |
| Locks.OrderKept | server/src/room_table.c:62-103 | exactly the calls without a failed send in a room take the mutexes in order and return them all; every other one ends up waiting for the rooms mutex it holds |
| Locks.EveryRunIsOrderly | server/src/users_table.c:188-233 | over every interleaving a thread holds nothing, the users mutex, the rooms mutex, or that and one mutex of a room |
| Locks.NoWaitingCycle | server/src/room_table.c:62-103 | who is waited for does not wait, so the wait-for relation has no cycle |
| Locks.NoDeadlockEver | server/src/room_table.c:62-103 | from any number of idle threads, over every interleaving of such calls: no cycle of waiting threads, and while anybody is inside a call somebody can go on |
| Locks.EveryCallCanEnd | server/src/room_table.c:62-103 | in every such state all calls under way can be finished |
| Locks.AdvancesAreBounded | server/src/room_table.c:62-103 | and every step brings them nearer to their end, whatever the scheduler does |
| Locks.FailedSendGetsStuck | server/src/message_handler.c:643-647 | a call with a failed send in a room reaches the state in which its thread waits for itself |
| Locks.StuckForever | server/src/message_handler.c:76-87 | and from there it never moves, and nobody else can take the rooms mutex |

## Left out

- Protocol.PurgeMembers: gives the purge of a room broadcast its intended effect (the unreached members leave every room and stay users), though the code locks the rooms mutex twice there; what really happens is stated in `Locks`, and exactly when the two agree in `Handlers.RoomBroadcastCompletes`.
- Refinement.NotifyMembersRefines: is about that intended effect when a send fails.
- Handlers.BroadcastToMembers: is about that intended effect when a send fails.
- Servers.Server.NotifyMembers: runs the purge to its end, which the code does only when there is nothing to purge.
- Clients.HandleClient: one thread at a time; what threads do to each other is in `Races` and `Locks`.
- Races.NoSharedEntries: takes a descriptor to belong to one thread for good; that the system reuses descriptors of closed connections is not modelled. What a thread does after it has left its array is not either: it stops there.
- Snapshots.StaleExactly: the tests the handlers make on rooms between their calls are left out, so the threads of the model can do more than those of the code; entries are marked with their copies for the statement only.
- Locks.EveryRunIsOrderly: a thread may make any sequence of calls, which includes those of every handler; the order of the calls within a handler is not modelled there.
- Sockets: `accept`, `recv`, `send`, `close`, thread creation and logging are a sequence of chunks, an oracle and a log.
- The text form of JSON and how long it is: the parser is an arbitrary function, so the cutting of an oversized reply in `server_send` is not part of this model.
- TEXT without username or text and PUBLIC_TEXT without text: the handlers use these fields without a test, so they are required.
- Allocation failures and the freeing of memory.
- Abrupt disconnects: the loop of the thread just ends, so users may stay registered without a connection.
- That no room is ever empty, which is not so: only LEAVE_ROOM removes an empty room.
- The C# client, the command line and the resolution of the port.
