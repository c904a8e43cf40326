/** What every line a client can send does, told without any part of the handlers: who is sent which
    message, in which order, and which users and rooms there are afterwards.  All messages and all answers
    are written out. */
module Outcomes {
  import opened Base
  import opened Messages
  import P = Protocol
  import N = NameServer
  import R = Refinement
  import E = Effects
  import H = Handlers
  import opened Runs

  // ------------------------------------------------------------------------------ vocabulary

  /** News: a message about a user. */
  function Letter(kind: MessageType, username: string, status: Option<string>, text: Option<string>,
                  roomname: Option<string>): Message {
    Message(kind, Some(username), None, None, None, status, None, text, roomname, None)
  }

  function Answer(operation: string, result: string, extra: Option<string>): Message {
    Message(RESPONSE, None, Some(operation), Some(result), extra, None, None, None, None, None)
  }

  /** The first `max` bytes of a name, or all of it. */
  ghost predicate Cut(name: string, s: string, max: nat) {
    name <= s && |name| == if |s| <= max then |s| else max
  }

  function After1(s: N.State, e: P.Env, fd: int, m: Message): N.State {
    s.(log := s.log + [P.Sent(fd, m, e.delivers(|s.log|))])
  }

  function Closed(s: N.State, fd: int): N.State {
    s.(log := s.log + [P.Closed(fd)])
  }

  /** Each of the audience is sent the message exactly once, in some order, and nobody else is; `lost` are
      those whose send fails. */
  ghost predicate Told(e: P.Env, users: map<string, User>, audience: set<string>, m: Message,
                       log: seq<P.Event>, log': seq<P.Event>, lost: set<string>) {
    exists names :: ToldInOrder(e, users, audience, m, log, log', lost, names)
  }

  ghost predicate ToldInOrder(e: P.Env, users: map<string, User>, audience: set<string>, m: Message,
                              log: seq<P.Event>, log': seq<P.Event>, lost: set<string>, names: seq<string>) {
    && NoDuplicates(names) && (forall n :: n in names <==> n in audience) && audience <= users.Keys
    && |log'| == |log| + |names| && log <= log'
    && (forall i :: 0 <= i < |names| ==>
         log'[|log| + i] == P.Sent(users[names[i]].fd, m, e.delivers(|log| + i)))
    && lost <= audience
    && (forall i :: 0 <= i < |names| ==> (names[i] in lost <==> !e.delivers(|log| + i)))
  }

  /** The same rooms, without these users. */
  ghost predicate Without(rooms: map<string, N.Room>, gone: set<string>, rooms': map<string, N.Room>) {
    && rooms'.Keys == rooms.Keys
    && (forall r :: r in rooms ==>
         rooms'[r].members == rooms[r].members - gone && rooms'[r].guests == rooms[r].guests - gone)
  }

  /** Everyone else is told, and who is not reached is forgotten. */
  ghost predicate NewsForAll(s: N.State, e: P.Env, me: string, m: Message, s': N.State) {
    exists lost :: NewsForAllBut(s, e, me, m, s', lost)
  }

  ghost predicate NewsForAllBut(s: N.State, e: P.Env, me: string, m: Message, s': N.State, lost: set<string>) {
    && Told(e, s.users, s.users.Keys - {me}, m, s.log, s'.log, lost)
    && s'.users == s.users - lost && Without(s.rooms, lost, s'.rooms)
  }

  /** The other members of the room are told, and who is not reached leaves every room. */
  ghost predicate NewsForRoom(s: N.State, e: P.Env, room: string, me: string, m: Message, s': N.State)
    requires room in s.rooms
  {
    exists lost :: NewsForRoomBut(s, e, room, me, m, s', lost)
  }

  ghost predicate NewsForRoomBut(s: N.State, e: P.Env, room: string, me: string, m: Message, s': N.State,
                                 lost: set<string>)
    requires room in s.rooms
  {
    && Told(e, s.users, s.rooms[room].members - {me}, m, s.log, s'.log, lost)
    && s'.users == s.users && Without(s.rooms, lost, s'.rooms)
  }

  /** The others are told that `me` is gone, `me` is forgotten, and its connection is closed. */
  ghost predicate Disconnected(s: N.State, e: P.Env, me: string, s': N.State)
    requires me in s.users
  {
    exists s1 :: DisconnectedVia(s, e, me, s', s1)
  }

  ghost predicate DisconnectedVia(s: N.State, e: P.Env, me: string, s': N.State, s1: N.State)
    requires me in s.users
  {
    && NewsForAll(s, e, me, Letter(DISCONNECTED, me, None, None, None), s1)
    && s'.log == s1.log + [P.Closed(s.users[me].fd)]
    && s'.users == s1.users - {me} && Without(s1.rooms, {me}, s'.rooms)
  }

  /** `me` is sent a message, and is disconnected if it does not arrive. */
  ghost predicate SentOrGone(s: N.State, e: P.Env, me: string, m: Message, s': N.State)
    requires me in s.users
  {
    var s1 := After1(s, e, s.users[me].fd, m);
    if e.delivers(|s.log|) then s' == s1 else Disconnected(s1, e, me, s')
  }

  ghost predicate Answered(s: N.State, e: P.Env, me: string, operation: string, result: string, extra: string,
                           s': N.State)
    requires me in s.users
  {
    SentOrGone(s, e, me, Answer(operation, result, Some(extra)), s')
  }

  /** `me` is told that this is invalid, and disconnected. */
  ghost predicate Refused(s: N.State, e: P.Env, me: string, s': N.State)
    requires me in s.users
  {
    Disconnected(After1(s, e, s.users[me].fd, Answer("INVALID", "INVALID", None)), e, me, s')
  }

  // ------------------------------------------------------------------------------- commands

  ghost predicate IdentifyDoes(s: N.State, e: P.Env, username: Option<string>, fd: int, s': N.State) {
    if username.None? then s' == s
    else exists name :: Cut(name, username.value, 8) && IdentifiesAs(s, e, name, fd, s')
  }

  ghost predicate IdentifiesAs(s: N.State, e: P.Env, name: string, fd: int, s': N.State) {
    match N.Holder(s.users, fd)
    case Some(me) => if me == name then s' == s else Refused(s, e, me, s')
    case None =>
      if name in s.users then
        s' == Closed(After1(s, e, fd, Answer("IDENTIFY", "USER_ALREADY_EXISTS", Some(name))), fd)
      else if name == "" then s' == s
      else
        var s0 := s.(users := s.users[name := User(name, fd, ACTIVE)]);
        var s1 := After1(s0, e, fd, Answer("IDENTIFY", "SUCCESS", Some(name)));
        if e.delivers(|s.log|) then NewsForAll(s1, e, name, Letter(NEW_USER, name, None, None, None), s')
        else Disconnected(s1, e, name, s')
  }

  function StatusText(status: UserStatus): string {
    match status
    case ACTIVE => "ACTIVE"
    case AWAY => "AWAY"
    case BUSY => "BUSY"
  }

  ghost predicate StatusDoes(s: N.State, e: P.Env, text: Option<string>, me: string, s': N.State)
    requires me in s.users
  {
    if text.None? then s' == s
    else if text.value != "ACTIVE" && text.value != "AWAY" && text.value != "BUSY" then Refused(s, e, me, s')
    else if text.value == StatusText(s.users[me].status) then s' == s
    else exists status :: text.value == StatusText(status) && TakesStatus(s, e, status, me, s')
  }

  ghost predicate TakesStatus(s: N.State, e: P.Env, status: UserStatus, me: string, s': N.State)
    requires me in s.users
  {
    var s1 := s.(users := s.users[me := User(s.users[me].name, s.users[me].fd, status)]);
    NewsForAll(s1, e, me, Letter(NEW_STATUS, me, Some(StatusText(status)), None, None), s')
  }

  /** The object names each of these users once, with its status. */
  ghost predicate ListsUsers(list: Json, users: map<string, User>, listed: set<string>) {
    exists names :: ListsInOrder(list, users, listed, names)
  }

  ghost predicate ListsInOrder(list: Json, users: map<string, User>, listed: set<string>, names: seq<string>) {
    && NoDuplicates(names) && (forall n :: n in names <==> n in listed) && listed <= users.Keys
    && list.JObject? && |list.fields| == |names|
    && (forall i :: 0 <= i < |names| ==>
         list.fields[i] == Field(names[i], JString(StatusText(users[names[i]].status))))
  }

  ghost predicate UsersDoes(s: N.State, e: P.Env, me: string, s': N.State)
    requires me in s.users
  {
    exists list :: ListsUsers(list, s.users, s.users.Keys) &&
      SentOrGone(s, e, me, Message(USER_LIST, None, None, None, None, None, Some(list), None, None, None), s')
  }

  /** A text goes to the user it names; if it does not arrive its sender is disconnected. */
  ghost predicate TextDoes(s: N.State, e: P.Env, to: string, text: string, me: string, s': N.State)
    requires me in s.users
  {
    if to !in s.users then Answered(s, e, me, "TEXT", "NO_SUCH_USER", to, s')
    else if to == me then s' == s
    else
      var s1 := After1(s, e, s.users[to].fd, Letter(TEXT_FROM, me, None, Some(text), None));
      if e.delivers(|s.log|) then s' == s1 else Disconnected(s1, e, me, s')
  }

  ghost predicate NewRoomDoes(s: N.State, e: P.Env, roomname: Option<string>, me: string, s': N.State)
    requires me in s.users
  {
    if roomname.None? then s' == s
    else exists room :: Cut(room, roomname.value, 16) && OpensAs(s, e, roomname.value, room, me, s')
  }

  ghost predicate OpensAs(s: N.State, e: P.Env, whole: string, room: string, me: string, s': N.State)
    requires me in s.users
  {
    if whole in s.rooms then Answered(s, e, me, "NEW_ROOM", "ROOM_ALREADY_EXISTS", room, s')
    else if room == "" || room in s.rooms then s' == s
    else Answered(s.(rooms := s.rooms[room := N.Room({me}, {})]), e, me, "NEW_ROOM", "SUCCESS", room, s')
  }

  ghost predicate FirstUnknownAt(s: N.State, names: seq<string>, i: nat) {
    i < |names| && names[i] !in s.users && forall j :: 0 <= j < i ==> names[j] in s.users
  }

  /** The `i`-th listed user is not in the room yet, and is not listed before. */
  ghost predicate Enters(room: N.Room, names: seq<string>, i: nat) {
    i < |names| && names[i] !in room.members && names[i] !in room.guests && names[i] !in names[..i]
  }

  /** The first `n` listed users are let in and reached, one after the other. */
  ghost predicate LetsIn(s: N.State, e: P.Env, room: string, names: seq<string>, n: nat)
    requires room in s.rooms
  {
    && n <= |names|
    && (forall i :: 0 <= i < n ==> Enters(s.rooms[room], names, i))
    && (forall k :: |s.log| <= k < |s.log| + n ==> e.delivers(k))
  }

  /** The state in which the first `n` listed users are guests and were sent their invitations. */
  ghost predicate Invited(s: N.State, e: P.Env, room: string, names: seq<string>, n: nat, me: string, s': N.State)
    requires room in s.rooms && n <= |names| && forall i :: 0 <= i < n ==> names[i] in s.users
  {
    && s'.users == s.users && s'.rooms.Keys == s.rooms.Keys
    && (forall r :: r in s.rooms && r != room ==> s'.rooms[r] == s.rooms[r])
    && s'.rooms[room].members == s.rooms[room].members
    && (forall x :: x in s'.rooms[room].guests <==> x in s.rooms[room].guests || x in names[..n])
    && |s'.log| == |s.log| + n && s.log <= s'.log
    && (forall i :: 0 <= i < n ==>
         s'.log[|s.log| + i] == P.Sent(s.users[names[i]].fd, Letter(INVITATION, me, None, None, Some(room)),
                                       e.delivers(|s.log| + i)))
  }

  /** Either all are let in; or the next one is inside already, or listed before; or the next one is let in
      but not reached, and so is disconnected. */
  ghost predicate InvitesUpTo(s: N.State, e: P.Env, room: string, names: seq<string>, n: nat, me: string, s': N.State)
    requires room in s.rooms && forall i :: 0 <= i < |names| ==> names[i] in s.users
  {
    && LetsIn(s, e, room, names, n)
    && if !Enters(s.rooms[room], names, n) then
         Invited(s, e, room, names, n, me, s')
       else
         !e.delivers(|s.log| + n) &&
         exists s1 :: Invited(s, e, room, names, n + 1, me, s1) && names[n] in s1.users
                      && Disconnected(s1, e, names[n], s')
  }

  ghost predicate InviteDoes(s: N.State, e: P.Env, roomname: Option<string>, usernames: Option<seq<Option<string>>>,
                             me: string, s': N.State)
    requires me in s.users
  {
    if roomname.None? || usernames.None? then s' == s
    else if roomname.value !in s.rooms then Answered(s, e, me, "INVITE", "NO_SUCH_ROOM", roomname.value, s')
    else if me !in s.rooms[roomname.value].members then Refused(s, e, me, s')
    else exists names :: H.ListsNames(usernames.value, names) && InvitesListed(s, e, roomname.value, names, me, s')
  }

  ghost predicate InvitesListed(s: N.State, e: P.Env, room: string, names: seq<string>, me: string, s': N.State)
    requires me in s.users && room in s.rooms
  {
    if forall i :: 0 <= i < |names| ==> names[i] in s.users then
      exists n :: InvitesUpTo(s, e, room, names, n, me, s')
    else
      exists i: nat :: FirstUnknownAt(s, names, i) && Answered(s, e, me, "INVITE", "NO_SUCH_USER", names[i], s')
  }

  ghost predicate JoinDoes(s: N.State, e: P.Env, roomname: Option<string>, me: string, s': N.State)
    requires me in s.users
  {
    if roomname.None? then s' == s
    else
      var room := roomname.value;
      if room !in s.rooms then Answered(s, e, me, "JOIN_ROOM", "NO_SUCH_ROOM", room, s')
      else if me in s.rooms[room].members then s' == s
      else if me !in s.rooms[room].guests then Answered(s, e, me, "JOIN_ROOM", "NOT_INVITED", room, s')
      else
        var moved := N.Room(s.rooms[room].members + {me}, s.rooms[room].guests - {me});
        var s1 := After1(s.(rooms := s.rooms[room := moved]), e, s.users[me].fd,
                         Answer("JOIN_ROOM", "SUCCESS", Some(room)));
        if e.delivers(|s.log|) then
          NewsForRoom(s1, e, room, me, Letter(JOINED_ROOM, me, None, None, Some(room)), s')
        else Disconnected(s1, e, me, s')
  }

  ghost predicate RoomUsersDoes(s: N.State, e: P.Env, roomname: Option<string>, me: string, s': N.State)
    requires me in s.users
  {
    if roomname.None? then s' == s
    else
      var room := roomname.value;
      if room !in s.rooms then Answered(s, e, me, "ROOM_USERS", "NO_SUCH_ROOM", room, s')
      else if me !in s.rooms[room].members then Answered(s, e, me, "ROOM_USERS", "NOT_JOINED", room, s')
      else
        exists list :: ListsUsers(list, s.users, s.rooms[room].members) &&
          SentOrGone(s, e, me, Message(ROOM_USER_LIST, None, None, None, None, None, Some(list), None, Some(room),
              None), s')
  }

  ghost predicate RoomTextDoes(s: N.State, e: P.Env, roomname: Option<string>, text: Option<string>, me: string,
                               s': N.State)
    requires me in s.users
  {
    if roomname.None? || text.None? then s' == s
    else
      var room := roomname.value;
      if room !in s.rooms then Answered(s, e, me, "ROOM_TEXT", "NO_SUCH_ROOM", room, s')
      else if me !in s.rooms[room].members then Answered(s, e, me, "ROOM_TEXT", "NOT_JOINED", room, s')
      else NewsForRoom(s, e, room, me, Letter(ROOM_TEXT_FROM, me, None, text, Some(room)), s')
  }

  ghost predicate LeaveDoes(s: N.State, e: P.Env, roomname: Option<string>, me: string, s': N.State)
    requires me in s.users
  {
    if roomname.None? then s' == s
    else
      var room := roomname.value;
      if room !in s.rooms then Answered(s, e, me, "LEAVE_ROOM", "NO_SUCH_ROOM", room, s')
      else if me !in s.rooms[room].members then Answered(s, e, me, "LEAVE_ROOM", "NOT_JOINED", room, s')
      else if s.rooms[room].members == {me} then s' == s.(rooms := s.rooms - {room})
      else
        var left := N.Room(s.rooms[room].members - {me}, s.rooms[room].guests);
        NewsForRoom(s.(rooms := s.rooms[room := left]), e, room, me, Letter(LEFT_ROOM, me, None, None, Some(room)), s')
  }

  /** A message from a user. */
  ghost predicate UserDoes(s: N.State, e: P.Env, m: Message, me: string, s': N.State)
    requires me in s.users && P.Dispatchable(m)
  {
    match m.kind
    case DISCONNECT => Disconnected(s, e, me, s')
    case STATUS => StatusDoes(s, e, m.status, me, s')
    case USERS => UsersDoes(s, e, me, s')
    case TEXT => TextDoes(s, e, m.username.value, m.text.value, me, s')
    case PUBLIC_TEXT => NewsForAll(s, e, me, Letter(PUBLIC_TEXT_FROM, me, None, m.text, None), s')
    case NEW_ROOM => NewRoomDoes(s, e, m.roomname, me, s')
    case INVITE => InviteDoes(s, e, m.roomname, m.usernames, me, s')
    case JOIN_ROOM => JoinDoes(s, e, m.roomname, me, s')
    case ROOM_USERS => RoomUsersDoes(s, e, m.roomname, me, s')
    case ROOM_TEXT => RoomTextDoes(s, e, m.roomname, m.text, me, s')
    case LEAVE_ROOM => LeaveDoes(s, e, m.roomname, me, s')
    case _ => s' == s
  }

  /** Any line from any descriptor. */
  ghost predicate Does(s: N.State, e: P.Env, msg: Option<Message>, fd: int, s': N.State)
    requires P.Handleable(msg)
  {
    if msg.None? then
      match N.Holder(s.users, fd)
      case None => s' == Closed(After1(s, e, fd, Answer("INVALID", "INVALID", None)), fd)
      case Some(me) => Refused(s, e, me, s')
    else if msg.value.kind == UNKNOWN then s' == s
    else if msg.value.kind == IDENTIFY then IdentifyDoes(s, e, msg.value.username, fd, s')
    else
      match N.Holder(s.users, fd)
      case None =>
        if msg.value.kind == DISCONNECT then s' == Closed(s, fd)
        else s' == Closed(After1(s, e, fd, Answer("INVALID", "NOT_IDENTIFIED", None)), fd)
      case Some(me) => UserDoes(s, e, msg.value, me, s')
  }

  // ------------------------------------------------------------------------------ the handlers

  lemma AttemptsTell(e: P.Env, users: map<string, User>, names: seq<string>, audience: set<string>, m: Message,
                     log: seq<P.Event>, lost: seq<string>)
    requires NoDuplicates(names) && (forall n :: n in names <==> n in audience) && audience <= users.Keys
    requires forall i :: 0 <= i < |names| ==> (names[i] in lost <==> !e.delivers(|log| + i))
    requires forall n :: n in lost ==> n in names
    ensures ToldInOrder(e, users, audience, m, log, log + E.Attempts(|log|, e, users, names, m), N.Elements(lost),
            names)
  {
    hide NoDuplicates;
  }

  lemma DeliverTells(log: seq<P.Event>, e: P.Env, users: map<string, User>, names: seq<string>, audience: set<string>,
                     m: Message)
    requires NoDuplicates(names) && (forall n :: n in names <==> n in audience) && audience <= users.Keys
    ensures var (log', lost) := N.Deliver(log, e, users, names, m);
            Told(e, users, audience, m, log, log', N.Elements(lost))
  {
    hide N.Deliver, N.Elements, NoDuplicates, E.Attempts, ToldInOrder;
    E.DeliverAttempts(log, e, users, names, m);
    AttemptsTell(e, users, names, audience, m, log, N.Deliver(log, e, users, names, m).1);
  }

  lemma OthersTold(e: P.Env, k: nat, all: set<string>, me: string)
    requires P.Iterates(e)
    ensures var names := N.Others(e.order(k, all), me);
            NoDuplicates(names) && forall n :: n in names <==> n in all - {me}
  {
    N.OthersAreListed(e.order(k, all), me);
    R.OthersDistinct(e.order(k, all), me);
  }

  lemma NotifyAllTells(s: N.State, e: P.Env, m: Message, me: string)
    requires P.Iterates(e)
    ensures NewsForAll(s, e, me, m, N.NotifyAll(s, e, m, me))
  {
    OthersTold(e, |s.log|, s.users.Keys, me);
    var names := N.Others(e.order(|s.log|, s.users.Keys), me);
    DeliverTells(s.log, e, s.users, names, s.users.Keys - {me}, m);
    var lost := N.Elements(N.Deliver(s.log, e, s.users, names, m).1);
    hide N.Deliver, N.Others, Told, P.Iterates;
    assert NewsForAllBut(s, e, me, m, N.NotifyAll(s, e, m, me), lost);
  }

  lemma NotifyRoomTells(s: N.State, e: P.Env, room: string, m: Message, me: string)
    requires P.Iterates(e) && N.Valid(s) && room in s.rooms
    ensures NewsForRoom(s, e, room, me, m, N.NotifyRoom(s, e, room, m, me))
  {
    var all := s.rooms[room].members;
    assert N.RoomOk(s.users, s.rooms[room]);
    OthersTold(e, |s.log|, all, me);
    var names := N.Others(e.order(|s.log|, all), me);
    DeliverTells(s.log, e, s.users, names, all - {me}, m);
    var lost := N.Elements(N.Deliver(s.log, e, s.users, names, m).1);
    hide N.Deliver, N.Others, Told, P.Iterates, N.Valid;
    assert NewsForRoomBut(s, e, room, me, m, N.NotifyRoom(s, e, room, m, me), lost);
  }

  lemma DisconnectDoes(s: N.State, e: P.Env, me: string)
    requires P.Iterates(e) && me in s.users
    ensures Disconnected(s, e, me, N.Disconnect(s, e, me))
  {
    var news := BLANK.(kind := DISCONNECTED, username := Some(me));
    NotifyAllTells(s, e, news, me);
    assert news == Letter(DISCONNECTED, me, None, None, None);
    hide N.NotifyAll, NewsForAll, P.Iterates;
    assert DisconnectedVia(s, e, me, N.Disconnect(s, e, me), N.NotifyAll(s, e, news, me));
  }

  lemma ReplyDoes(s: N.State, e: P.Env, me: string, m: Message)
    requires P.Iterates(e) && me in s.users
    ensures SentOrGone(s, e, me, m, N.Reply(s, e, me, m).0)
  {
    hide Disconnected, N.Disconnect, P.Iterates;
    DisconnectDoes(After1(s, e, s.users[me].fd, m), e, me);
  }

  lemma AnswerDoes(s: N.State, e: P.Env, me: string, operation: string, result: string, extra: string)
    requires P.Iterates(e) && me in s.users
    ensures Answered(s, e, me, operation, result, extra, N.Reply(s, e, me, P.Response(operation, result,
            Some(extra))).0)
  {
    ReplyDoes(s, e, me, P.Response(operation, result, Some(extra)));
    hide N.Reply, SentOrGone;
    assert P.Response(operation, result, Some(extra)) == Answer(operation, result, Some(extra));
  }

  lemma ExpelDoes(s: N.State, e: P.Env, me: string)
    requires P.Iterates(e) && me in s.users
    ensures Refused(s, e, me, N.Expel(s, e, me).0)
  {
    hide Disconnected, N.Disconnect, P.Iterates;
    DisconnectDoes(After1(s, e, s.users[me].fd, Answer("INVALID", "INVALID", None)), e, me);
    assert P.Response("INVALID", "INVALID", None) == Answer("INVALID", "INVALID", None);
  }

  lemma CutExactly(s: string, max: nat)
    ensures Cut(Truncate(s, max), s, max)
  {
  }

  lemma NewUserDoes(s: N.State, e: P.Env, name: string, fd: int)
    requires P.Iterates(e) && N.Holder(s.users, fd).None? && name !in s.users && name != ""
    ensures var s0 := s.(users := s.users[name := User(name, fd, ACTIVE)]);
            var (s1, ok) := N.Send(s0, e, fd, P.Response("IDENTIFY", "SUCCESS", Some(name)));
            var news := BLANK.(kind := NEW_USER, username := Some(name));
            var s' := if ok then N.NotifyAll(s1, e, news, name) else N.Disconnect(s1, e, name);
            IdentifiesAs(s, e, name, fd, s')
  {
    hide NewsForAll, Disconnected, N.NotifyAll, N.Disconnect, P.Iterates;
    var s0 := s.(users := s.users[name := User(name, fd, ACTIVE)]);
    var s1 := After1(s0, e, fd, Answer("IDENTIFY", "SUCCESS", Some(name)));
    NotifyAllTells(s1, e, Letter(NEW_USER, name, None, None, None), name);
    DisconnectDoes(s1, e, name);
  }

  lemma IdentifyIsDone(s: N.State, e: P.Env, m: Message, fd: int)
    requires P.Iterates(e)
    ensures IdentifyDoes(s, e, m.username, fd, N.Identify(s, e, m, fd).0)
  {
    if m.username.Some? {
      var name := Truncate(m.username.value, 8);
      CutExactly(m.username.value, 8);
      IdentifyNamed(s, e, m, fd, name);
      hide IdentifiesAs, N.Identify, Cut;
      assert Cut(name, m.username.value, 8) && IdentifiesAs(s, e, name, fd, N.Identify(s, e, m, fd).0);
    }
  }

  lemma IdentifyNamed(s: N.State, e: P.Env, m: Message, fd: int, name: string)
    requires P.Iterates(e) && m.username.Some? && name == Truncate(m.username.value, 8)
    ensures IdentifiesAs(s, e, name, fd, N.Identify(s, e, m, fd).0)
  {
    hide Refused, N.Expel, NewsForAll, Disconnected, N.NotifyAll, N.Disconnect, P.Iterates;
    match N.Holder(s.users, fd)
    case Some(me) => ExpelDoes(s, e, me);
    case None =>
      if name !in s.users && name != "" {
        NewUserDoes(s, e, name, fd);
      }
  }

  lemma StatusIsDone(s: N.State, e: P.Env, m: Message, me: string)
    requires P.Iterates(e) && me in s.users
    ensures StatusDoes(s, e, m.status, me, N.SetStatus(s, e, m, me).0)
  {
    hide Refused, N.Expel, NewsForAll, N.NotifyAll, P.Iterates;
    ExpelDoes(s, e, me);
    if m.status.Some? && ParseStatus(m.status.value).Some? {
      var status := ParseStatus(m.status.value).value;
      assert m.status.value == StatusText(status);
      DistinctTexts(status, s.users[me].status);
      var s1 := s.(users := s.users[me := s.users[me].(status := status)]);
      NotifyAllTells(s1, e, Letter(NEW_STATUS, me, m.status, None, None), me);
    }
  }

  lemma DistinctTexts(a: UserStatus, b: UserStatus)
    ensures StatusText(a) == StatusText(b) <==> a == b
  {
    assert |StatusText(a)| == 4 ==> StatusText(a)[0] == 'A' || StatusText(a)[0] == 'B';
  }

  lemma {:induction false} FieldsInOrder(users: map<string, User>, names: seq<string>)
    requires forall n :: n in names ==> n in users
    ensures var fields := P.UserFields(users, names);
            && |fields| == |names|
            && (forall i :: 0 <= i < |names| ==>
                 fields[i] == Field(names[i], JString(StatusText(users[names[i]].status))))
  {
    if names == [] {
    } else {
      FieldsInOrder(users, names[1..]);
      H.FieldsStep(users, names);
      assert StatusName(users[names[0]].status) == StatusText(users[names[0]].status);
    }
  }

  lemma ListIsDone(users: map<string, User>, listed: set<string>, e: P.Env, k: nat)
    requires P.Iterates(e) && listed <= users.Keys
    ensures ListsUsers(P.UsersObject(users, e.order(k, listed)), users, listed)
  {
    var names := e.order(k, listed);
    FieldsInOrder(users, names);
    hide P.UserFields;
    assert ListsInOrder(P.UsersObject(users, names), users, listed, names);
  }

  lemma UsersIsDone(s: N.State, e: P.Env, me: string)
    requires P.Iterates(e) && me in s.users
    ensures UsersDoes(s, e, me, N.ListUsers(s, e, me).0)
  {
    hide ListsUsers, SentOrGone, N.Reply, P.UsersObject, P.Iterates;
    var list := P.UsersObject(s.users, e.order(|s.log|, s.users.Keys));
    ListIsDone(s.users, s.users.Keys, e, |s.log|);
    ReplyDoes(s, e, me, Message(USER_LIST, None, None, None, None, None, Some(list), None, None, None));
  }

  lemma TextIsDone(s: N.State, e: P.Env, m: Message, me: string)
    requires P.Iterates(e) && me in s.users && m.username.Some? && m.text.Some?
    ensures TextDoes(s, e, m.username.value, m.text.value, me, N.Text(s, e, m, me).0)
  {
    hide Answered, Disconnected, N.Reply, N.Disconnect, P.Iterates;
    var to := m.username.value;
    AnswerDoes(s, e, me, "TEXT", "NO_SUCH_USER", to);
    if to in s.users {
      DisconnectDoes(After1(s, e, s.users[to].fd, Letter(TEXT_FROM, me, None, m.text, None)), e, me);
    }
  }

  lemma NewRoomIsDone(s: N.State, e: P.Env, m: Message, me: string)
    requires P.Iterates(e) && me in s.users
    ensures NewRoomDoes(s, e, m.roomname, me, N.NewRoom(s, e, m, me).0)
  {
    hide Answered, N.Reply, P.Response, P.Iterates, Cut;
    if m.roomname.Some? {
      var room := Truncate(m.roomname.value, 16);
      CutExactly(m.roomname.value, 16);
      AnswerDoes(s, e, me, "NEW_ROOM", "ROOM_ALREADY_EXISTS", room);
      AnswerDoes(s.(rooms := s.rooms[room := N.Room({me}, {})]), e, me, "NEW_ROOM", "SUCCESS", room);
      assert OpensAs(s, e, m.roomname.value, room, me, N.NewRoom(s, e, m, me).0);
    }
  }

  lemma JoinIsDone(s: N.State, e: P.Env, m: Message, me: string)
    requires P.Iterates(e) && N.Valid(s) && me in s.users
    ensures JoinDoes(s, e, m.roomname, me, N.JoinRoom(s, e, m, me).0)
  {
    hide Answered, Disconnected, NewsForRoom, N.Reply, N.Disconnect, N.NotifyRoom, P.Iterates, N.Valid;
    if m.roomname.Some? {
      var room := m.roomname.value;
      AnswerDoes(s, e, me, "JOIN_ROOM", "NO_SUCH_ROOM", room);
      AnswerDoes(s, e, me, "JOIN_ROOM", "NOT_INVITED", room);
      if room in s.rooms && me !in s.rooms[room].members && me in s.rooms[room].guests {
        E.MoveKeepsValid(s, room, me);
        var s1 := After1(N.GuestToMember(s, room, me), e, s.users[me].fd, Answer("JOIN_ROOM", "SUCCESS", Some(room)));
        DisconnectDoes(s1, e, me);
        NotifyRoomTells(s1, e, room, Letter(JOINED_ROOM, me, None, None, Some(room)), me);
      }
    }
  }

  lemma RoomUsersIsDone(s: N.State, e: P.Env, m: Message, me: string)
    requires P.Iterates(e) && N.Valid(s) && me in s.users
    ensures RoomUsersDoes(s, e, m.roomname, me, N.RoomUsers(s, e, m, me).0)
  {
    if m.roomname.Some? {
      var room := m.roomname.value;
      assert room in s.rooms ==> N.RoomOk(s.users, s.rooms[room]);
      hide Answered, ListsUsers, SentOrGone, N.Reply, P.UsersObject, P.Response, P.Iterates, N.Valid;
      AnswerDoes(s, e, me, "ROOM_USERS", "NO_SUCH_ROOM", room);
      AnswerDoes(s, e, me, "ROOM_USERS", "NOT_JOINED", room);
      if room in s.rooms {
        var list := P.UsersObject(s.users, e.order(|s.log|, s.rooms[room].members));
        ListIsDone(s.users, s.rooms[room].members, e, |s.log|);
        ReplyDoes(s, e, me, Message(ROOM_USER_LIST, None, None, None, None, None, Some(list), None, Some(room), None));
      }
    }
  }

  lemma RoomTextIsDone(s: N.State, e: P.Env, m: Message, me: string)
    requires P.Iterates(e) && N.Valid(s) && me in s.users
    ensures RoomTextDoes(s, e, m.roomname, m.text, me, N.RoomText(s, e, m, me).0)
  {
    hide Answered, NewsForRoom, N.Reply, N.NotifyRoom, P.Response, P.Iterates, N.Valid;
    if m.roomname.Some? {
      var room := m.roomname.value;
      AnswerDoes(s, e, me, "ROOM_TEXT", "NO_SUCH_ROOM", room);
      AnswerDoes(s, e, me, "ROOM_TEXT", "NOT_JOINED", room);
      if room in s.rooms {
        NotifyRoomTells(s, e, room, Letter(ROOM_TEXT_FROM, me, None, m.text, Some(room)), me);
      }
    }
  }

  lemma LeaveIsDone(s: N.State, e: P.Env, m: Message, me: string)
    requires P.Iterates(e) && N.Valid(s) && me in s.users
    ensures LeaveDoes(s, e, m.roomname, me, N.LeaveRoom(s, e, m, me).0)
  {
    hide Answered, NewsForRoom, N.Reply, P.Response, P.Iterates, N.Valid;
    if m.roomname.Some? {
      var room := m.roomname.value;
      AnswerDoes(s, e, me, "LEAVE_ROOM", "NO_SUCH_ROOM", room);
      AnswerDoes(s, e, me, "LEAVE_ROOM", "NOT_JOINED", room);
      if room in s.rooms && me in s.rooms[room].members {
        E.LeaveKeepsValid(s, room, me);
        assert s.rooms[room].members - {me} == {} <==> s.rooms[room].members == {me};
        if s.rooms[room].members != {me} {
          NotifyRoomTells(N.Leave(s, room, me), e, room, Letter(LEFT_ROOM, me, None, None, Some(room)), me);
        }
      }
    }
  }

  lemma LetInIsInvited(s: N.State, e: P.Env, room: string, names: seq<string>, n: nat, me: string)
    requires room in s.rooms && n <= |names| && forall x :: x in names ==> x in s.users
    ensures Invited(s, e, room, names, n, me,
                    H.LetIn(s, e, room, Letter(INVITATION, me, None, None, Some(room)), names, n))
  {
  }

  /** `n` is the last to be let in, and why it is. */
  lemma StopIsLast(s: N.State, e: P.Env, room: string, names: seq<string>, n: nat)
    requires room in s.rooms && H.StopsAt(s, e, room, names, n)
    ensures LetsIn(s, e, room, names, n)
    ensures n == H.Welcome(s.rooms[room], names) <==> !Enters(s.rooms[room], names, n)
    ensures n < H.Welcome(s.rooms[room], names) ==> !e.delivers(|s.log| + n)
  {
    WelcomeEnters(s.rooms[room], names);
    hide H.Welcome, Enters;
  }

  lemma WelcomeEnters(room: N.Room, names: seq<string>)
    ensures forall i: nat :: i < H.Welcome(room, names) ==> Enters(room, names, i)
    ensures !Enters(room, names, H.Welcome(room, names))
  {
    H.WelcomeIsFirstInside(room, names);
    hide H.Welcome;
  }

  lemma InviteEachIsDone(s: N.State, e: P.Env, room: string, names: seq<string>, me: string) returns (n: nat)
    requires P.Iterates(e) && me in s.users && room in s.rooms && forall x :: x in names ==> x in s.users
    ensures InvitesUpTo(s, e, room, names, n, me,
                        N.InviteEach(s, e, room, Letter(INVITATION, me, None, None, Some(room)), names))
  {
    n := H.SomewhereItStops(s, e, room, names);
    StopIsLast(s, e, room, names, n);
    InviteStops(s, e, room, names, me, n);
  }

  lemma InviteStops(s: N.State, e: P.Env, room: string, names: seq<string>, me: string, n: nat)
    requires P.Iterates(e) && me in s.users && room in s.rooms && forall x :: x in names ==> x in s.users
    requires H.StopsAt(s, e, room, names, n) && LetsIn(s, e, room, names, n)
    requires n == H.Welcome(s.rooms[room], names) <==> !Enters(s.rooms[room], names, n)
    requires n < H.Welcome(s.rooms[room], names) ==> !e.delivers(|s.log| + n)
    ensures InvitesUpTo(s, e, room, names, n, me,
                        N.InviteEach(s, e, room, Letter(INVITATION, me, None, None, Some(room)), names))
  {
    hide Invited, Disconnected, LetsIn, Enters, Letter, N.InviteEach, N.Disconnect, H.LetIn, H.Welcome, P.Iterates;
    var invitation := Letter(INVITATION, me, None, None, Some(room));
    H.InviteEachExact(s, e, room, invitation, names, n);
    AllUsers(s, names);
    if n == H.Welcome(s.rooms[room], names) {
      LetInIsInvited(s, e, room, names, n, me);
    } else {
      LostInvitee(s, e, room, names, me, n, H.LetIn(s, e, room, invitation, names, n + 1));
    }
  }

  lemma LostInvitee(s: N.State, e: P.Env, room: string, names: seq<string>, me: string, n: nat, s1: N.State)
    requires P.Iterates(e) && me in s.users && room in s.rooms && forall x :: x in names ==> x in s.users
    requires n < |names| && s1 == H.LetIn(s, e, room, Letter(INVITATION, me, None, None, Some(room)), names, n + 1)
    requires LetsIn(s, e, room, names, n) && Enters(s.rooms[room], names, n) && !e.delivers(|s.log| + n)
    ensures names[n] in s1.users
    ensures InvitesUpTo(s, e, room, names, n, me, N.Disconnect(s1, e, names[n]))
  {
    AllUsers(s, names);
    LetInIsInvited(s, e, room, names, n + 1, me);
    assert s1.users == s.users;
    hide Invited, Disconnected, LetsIn, Enters, N.Disconnect, H.LetIn, P.Iterates;
    DisconnectDoes(s1, e, names[n]);
    assert Invited(s, e, room, names, n + 1, me, s1) && names[n] in s1.users;
  }

  lemma AllUsers(s: N.State, names: seq<string>)
    requires forall x :: x in names ==> x in s.users
    ensures forall i :: 0 <= i < |names| ==> names[i] in s.users
  {
  }

  lemma {:induction false} FirstUnknownIndex(s: N.State, names: seq<string>) returns (i: nat)
    requires N.FirstUnknown(s.users, names).Some?
    ensures FirstUnknownAt(s, names, i) && N.FirstUnknown(s.users, names) == Some(names[i])
  {
    if names[0] !in s.users {
      i := 0;
    } else {
      i := FirstUnknownIndex(s, names[1..]);
      i := i + 1;
    }
  }

  lemma InviteListedIsDone(s: N.State, e: P.Env, m: Message, me: string, room: string, names: seq<string>)
    requires P.Iterates(e) && me in s.users && m.roomname == Some(room) && room in s.rooms
    requires me in s.rooms[room].members && m.usernames.Some? && NoNullElements(m.usernames.value)
    requires names == P.Values(m.usernames.value)
    ensures InvitesListed(s, e, room, names, me, N.Invite(s, e, m, me).0)
  {
    hide Answered, InvitesUpTo, N.InviteEach, N.Reply, N.FirstUnknown, P.Values, P.Response, P.Iterates;
    N.NoneUnknown(s.users, names);
    match N.FirstUnknown(s.users, names)
    case Some(name) =>
      var i := FirstUnknownIndex(s, names);
      AnswerDoes(s, e, me, "INVITE", "NO_SUCH_USER", name);
    case None =>
      var n := InviteEachIsDone(s, e, room, names, me);
  }

  lemma InviteIsDone(s: N.State, e: P.Env, m: Message, me: string)
    requires P.Iterates(e) && me in s.users && (m.usernames.Some? ==> NoNullElements(m.usernames.value))
    ensures InviteDoes(s, e, m.roomname, m.usernames, me, N.Invite(s, e, m, me).0)
  {
    if m.roomname.Some? && m.usernames.Some? {
      var room := m.roomname.value;
      AnswerDoes(s, e, me, "INVITE", "NO_SUCH_ROOM", room);
      ExpelDoes(s, e, me);
      var names := P.Values(m.usernames.value);
      assert H.ListsNames(m.usernames.value, names);
      if room in s.rooms && me in s.rooms[room].members {
        InviteListedIsDone(s, e, m, me, room, names);
        hide InvitesListed, N.Invite, H.ListsNames, P.Iterates, P.Values;
      } else {
        hide Answered, Refused, N.Reply, N.Expel, P.Iterates, P.Values;
      }
    }
  }

  // ---------------------------------------------------------------------------- every input

  lemma UserIsDone(s: N.State, e: P.Env, m: Message, me: string)
    requires P.Iterates(e) && N.Valid(s) && P.Dispatchable(m) && me in s.users
    requires m.kind != UNKNOWN && m.kind != IDENTIFY && N.Holder(s.users, s.users[me].fd) == Some(me)
    ensures UserDoes(s, e, m, me, N.Process(s, e, m, s.users[me].fd).0)
  {
    hide Disconnected, StatusDoes, UsersDoes, TextDoes, NewsForAll, NewRoomDoes, InviteDoes, JoinDoes, RoomUsersDoes,
      RoomTextDoes, LeaveDoes, N.Disconnect, N.SetStatus, N.ListUsers, N.Text, N.NotifyAll, N.NewRoom, N.Invite,
      N.JoinRoom, N.RoomUsers, N.RoomText, N.LeaveRoom, P.Iterates, N.Valid;
    match m.kind
    case DISCONNECT => DisconnectDoes(s, e, me);
    case STATUS => StatusIsDone(s, e, m, me);
    case USERS => UsersIsDone(s, e, me);
    case TEXT => TextIsDone(s, e, m, me);
    case PUBLIC_TEXT => NotifyAllTells(s, e, Letter(PUBLIC_TEXT_FROM, me, None, m.text, None), me);
    case NEW_ROOM => NewRoomIsDone(s, e, m, me);
    case INVITE => InviteIsDone(s, e, m, me);
    case JOIN_ROOM => JoinIsDone(s, e, m, me);
    case ROOM_USERS => RoomUsersIsDone(s, e, m, me);
    case ROOM_TEXT => RoomTextIsDone(s, e, m, me);
    case LEAVE_ROOM => LeaveIsDone(s, e, m, me);
    case _ =>
  }

  lemma StepIsDone(s: N.State, e: P.Env, msg: Option<Message>, fd: int)
    requires P.Iterates(e) && N.Valid(s) && P.Handleable(msg)
    ensures Does(s, e, msg, fd, N.Step(s, e, msg, fd).0)
  {
    hide IdentifyDoes, UserDoes, Refused, N.Identify, N.Expel, P.Iterates, N.Valid, P.Dispatchable;
    match N.Holder(s.users, fd)
    case None =>
      if msg.Some? && msg.value.kind == IDENTIFY {
        IdentifyIsDone(s, e, msg.value, fd);
      }
    case Some(me) =>
      if msg.None? {
        ExpelDoes(s, e, me);
      } else if msg.value.kind == IDENTIFY {
        IdentifyIsDone(s, e, msg.value, fd);
      } else if msg.value.kind != UNKNOWN {
        UserIsDone(s, e, msg.value, me);
      }
  }

  /** From any consistent state, every line a client can send does what is told above, and the copies are
      in step again afterwards. */
  lemma InputDoes(c: P.State, e: P.Env, msg: Option<Message>, fd: int)
    requires P.Iterates(e) && Consistent(c) && P.Handleable(msg) && fd >= 0
    ensures Consistent(P.Step(c, e, msg, fd).0)
    ensures Does(Names(c), e, msg, fd, Names(P.Step(c, e, msg, fd).0))
  {
    StepKeepsConsistent(c, e, msg, fd);
    hide Does, Consistent, P.Step, N.Step, P.Iterates;
    StepIsDone(Names(c), e, msg, fd);
  }

  /** The same at every input of every run. */
  lemma RunDoes(e: P.Env, run: seq<P.Input>, k: nat)
    requires P.Iterates(e) && P.Admissible(run) && k < |run|
    ensures P.Handleable(run[k].msg)
    ensures Does(Names(P.After(e, run, k)), e, run[k].msg, run[k].fd, Names(P.After(e, run, k + 1)))
  {
    ReachableIsConsistent(e, run, k);
    hide Does, Consistent, P.Step, P.Iterates;
    InputDoes(P.After(e, run, k), e, run[k].msg, run[k].fd);
  }

  /** An object whose type is no string, or any string that names no type, is a message of no known type; it
      changes nothing, and nobody is told or answered. */
  lemma UnknownTypeIsIgnored(c: P.State, e: P.Env, json: Json, fd: int)
    requires Decode(json).Some?
    requires forall text :: Find(json.fields, "type") == Some(JString(text)) ==>
               text !in {"IDENTIFY", "STATUS", "USERS", "TEXT", "PUBLIC_TEXT", "NEW_ROOM", "INVITE", "INVITATION",
                         "JOIN_ROOM", "ROOM_USERS", "ROOM_TEXT", "LEAVE_ROOM", "DISCONNECT", "NEW_USER", "NEW_STATUS",
                         "USER_LIST", "TEXT_FROM", "PUBLIC_TEXT_FROM", "JOINED_ROOM", "ROOM_USER_LIST",
                         "ROOM_TEXT_FROM", "LEFT_ROOM", "DISCONNECTED", "RESPONSE"}
    ensures Decode(json).value.kind == UNKNOWN && P.Handleable(Decode(json))
    ensures P.Step(c, e, Decode(json), fd) == (c, false)
  {
    KindsByName(json);
    DecodableMessages(Decode(json).value);
    hide Decode, Find, P.NewRoom, P.Invite, P.JoinRoom;
  }

  // ------------------------------------------------------------------------- some, spelled out

  /** From any consistent state: an unknown descriptor that sends IDENTIFY is registered under the first eight
      bytes of the name, or all of it, if that is free.  The first entry of the log is the answer; if it
      arrives, each other user is sent exactly one NEW_USER, and nobody is lost but who is not reached. */
  lemma NewcomerIsRegistered(c: P.State, e: P.Env, m: Message, fd: int, name: string)
    returns (names: seq<string>, lost: set<string>)
    requires P.Iterates(e) && Consistent(c) && P.Dispatchable(m) && fd >= 0
    requires m.kind == IDENTIFY && m.username.Some? && m.username.value != ""
    requires name <= m.username.value && |name| == if |m.username.value| <= 8 then |m.username.value| else 8
    requires name !in c.users.byName && forall n :: n in c.users.byName ==> c.users.byName[n].fd != fd
    ensures var c' := P.Process(c, e, m, fd).0;
            var log := c.log + [P.Sent(fd, Answer("IDENTIFY", "SUCCESS", Some(name)), e.delivers(|c.log|))];
            && log <= c'.log
            && if e.delivers(|c.log|) then
                 && ToldInOrder(e, c.users.byName, c.users.byName.Keys, Letter(NEW_USER, name, None, None, None),
                     log, c'.log,
                                lost, names)
                 && c'.users.byName == c.users.byName[name := User(name, fd, ACTIVE)] - lost
               else H.NoTrace(c', name, fd)
  {
    InputDoes(c, e, Some(m), fd);
    names, lost := [], {};
    NobodyHolds(c, fd);
    hide P.Process, Consistent;
    names, lost := NewcomerTold(Names(c), e, m.username.value, fd, name, Names(P.Process(c, e, m, fd).0));
    if !e.delivers(|c.log|) {
      GoneWithoutTrace(P.Process(c, e, m, fd).0, name, fd);
    }
  }

  lemma NobodyHolds(c: P.State, fd: int)
    requires forall n :: n in c.users.byName ==> c.users.byName[n].fd != fd
    ensures N.Holder(Names(c).users, fd).None?
  {
  }

  lemma GoneWithoutTrace(c: P.State, name: string, fd: int)
    requires Consistent(c) && name !in Names(c).users && N.Holder(Names(c).users, fd).None?
    ensures H.NoTrace(c, name, fd)
  {
    ConsistentMeansCopies(c);
    H.NoTraceOfCopies(Names(c), name, fd);
  }

  lemma NewcomerTold(s: N.State, e: P.Env, username: string, fd: int, name: string, s': N.State)
    returns (names: seq<string>, lost: set<string>)
    requires IdentifyDoes(s, e, Some(username), fd, s') && Cut(name, username, 8) && name != ""
    requires N.Holder(s.users, fd).None? && name !in s.users
    ensures var log := s.log + [P.Sent(fd, Answer("IDENTIFY", "SUCCESS", Some(name)), e.delivers(|s.log|))];
            && log <= s'.log
            && if e.delivers(|s.log|) then
                 && ToldInOrder(e, s.users, s.users.Keys, Letter(NEW_USER, name, None, None, None), log, s'.log,
                     lost, names)
                 && s'.users == s.users[name := User(name, fd, ACTIVE)] - lost
               else name !in s'.users && N.Holder(s'.users, fd).None?
  {
    var other :| Cut(other, username, 8) && IdentifiesAs(s, e, other, fd, s');
    assert other == username[..|other|] && name == username[..|name|];
    hide Cut;
    names, lost := [], {};
    var s0 := s.(users := s.users[name := User(name, fd, ACTIVE)]);
    var s1 := After1(s0, e, fd, Answer("IDENTIFY", "SUCCESS", Some(name)));
    var news := Letter(NEW_USER, name, None, None, None);
    if e.delivers(|s.log|) {
      hide ToldInOrder, Disconnected;
      lost :| NewsForAllBut(s1, e, name, news, s', lost);
      names :| ToldInOrder(e, s1.users, s1.users.Keys - {name}, news, s1.log, s'.log, lost, names);
      assert s1.users.Keys - {name} == s.users.Keys;
      SameTelling(e, s1.users, s.users, s.users.Keys, news, s1.log, s'.log, lost, names);
    } else {
      NobodyLeft(s1, e, name, fd, s');
    }
  }

  lemma SameTelling(e: P.Env, users: map<string, User>, users': map<string, User>, audience: set<string>, m: Message,
                    log: seq<P.Event>, log': seq<P.Event>, lost: set<string>, names: seq<string>)
    requires ToldInOrder(e, users, audience, m, log, log', lost, names) && audience <= users'.Keys
    requires forall n :: n in audience ==> users'[n] == users[n]
    ensures ToldInOrder(e, users', audience, m, log, log', lost, names) && log <= log'
  {
  }

  lemma NobodyLeft(s1: N.State, e: P.Env, me: string, fd: int, s': N.State)
    requires me in s1.users && s1.users[me].fd == fd && Disconnected(s1, e, me, s')
    requires forall n :: n in s1.users && n != me ==> s1.users[n].fd != fd
    ensures me !in s'.users && N.Holder(s'.users, fd).None? && s1.log <= s'.log
  {
    hide Told, Without;
    var s2 :| DisconnectedVia(s1, e, me, s', s2);
    var lost :| NewsForAllBut(s1, e, me, Letter(DISCONNECTED, me, None, None, None), s2, lost);
    TellingGrows(e, s1.users, s1.users.Keys - {me}, Letter(DISCONNECTED, me, None, None, None), s1.log, s2.log, lost);
  }

  lemma TellingGrows(e: P.Env, users: map<string, User>, audience: set<string>, m: Message,
                     log: seq<P.Event>, log': seq<P.Event>, lost: set<string>)
    requires Told(e, users, audience, m, log, log', lost)
    ensures log <= log'
  {
  }

  /** A text to another user is sent to the descriptor of that user, once, and first.  If it arrives nothing
      else happens; if it does not, its sender leaves no trace. */
  lemma TextGoesToItsReceiver(c: P.State, e: P.Env, m: Message, me: string, to: string)
    requires P.Iterates(e) && Consistent(c) && P.Dispatchable(m) && m.kind == TEXT && m.username == Some(to)
    requires me in c.users.byName && to in c.users.byName && to != me
    ensures var fd := c.users.byName[me].fd;
            var c' := P.Process(c, e, m, fd).0;
            var log := c.log + [P.Sent(c.users.byName[to].fd, Letter(TEXT_FROM, me, None, m.text, None),
                e.delivers(|c.log|))];
            && log <= c'.log
            && (if e.delivers(|c.log|) then c' == c.(log := log) else H.NoTrace(c', me, fd))
  {
    var fd := c.users.byName[me].fd;
    FdNotNegative(c, me);
    InputDoes(c, e, Some(m), fd);
    HolderIs(c, me);
    var s, s' := Names(c), Names(P.Process(c, e, m, fd).0);
    var s1 := After1(s, e, s.users[to].fd, Letter(TEXT_FROM, me, None, m.text, None));
    hide P.Process, Consistent, Disconnected;
    if e.delivers(|c.log|) {
      SameNames(c, P.Process(c, e, m, fd).0, s1.log);
    } else {
      OthersElsewhere(c, me);
      NobodyLeft(s1, e, me, fd, s');
      GoneWithoutTrace(P.Process(c, e, m, fd).0, me, fd);
    }
  }

  lemma FdNotNegative(c: P.State, me: string)
    requires Consistent(c) && me in c.users.byName
    ensures c.users.byName[me].fd >= 0
  {
  }

  lemma HolderIs(c: P.State, me: string)
    requires Consistent(c) && me in c.users.byName
    ensures N.Holder(Names(c).users, c.users.byName[me].fd) == Some(me)
  {
    OthersElsewhere(c, me);
  }

  lemma OthersElsewhere(c: P.State, me: string)
    requires Consistent(c) && me in c.users.byName
    ensures forall n :: n in c.users.byName && n != me ==> c.users.byName[n].fd != c.users.byName[me].fd
  {
    R.InverseIsTableOf(c.users);
  }

  lemma SameNames(c: P.State, c': P.State, log: seq<P.Event>)
    requires Consistent(c) && Consistent(c') && Names(c') == Names(c).(log := log)
    ensures c' == c.(log := log)
  {
    ConsistentMeansCopies(c);
    ConsistentMeansCopies(c');
    R.LogOnly(Names(c), log);
  }

  /** A user who asks for another status takes it, and each other user is sent it, under its name, exactly
      once. */
  lemma StatusIsTaken(c: P.State, e: P.Env, m: Message, me: string, status: UserStatus)
    returns (names: seq<string>, lost: set<string>)
    requires P.Iterates(e) && Consistent(c) && P.Dispatchable(m) && me in c.users.byName
    requires m.kind == STATUS && m.status == Some(StatusText(status)) && c.users.byName[me].status != status
    ensures var u := c.users.byName[me];
            var c' := P.Process(c, e, m, u.fd).0;
            && Consistent(c')
            && ToldInOrder(e, c.users.byName, c.users.byName.Keys - {me}, Letter(NEW_STATUS, me, m.status, None, None),
                           c.log, c'.log, lost, names)
            && c'.users.byName == c.users.byName[me := User(u.name, u.fd, status)] - lost
  {
    var fd := c.users.byName[me].fd;
    FdNotNegative(c, me);
    InputDoes(c, e, Some(m), fd);
    HolderIs(c, me);
    hide P.Process, Consistent;
    names, lost := StatusTold(Names(c), e, me, status, Names(P.Process(c, e, m, fd).0));
  }

  lemma StatusTold(s: N.State, e: P.Env, me: string, status: UserStatus, s': N.State)
    returns (names: seq<string>, lost: set<string>)
    requires me in s.users && s.users[me].status != status && StatusDoes(s, e, Some(StatusText(status)), me, s')
    ensures ToldInOrder(e, s.users, s.users.Keys - {me}, Letter(NEW_STATUS, me, Some(StatusText(status)), None, None),
                        s.log, s'.log, lost, names)
    ensures s'.users == s.users[me := User(s.users[me].name, s.users[me].fd, status)] - lost
  {
    DistinctTexts(status, s.users[me].status);
    var other :| StatusText(status) == StatusText(other) && TakesStatus(s, e, other, me, s');
    DistinctTexts(status, other);
    hide ToldInOrder, StatusText;
    var s1 := s.(users := s.users[me := User(s.users[me].name, s.users[me].fd, status)]);
    var news := Letter(NEW_STATUS, me, Some(StatusText(status)), None, None);
    lost :| NewsForAllBut(s1, e, me, news, s', lost);
    names :| ToldInOrder(e, s1.users, s1.users.Keys - {me}, news, s1.log, s'.log, lost, names);
    assert s1.users.Keys - {me} == s.users.Keys - {me};
    SameTelling(e, s1.users, s.users, s.users.Keys - {me}, news, s1.log, s'.log, lost, names);
  }
}
