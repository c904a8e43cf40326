/** The chat server as its users see it.  There is one record for each user; a room is two sets of
    usernames; whatever else a room needs it reads from the user's record.  Nothing is copied and
    there is no second index. */
module NameServer {
  import opened Base
  import opened Messages
  import P = Protocol

  datatype Room = Room(members: set<string>, guests: set<string>)

  datatype State = State(users: map<string, User>, rooms: map<string, Room>, log: seq<P.Event>)

  const START := State(map[], map[], [])

  ghost predicate OneUserPerFd(users: map<string, User>) {
    forall n, n' :: n in users && n' in users && users[n].fd == users[n'].fd ==> n == n'
  }

  ghost predicate UsersOk(users: map<string, User>) {
    && OneUserPerFd(users)
    && (forall n :: n in users ==> users[n].name == n && UsernameOk(n) && users[n].fd >= 0)
  }

  ghost predicate RoomOk(users: map<string, User>, room: Room) {
    room.members <= users.Keys && room.guests <= users.Keys && room.members !! room.guests
  }

  ghost predicate Valid(s: State) {
    && UsersOk(s.users)
    && (forall r :: r in s.rooms ==> RoomnameOk(r) && RoomOk(s.users, s.rooms[r]))
  }

  /** The user behind a descriptor. */
  ghost function Holder(users: map<string, User>, fd: int): (r: Option<string>)
    ensures r.Some? ==> r.value in users && users[r.value].fd == fd
    ensures r.None? ==> forall n :: n in users ==> users[n].fd != fd
  {
    if exists n :: n in users && users[n].fd == fd then
      var n :| n in users && users[n].fd == fd;
      Some(n)
    else None
  }

  // ------------------------------------------------------------------------------ sending

  function Close(s: State, fd: int): State {
    s.(log := s.log + [P.Closed(fd)])
  }

  function Send(s: State, e: P.Env, fd: int, m: Message): (State, bool) {
    var ok := e.delivers(|s.log|);
    (s.(log := s.log + [P.Sent(fd, m, ok)]), ok)
  }

  function Others(names: seq<string>, me: string): seq<string> {
    if names == [] then []
    else (if names[0] != me then [names[0]] else []) + Others(names[1..], me)
  }

  /** Sends to each user in turn; also returns the users whose send failed. */
  function Deliver(log: seq<P.Event>, e: P.Env, users: map<string, User>, names: seq<string>, m: Message)
    : (seq<P.Event>, seq<string>)
    requires forall n :: n in names ==> n in users
    decreases names
  {
    if names == [] then (log, [])
    else
      var ok := e.delivers(|log|);
      var (log', lost) := Deliver(log + [P.Sent(users[names[0]].fd, m, ok)], e, users, names[1..], m);
      (log', (if ok then [] else [names[0]]) + lost)
  }

  function Elements(names: seq<string>): set<string> {
    set n | n in names
  }

  function WithoutIn(rooms: map<string, Room>, names: set<string>): map<string, Room> {
    map r | r in rooms :: Room(rooms[r].members - names, rooms[r].guests - names)
  }

  function DropFromRooms(s: State, names: set<string>): State {
    s.(rooms := WithoutIn(s.rooms, names))
  }

  function Forget(s: State, names: set<string>): State {
    State(s.users - names, WithoutIn(s.rooms, names), s.log)
  }

  /** Who is told when `me` has news for `audience`, in the order of an iteration. */
  function Audience(s: State, e: P.Env, audience: set<string>, me: string): seq<string> {
    Others(e.order(|s.log|, audience), me)
  }

  /** News for everyone else; who cannot be reached is forgotten. */
  ghost function NotifyAll(s: State, e: P.Env, m: Message, me: string): State
    requires P.Iterates(e)
  {
    OthersAreListed(e.order(|s.log|, s.users.Keys), me);
    var (log, lost) := Deliver(s.log, e, s.users, Audience(s, e, s.users.Keys, me), m);
    Forget(s.(log := log), Elements(lost))
  }

  /** News for the other members of a room; who cannot be reached leaves every room. */
  ghost function NotifyRoom(s: State, e: P.Env, room: string, m: Message, me: string): State
    requires P.Iterates(e) && Valid(s)
  {
    if room !in s.rooms then s
    else
      OthersAreListed(e.order(|s.log|, s.rooms[room].members), me);
      var (log, lost) := Deliver(s.log, e, s.users, Audience(s, e, s.rooms[room].members, me), m);
      DropFromRooms(s.(log := log), Elements(lost))
  }

  lemma {:induction false} OthersAreListed(names: seq<string>, me: string)
    ensures forall n :: n in Others(names, me) <==> n in names && n != me
  {
    if names == [] {
    } else {
      OthersAreListed(names[1..], me);
    }
  }

  // ----------------------------------------------------------------------------- handlers

  ghost function Disconnect(s: State, e: P.Env, me: string): State
    requires P.Iterates(e) && me in s.users
  {
    var s1 := NotifyAll(s, e, BLANK.(kind := DISCONNECTED, username := Some(me)), me);
    Close(Forget(s1, {me}), s.users[me].fd)
  }

  ghost function Expel(s: State, e: P.Env, me: string): (State, bool)
    requires P.Iterates(e) && me in s.users
  {
    (Disconnect(Send(s, e, s.users[me].fd, P.Response("INVALID", "INVALID", None)).0, e, me), true)
  }

  ghost function Reply(s: State, e: P.Env, me: string, m: Message): (State, bool)
    requires P.Iterates(e) && me in s.users
  {
    var (s1, ok) := Send(s, e, s.users[me].fd, m);
    (if ok then s1 else Disconnect(s1, e, me), true)
  }

  ghost function Identify(s: State, e: P.Env, m: Message, fd: int): (State, bool)
    requires P.Iterates(e)
  {
    if m.username.None? then (s, false)
    else
      var name := Truncate(m.username.value, USERNAME_MAX);
      match Holder(s.users, fd)
      case Some(me) => if me != name then Expel(s, e, me) else (s, true)
      case None =>
        if name in s.users then
          (Close(Send(s, e, fd, P.Response("IDENTIFY", "USER_ALREADY_EXISTS", Some(name))).0, fd), true)
        else if name == "" then (s, false)
        else
          var s0 := s.(users := s.users[name := User(name, fd, ACTIVE)]);
          var (s1, ok) := Send(s0, e, fd, P.Response("IDENTIFY", "SUCCESS", Some(name)));
          (if ok then NotifyAll(s1, e, BLANK.(kind := NEW_USER, username := Some(name)), name)
           else Disconnect(s1, e, name), true)
  }

  ghost function SetStatus(s: State, e: P.Env, m: Message, me: string): (State, bool)
    requires P.Iterates(e) && me in s.users
  {
    if m.status.None? then (s, false)
    else
      match ParseStatus(m.status.value)
      case None => Expel(s, e, me)
      case Some(status) =>
        if s.users[me].status == status then (s, true)
        else
          var s1 := s.(users := s.users[me := s.users[me].(status := status)]);
          (NotifyAll(s1, e, BLANK.(kind := NEW_STATUS, username := Some(me), status := m.status), me), true)
  }

  ghost function ListUsers(s: State, e: P.Env, me: string): (State, bool)
    requires P.Iterates(e) && me in s.users
  {
    var users := P.UsersObject(s.users, e.order(|s.log|, s.users.Keys));
    Reply(s, e, me, BLANK.(kind := USER_LIST, users := Some(users)))
  }

  /** A text that cannot be delivered disconnects its sender. */
  ghost function Text(s: State, e: P.Env, m: Message, me: string): (State, bool)
    requires P.Iterates(e) && me in s.users && m.username.Some? && m.text.Some?
  {
    var to := m.username.value;
    if to !in s.users then Reply(s, e, me, P.Response("TEXT", "NO_SUCH_USER", Some(to)))
    else if to == me then (s, true)
    else
      var (s1, ok) := Send(s, e, s.users[to].fd, BLANK.(kind := TEXT_FROM, username := Some(me), text := m.text));
      (if ok then s1 else Disconnect(s1, e, me), true)
  }

  ghost function PublicText(s: State, e: P.Env, m: Message, me: string): (State, bool)
    requires P.Iterates(e) && m.text.Some?
  {
    (NotifyAll(s, e, BLANK.(kind := PUBLIC_TEXT_FROM, username := Some(me), text := m.text), me), true)
  }

  ghost function NewRoom(s: State, e: P.Env, m: Message, me: string): (State, bool)
    requires P.Iterates(e) && me in s.users
  {
    if m.roomname.None? then (s, false)
    else
      var room := Truncate(m.roomname.value, ROOMNAME_MAX);
      if m.roomname.value in s.rooms then
        Reply(s, e, me, P.Response("NEW_ROOM", "ROOM_ALREADY_EXISTS", Some(room)))
      else if room == "" || room in s.rooms then (s, false)
      else
        Reply(s.(rooms := s.rooms[room := Room({me}, {})]), e, me, P.Response("NEW_ROOM", "SUCCESS", Some(room)))
  }

  /** The first listed name that is not a user. */
  function FirstUnknown(users: map<string, User>, names: seq<string>): Option<string> {
    if names == [] then None
    else if names[0] !in users then Some(names[0])
    else FirstUnknown(users, names[1..])
  }

  function AddGuest(s: State, room: string, name: string): State
    requires room in s.rooms
  {
    s.(rooms := s.rooms[room := s.rooms[room].(guests := s.rooms[room].guests + {name})])
  }

  /** Invites in turn, up to the first who is in the room already or cannot be reached. */
  ghost function InviteEach(s: State, e: P.Env, room: string, invitation: Message, names: seq<string>): State
    requires P.Iterates(e) && room in s.rooms && forall n :: n in names ==> n in s.users
    decreases names
  {
    if names == [] || names[0] in s.rooms[room].members + s.rooms[room].guests then s
    else
      var (s1, ok) := Send(AddGuest(s, room, names[0]), e, s.users[names[0]].fd, invitation);
      if ok then InviteEach(s1, e, room, invitation, names[1..]) else Disconnect(s1, e, names[0])
  }

  lemma {:induction false} NoneUnknown(users: map<string, User>, names: seq<string>)
    ensures FirstUnknown(users, names).None? <==> forall n :: n in names ==> n in users
  {
    if names == [] {
    } else {
      NoneUnknown(users, names[1..]);
    }
  }

  ghost function Invite(s: State, e: P.Env, m: Message, me: string): (State, bool)
    requires P.Iterates(e) && me in s.users
    requires m.usernames.Some? ==> NoNullElements(m.usernames.value)
  {
    if m.roomname.None? || m.usernames.None? then (s, false)
    else
      var room := m.roomname.value;
      var names := P.Values(m.usernames.value);
      if room !in s.rooms then Reply(s, e, me, P.Response("INVITE", "NO_SUCH_ROOM", Some(room)))
      else if me !in s.rooms[room].members then Expel(s, e, me)
      else
        NoneUnknown(s.users, names);
        match FirstUnknown(s.users, names)
        case Some(name) => Reply(s, e, me, P.Response("INVITE", "NO_SUCH_USER", Some(name)))
        case None =>
          var invitation := BLANK.(kind := INVITATION, username := Some(me), roomname := Some(room));
          (InviteEach(s, e, room, invitation, names), true)
  }

  function GuestToMember(s: State, room: string, me: string): State
    requires room in s.rooms
  {
    s.(rooms := s.rooms[room := Room(s.rooms[room].members + {me}, s.rooms[room].guests - {me})])
  }

  ghost function JoinRoom(s: State, e: P.Env, m: Message, me: string): (State, bool)
    requires P.Iterates(e) && Valid(s) && me in s.users
  {
    if m.roomname.None? then (s, false)
    else
      var room := m.roomname.value;
      if room !in s.rooms then Reply(s, e, me, P.Response("JOIN_ROOM", "NO_SUCH_ROOM", Some(room)))
      else if me in s.rooms[room].members then (s, true)
      else if me !in s.rooms[room].guests then Reply(s, e, me, P.Response("JOIN_ROOM", "NOT_INVITED", Some(room)))
      else
        var (s1, ok) := Send(GuestToMember(s, room, me), e, s.users[me].fd,
                            P.Response("JOIN_ROOM", "SUCCESS", Some(room)));
        var joined := BLANK.(kind := JOINED_ROOM, roomname := Some(room), username := Some(me));
        (if ok then NotifyRoom(s1, e, room, joined, me)
         else Disconnect(s1, e, me), true)
  }

  function Restrict(users: map<string, User>, names: set<string>): map<string, User> {
    map n | n in users && n in names :: users[n]
  }

  ghost function RoomUsers(s: State, e: P.Env, m: Message, me: string): (State, bool)
    requires P.Iterates(e) && me in s.users
  {
    if m.roomname.None? then (s, false)
    else
      var room := m.roomname.value;
      if room !in s.rooms then Reply(s, e, me, P.Response("ROOM_USERS", "NO_SUCH_ROOM", Some(room)))
      else if me !in s.rooms[room].members then Reply(s, e, me, P.Response("ROOM_USERS", "NOT_JOINED", Some(room)))
      else
        var members := s.rooms[room].members;
        var users := P.UsersObject(s.users, e.order(|s.log|, members));
        Reply(s, e, me, BLANK.(kind := ROOM_USER_LIST, roomname := Some(room), users := Some(users)))
  }

  ghost function RoomText(s: State, e: P.Env, m: Message, me: string): (State, bool)
    requires P.Iterates(e) && Valid(s) && me in s.users
  {
    if m.roomname.None? || m.text.None? then (s, false)
    else
      var room := m.roomname.value;
      if room !in s.rooms then Reply(s, e, me, P.Response("ROOM_TEXT", "NO_SUCH_ROOM", Some(room)))
      else if me !in s.rooms[room].members then Reply(s, e, me, P.Response("ROOM_TEXT", "NOT_JOINED", Some(room)))
      else
        var text := BLANK.(kind := ROOM_TEXT_FROM, roomname := Some(room), username := Some(me), text := m.text);
        (NotifyRoom(s, e, room, text, me), true)
  }

  function Leave(s: State, room: string, me: string): State
    requires room in s.rooms
  {
    var members := s.rooms[room].members - {me};
    if members == {} then s.(rooms := s.rooms - {room})
    else s.(rooms := s.rooms[room := s.rooms[room].(members := members)])
  }

  ghost function LeaveRoom(s: State, e: P.Env, m: Message, me: string): (State, bool)
    requires P.Iterates(e) && Valid(s) && me in s.users
  {
    if m.roomname.None? then (s, false)
    else
      var room := m.roomname.value;
      if room !in s.rooms then Reply(s, e, me, P.Response("LEAVE_ROOM", "NO_SUCH_ROOM", Some(room)))
      else if me !in s.rooms[room].members then Reply(s, e, me, P.Response("LEAVE_ROOM", "NOT_JOINED", Some(room)))
      else
        var left := BLANK.(kind := LEFT_ROOM, roomname := Some(room), username := Some(me));
        (NotifyRoom(Leave(s, room, me), e, room, left, me), true)
  }

  ghost function Process(s: State, e: P.Env, m: Message, fd: int): (State, bool)
    requires P.Iterates(e) && Valid(s) && P.Dispatchable(m)
  {
    if m.kind == UNKNOWN then (s, false)
    else if m.kind == IDENTIFY then Identify(s, e, m, fd)
    else
      match Holder(s.users, fd)
      case None =>
        if m.kind == DISCONNECT then (Close(s, fd), true)
        else (Close(Send(s, e, fd, P.Response("INVALID", "NOT_IDENTIFIED", None)).0, fd), true)
      case Some(me) =>
        match m.kind
        case DISCONNECT => (Disconnect(s, e, me), true)
        case STATUS => SetStatus(s, e, m, me)
        case USERS => ListUsers(s, e, me)
        case TEXT => Text(s, e, m, me)
        case PUBLIC_TEXT => PublicText(s, e, m, me)
        case NEW_ROOM => NewRoom(s, e, m, me)
        case INVITE => Invite(s, e, m, me)
        case JOIN_ROOM => JoinRoom(s, e, m, me)
        case ROOM_USERS => RoomUsers(s, e, m, me)
        case ROOM_TEXT => RoomText(s, e, m, me)
        case LEAVE_ROOM => LeaveRoom(s, e, m, me)
        case _ => (s, true)
  }

  /** Text that is no message: the client is told so and disconnected. */
  ghost function Refuse(s: State, e: P.Env, fd: int): (State, bool)
    requires P.Iterates(e)
  {
    match Holder(s.users, fd)
    case None => (Close(Send(s, e, fd, P.Response("INVALID", "INVALID", None)).0, fd), true)
    case Some(me) => Expel(s, e, me)
  }

  ghost function Step(s: State, e: P.Env, msg: Option<Message>, fd: int): (State, bool)
    requires P.Iterates(e) && Valid(s) && P.Handleable(msg)
  {
    match msg
    case None => Refuse(s, e, fd)
    case Some(m) => Process(s, e, m, fd)
  }
}
