/** The chat server as the code keeps it (message_handler.c over users_table.c and room_table.c):
    a master table of users, and rooms that hold copies of user records in tables of their own.
    Each handler is one atomic step.  Sending is decided by an environment and recorded in a log. */
module Protocol {
  import opened Base
  import opened Messages
  import opened UserTables

  datatype Event = Sent(fd: int, msg: Message, ok: bool) | Closed(fd: int)

  /** What the server does not control: `delivers(k)` is the outcome of the send that becomes entry
      `k` of the log, and `order(k, names)` is the order in which a hash table with these keys is
      visited when the log has `k` entries. */
  datatype Env = Env(delivers: nat -> bool, order: (nat, set<string>) -> seq<string>)

  /** An iteration visits every key once. */
  ghost predicate Iterates(e: Env) {
    forall k, names :: NoDuplicates(e.order(k, names)) && (forall n :: n in e.order(k, names) <==> n in names)
  }

  datatype Room = Room(members: Table, guests: Table)

  datatype State = State(users: Table, rooms: map<string, Room>, log: seq<Event>)

  const START := State(EMPTY, map[], [])

  // ------------------------------------------------------------------------------- sending

  function Response(operation: string, result: string, extra: Option<string>): Message {
    BLANK.(kind := RESPONSE, operation := Some(operation), result := Some(result), extra := extra)
  }

  function Send(s: State, e: Env, fd: int, m: Message): (State, bool) {
    var ok := e.delivers(|s.log|);
    (s.(log := s.log + [Sent(fd, m, ok)]), ok)
  }

  /** Sends to each descriptor in turn and returns the log and the descriptors that failed. */
  function SendEach(log: seq<Event>, e: Env, fds: seq<int>, m: Message): (seq<Event>, seq<int>)
    decreases fds
  {
    if fds == [] then (log, [])
    else
      var ok := e.delivers(|log|);
      var (log', failed) := SendEach(log + [Sent(fds[0], m, ok)], e, fds[1..], m);
      (log', (if ok then [] else [fds[0]]) + failed)
  }

  /** The descriptors of the named users, without the caller's own. */
  function Recipients(users: map<string, User>, names: seq<string>, self: int): seq<int> {
    if names == [] then []
    else
      (if names[0] in users && users[names[0]].fd != self then [users[names[0]].fd] else [])
      + Recipients(users, names[1..], self)
  }

  /** `room_remove_data` in every room. */
  function RemoveFromRooms(s: State, name: string): State {
    s.(rooms := map r | r in s.rooms ::
         Room(Remove(s.rooms[r].members, name).0, Remove(s.rooms[r].guests, name).0))
  }

  function RemoveUser(s: State, name: string): State {
    s.(users := Remove(s.users, name).0)
  }

  function WithMembers(s: State, room: string, members: Table): State
    requires room in s.rooms
  {
    s.(rooms := s.rooms[room := s.rooms[room].(members := members)])
  }

  function WithGuests(s: State, room: string, guests: Table): State
    requires room in s.rooms
  {
    s.(rooms := s.rooms[room := s.rooms[room].(guests := guests)])
  }

  /** The second loop of `notify_all_but_self`, on the master table. */
  function PurgeUsers(s: State, fds: seq<int>): State
    decreases fds
  {
    if fds == [] then s
    else
      match FindByFd(s.users, fds[0])
      case None => PurgeUsers(s, fds[1..])
      case Some(u) => PurgeUsers(RemoveUser(RemoveFromRooms(s, u.name), u.name), fds[1..])
  }

  /** The same loop on the members of a room: the users stay in the master table. */
  function PurgeMembers(s: State, room: string, fds: seq<int>): State
    requires room in s.rooms
    decreases fds
  {
    if fds == [] then s
    else
      match FindByFd(s.rooms[room].members, fds[0])
      case None => PurgeMembers(s, room, fds[1..])
      case Some(u) =>
        var s1 := RemoveFromRooms(s, u.name);
        PurgeMembers(WithMembers(s1, room, Remove(s1.rooms[room].members, u.name).0), room, fds[1..])
  }

  /** `notify_all_but_self` on the master table. */
  function NotifyUsers(s: State, e: Env, m: Message, self: int): State {
    var names := e.order(|s.log|, s.users.byName.Keys);
    var (log, failed) := SendEach(s.log, e, Recipients(s.users.byName, names, self), m);
    PurgeUsers(s.(log := log), failed)
  }

  /** `room_table_with` of `room_notify_members`: nothing happens when the room is gone. */
  function NotifyMembers(s: State, e: Env, room: string, m: Message, self: int): State {
    if room !in s.rooms then s
    else
      var members := s.rooms[room].members;
      var names := e.order(|s.log|, members.byName.Keys);
      var (log, failed) := SendEach(s.log, e, Recipients(members.byName, names, self), m);
      PurgeMembers(s.(log := log), room, failed)
  }

  // ----------------------------------------------------------------------- disconnecting

  function Disconnect(s: State, e: Env, fd: int): (State, bool) {
    var s1 :=
      match FindByFd(s.users, fd)
      case None => s
      case Some(u) =>
        var n := NotifyUsers(s, e, BLANK.(kind := DISCONNECTED, username := Some(u.name)), fd);
        RemoveUser(RemoveFromRooms(n, u.name), u.name);
    (s1.(log := s1.log + [Closed(fd)]), true)
  }

  function SendInvalidAndDisconnect(s: State, e: Env, fd: int): (State, bool) {
    Disconnect(Send(s, e, fd, Response("INVALID", "INVALID", None)).0, e, fd)
  }

  /** Sends a reply to the client and disconnects it when the send fails. */
  function Reply(s: State, e: Env, fd: int, m: Message): (State, bool) {
    var (s1, ok) := Send(s, e, fd, m);
    if ok then (s1, true) else Disconnect(s1, e, fd)
  }

  // ------------------------------------------------------------------------------ users

  function Identify(s: State, e: Env, m: Message, fd: int): (State, bool) {
    if m.username.None? then (s, false)
    else
      var name := Truncate(m.username.value, USERNAME_MAX);
      match FindByFd(s.users, fd)
      case Some(u) => if u.name != name then SendInvalidAndDisconnect(s, e, fd) else (s, true)
      case None =>
        match FindByName(s.users, name)
        case Some(u) =>
          if u.fd != fd then
            var s1 := Send(s, e, fd, Response("IDENTIFY", "USER_ALREADY_EXISTS", Some(name))).0;
            (Disconnect(s1, e, fd).0, true)
          else (s, true)
        case None =>
          var (users, added) := Add(s.users, name, fd);
          if !added then (s, false)
          else
            var (s1, ok) := Send(s.(users := users), e, fd, Response("IDENTIFY", "SUCCESS", Some(name)));
            if !ok then Disconnect(s1, e, fd)
            else (NotifyUsers(s1, e, BLANK.(kind := NEW_USER, username := Some(name)), fd), true)
  }

  /** `room_update_status` in every room. */
  function ChangeStatusInRooms(s: State, fd: int, status: UserStatus): State {
    s.(rooms := map r | r in s.rooms ::
         Room(ChangeStatusByFd(s.rooms[r].members, fd, status).0,
              ChangeStatusByFd(s.rooms[r].guests, fd, status).0))
  }

  function SetStatus(s: State, e: Env, m: Message, fd: int): (State, bool) {
    if m.status.None? then (s, false)
    else
      match ParseStatus(m.status.value)
      case None => SendInvalidAndDisconnect(s, e, fd)
      case Some(status) =>
        match FindByFd(s.users, fd)
        case None => (s, true)
        case Some(u) =>
          if u.status == status then (s, true)
          else
            var s1 := s.(users := ChangeStatusByFd(s.users, fd, status).0);
            var s2 := ChangeStatusInRooms(s1, u.fd, status);
            var news := BLANK.(kind := NEW_STATUS, username := Some(u.name), status := m.status);
            (NotifyUsers(s2, e, news, fd), true)
  }

  /** The JSON object of names and statuses, in the order of a visit. */
  function UserFields(users: map<string, User>, names: seq<string>): seq<Field> {
    if names == [] then []
    else
      (if names[0] in users then [Field(names[0], JString(StatusName(users[names[0]].status)))] else [])
      + UserFields(users, names[1..])
  }

  function UsersObject(users: map<string, User>, names: seq<string>): Json {
    JObject(UserFields(users, names))
  }

  function ListUsers(s: State, e: Env, fd: int): (State, bool) {
    var names := e.order(|s.log|, s.users.byName.Keys);
    Reply(s, e, fd, BLANK.(kind := USER_LIST, users := Some(UsersObject(s.users.byName, names))))
  }

  function Text(s: State, e: Env, m: Message, fd: int): (State, bool)
    requires m.username.Some? && m.text.Some?
  {
    match FindByName(s.users, m.username.value)
    case Some(to) =>
      (match FindByFd(s.users, fd)
       case None => (s, false)
       case Some(from) =>
         if to.name == from.name then (s, true)
         else
           var text := BLANK.(kind := TEXT_FROM, username := Some(from.name), text := m.text);
           var (s1, ok) := Send(s, e, to.fd, text);
           if ok then (s1, true) else Disconnect(s1, e, fd))
    case None => Reply(s, e, fd, Response("TEXT", "NO_SUCH_USER", m.username))
  }

  function PublicText(s: State, e: Env, m: Message, fd: int): (State, bool)
    requires m.text.Some?
  {
    match FindByFd(s.users, fd)
    case None => (s, false)
    case Some(from) =>
      var text := BLANK.(kind := PUBLIC_TEXT_FROM, username := Some(from.name), text := m.text);
      (NotifyUsers(s, e, text, fd), true)
  }

  // ------------------------------------------------------------------------------ rooms

  function NewRoom(s: State, e: Env, m: Message, fd: int): (State, bool) {
    if m.roomname.None? then (s, false)
    else
      var room := Truncate(m.roomname.value, ROOMNAME_MAX);
      if m.roomname.value in s.rooms then
        Reply(s, e, fd, Response("NEW_ROOM", "ROOM_ALREADY_EXISTS", Some(room)))
      else if !RoomnameOk(room) || room in s.rooms then (s, false)
      else
        var s1 := s.(rooms := s.rooms[room := Room(EMPTY, EMPTY)]);
        match FindByFd(s1.users, fd)
        case None => (s1, false)
        case Some(creator) =>
          var members := AddWithStatus(s1.rooms[room].members, creator.name, creator.fd, creator.status).0;
          Reply(WithMembers(s1, room, members), e, fd, Response("NEW_ROOM", "SUCCESS", Some(room)))
  }

  predicate IsMember(s: State, room: string, fd: int) {
    room in s.rooms && FindByFd(s.rooms[room].members, fd).Some?
  }

  predicate IsGuest(s: State, room: string, fd: int) {
    room in s.rooms && FindByFd(s.rooms[room].guests, fd).Some?
  }

  function Values(names: seq<Option<string>>): (r: seq<string>)
    requires NoNullElements(names)
    ensures |r| == |names| && forall i :: 0 <= i < |names| ==> names[i] == Some(r[i])
  {
    seq(|names|, i requires 0 <= i < |names| => names[i].value)
  }

  datatype Lookup = Missing(name: string) | Known(users: seq<User>)

  /** The first loop of `process_invite`: copies of all the listed users, or the first unknown name. */
  function LookUpAll(users: Table, names: seq<string>): Lookup {
    if names == [] then Known([])
    else
      match FindByName(users, names[0])
      case None => Missing(names[0])
      case Some(u) =>
        match LookUpAll(users, names[1..])
        case Missing(n) => Missing(n)
        case Known(us) => Known([u] + us)
  }

  function AddGuest(s: State, room: string, u: User): State {
    if room !in s.rooms then s
    else WithGuests(s, room, AddWithStatus(s.rooms[room].guests, u.name, u.fd, u.status).0)
  }

  /** The second loop of `process_invite`. */
  function InviteEach(s: State, e: Env, room: string, invitation: Message, invited: seq<User>): (State, bool)
    decreases invited
  {
    if invited == [] then (s, true)
    else
      var u := invited[0];
      if IsMember(s, room, u.fd) || IsGuest(s, room, u.fd) then (s, true)
      else
        var (s1, ok) := Send(AddGuest(s, room, u), e, u.fd, invitation);
        if ok then InviteEach(s1, e, room, invitation, invited[1..]) else Disconnect(s1, e, u.fd)
  }

  function Invite(s: State, e: Env, m: Message, fd: int): (State, bool)
    requires m.usernames.Some? ==> NoNullElements(m.usernames.value)
  {
    if m.roomname.None? || m.usernames.None? then (s, false)
    else
      var room := m.roomname.value;
      if room !in s.rooms then Reply(s, e, fd, Response("INVITE", "NO_SUCH_ROOM", Some(room)))
      else
        match FindByFd(s.users, fd)
        case None => SendInvalidAndDisconnect(s, e, fd)
        case Some(from) =>
          if !IsMember(s, room, from.fd) then SendInvalidAndDisconnect(s, e, fd)
          else
            match LookUpAll(s.users, Values(m.usernames.value))
            case Missing(name) => Reply(s, e, fd, Response("INVITE", "NO_SUCH_USER", Some(name)))
            case Known(invited) =>
              var invitation := BLANK.(kind := INVITATION, username := Some(from.name), roomname := Some(room));
              InviteEach(s, e, room, invitation, invited)
  }

  /** `room_from_guest_to_member`. */
  function GuestToMember(s: State, room: string, u: User): State
    requires room in s.rooms
  {
    var s1 := WithGuests(s, room, Remove(s.rooms[room].guests, u.name).0);
    WithMembers(s1, room, AddWithStatus(s1.rooms[room].members, u.name, u.fd, u.status).0)
  }

  function JoinRoom(s: State, e: Env, m: Message, fd: int): (State, bool) {
    if m.roomname.None? then (s, false)
    else
      var room := m.roomname.value;
      if room !in s.rooms then Reply(s, e, fd, Response("JOIN_ROOM", "NO_SUCH_ROOM", Some(room)))
      else
        match FindByFd(s.users, fd)
        case None => SendInvalidAndDisconnect(s, e, fd)
        case Some(from) =>
          if IsMember(s, room, from.fd) then (s, true)
          else if !IsGuest(s, room, from.fd) then
            Reply(s, e, fd, Response("JOIN_ROOM", "NOT_INVITED", Some(room)))
          else
            var (s1, ok) := Send(GuestToMember(s, room, from), e, fd, Response("JOIN_ROOM", "SUCCESS", Some(room)));
            if !ok then Disconnect(s1, e, fd)
            else
              var joined := BLANK.(kind := JOINED_ROOM, roomname := Some(room), username := Some(from.name));
              (NotifyMembers(s1, e, room, joined, fd), true)
  }

  function RoomUsers(s: State, e: Env, m: Message, fd: int): (State, bool) {
    if m.roomname.None? then (s, false)
    else
      var room := m.roomname.value;
      if room !in s.rooms then Reply(s, e, fd, Response("ROOM_USERS", "NO_SUCH_ROOM", Some(room)))
      else
        match FindByFd(s.users, fd)
        case None => SendInvalidAndDisconnect(s, e, fd)
        case Some(from) =>
          if !IsMember(s, room, from.fd) then
            Reply(s, e, fd, Response("ROOM_USERS", "NOT_JOINED", Some(room)))
          else
            var members := s.rooms[room].members;
            var users := UsersObject(members.byName, e.order(|s.log|, members.byName.Keys));
            Reply(s, e, fd, BLANK.(kind := ROOM_USER_LIST, roomname := Some(room), users := Some(users)))
  }

  function RoomText(s: State, e: Env, m: Message, fd: int): (State, bool) {
    if m.roomname.None? || m.text.None? then (s, false)
    else
      var room := m.roomname.value;
      if room !in s.rooms then Reply(s, e, fd, Response("ROOM_TEXT", "NO_SUCH_ROOM", Some(room)))
      else
        match FindByFd(s.users, fd)
        case None => SendInvalidAndDisconnect(s, e, fd)
        case Some(from) =>
          if !IsMember(s, room, from.fd) then
            Reply(s, e, fd, Response("ROOM_TEXT", "NOT_JOINED", Some(room)))
          else
            var text := BLANK.(kind := ROOM_TEXT_FROM, roomname := Some(room), username := Some(from.name),
                               text := m.text);
            (NotifyMembers(s, e, room, text, fd), true)
  }

  /** `room_leave`, and the removal of a room that has become empty. */
  function Leave(s: State, room: string, u: User): State
    requires room in s.rooms
  {
    var members := Remove(s.rooms[room].members, u.name).0;
    if members.byName == map[] then s.(rooms := s.rooms - {room}) else WithMembers(s, room, members)
  }

  function LeaveRoom(s: State, e: Env, m: Message, fd: int): (State, bool) {
    if m.roomname.None? then (s, false)
    else
      var room := m.roomname.value;
      if room !in s.rooms then Reply(s, e, fd, Response("LEAVE_ROOM", "NO_SUCH_ROOM", Some(room)))
      else
        match FindByFd(s.users, fd)
        case None => SendInvalidAndDisconnect(s, e, fd)
        case Some(from) =>
          if !IsMember(s, room, from.fd) then
            Reply(s, e, fd, Response("LEAVE_ROOM", "NOT_JOINED", Some(room)))
          else
            var left := BLANK.(kind := LEFT_ROOM, roomname := Some(room), username := Some(from.name));
            (NotifyMembers(Leave(s, room, from), e, room, left, fd), true)
  }

  // --------------------------------------------------------------------------- dispatch

  /** What the handlers use without a test: both fields of TEXT, the text of PUBLIC_TEXT, and the
      elements of the array of names (which decoding never leaves NULL). */
  predicate Dispatchable(m: Message) {
    && (m.kind == TEXT ==> m.username.Some? && m.text.Some?)
    && (m.kind == PUBLIC_TEXT ==> m.text.Some?)
    && (m.usernames.Some? ==> NoNullElements(m.usernames.value))
  }

  /** `message_handler_process`. */
  function Process(s: State, e: Env, m: Message, fd: int): (State, bool)
    requires Dispatchable(m)
  {
    if m.kind == UNKNOWN then (s, false)
    else if m.kind == DISCONNECT then Disconnect(s, e, fd)
    else if m.kind == IDENTIFY then Identify(s, e, m, fd)
    else if FindByFd(s.users, fd).None? then
      var s1 := Send(s, e, fd, Response("INVALID", "NOT_IDENTIFIED", None)).0;
      (Disconnect(s1, e, fd).0, true)
    else
      match m.kind
      case STATUS => SetStatus(s, e, m, fd)
      case USERS => ListUsers(s, e, fd)
      case TEXT => Text(s, e, m, fd)
      case PUBLIC_TEXT => PublicText(s, e, m, fd)
      case NEW_ROOM => NewRoom(s, e, m, fd)
      case INVITE => Invite(s, e, m, fd)
      case JOIN_ROOM => JoinRoom(s, e, m, fd)
      case ROOM_USERS => RoomUsers(s, e, m, fd)
      case ROOM_TEXT => RoomText(s, e, m, fd)
      case LEAVE_ROOM => LeaveRoom(s, e, m, fd)
      case _ => (s, true)
  }

  // -------------------------------------------------------------------------------- runs

  predicate Handleable(msg: Option<Message>) {
    msg.Some? ==> Dispatchable(msg.value)
  }

  /** What `handle_client` does with a line that is not empty: a message is dispatched, and the
      client that sent anything else is told so and disconnected. */
  function Step(s: State, e: Env, msg: Option<Message>, fd: int): (State, bool)
    requires Handleable(msg)
  {
    match msg
    case None => SendInvalidAndDisconnect(s, e, fd)
    case Some(m) => Process(s, e, m, fd)
  }

  /** One line from one client: the message it decodes to, if it does. */
  datatype Input = Input(fd: int, msg: Option<Message>)

  /** Accepted descriptors are not negative. */
  predicate Admissible(run: seq<Input>) {
    forall i :: 0 <= i < |run| ==> run[i].fd >= 0 && Handleable(run[i].msg)
  }

  /** The server after the first `k` inputs. */
  function After(e: Env, run: seq<Input>, k: nat): State
    requires Admissible(run) && k <= |run|
  {
    if k == 0 then START else Step(After(e, run, k - 1), e, run[k - 1].msg, run[k - 1].fd).0
  }
}
