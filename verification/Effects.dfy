/** What single steps of the name-only server do to its rooms and to its log. */
module Effects {
  import opened Base
  import opened Messages
  import P = Protocol
  import opened N = NameServer

  // ------------------------------------------------------------------------- deliveries

  /** The sends of one delivery, one for each name. */
  ghost function Attempts(from: nat, e: P.Env, users: map<string, User>, names: seq<string>, m: Message): seq<P.Event>
    requires forall n :: n in names ==> n in users
  {
    seq(|names|, i requires 0 <= i < |names| => P.Sent(users[names[i]].fd, m, e.delivers(from + i)))
  }

  lemma {:induction false} DeliverAttempts(log: seq<P.Event>, e: P.Env, users: map<string, User>,
      names: seq<string>, m: Message)
    requires forall n :: n in names ==> n in users
    ensures Deliver(log, e, users, names, m).0 == log + Attempts(|log|, e, users, names, m)
    ensures NoDuplicates(names) ==>
              forall i :: 0 <= i < |names| ==> (names[i] in Deliver(log, e, users, names, m).1
                  <==> !e.delivers(|log| + i))
    ensures forall n :: n in Deliver(log, e, users, names, m).1 ==> n in names
    decreases names
  {
    if names == [] {
    } else {
      var log1 := log + [P.Sent(users[names[0]].fd, m, e.delivers(|log|))];
      DeliverAttempts(log1, e, users, names[1..], m);
      var all := Attempts(|log|, e, users, names, m);
      assert all == [all[0]] + Attempts(|log1|, e, users, names[1..], m);
      var rest := Deliver(log1, e, users, names[1..], m).1;
      assert Deliver(log, e, users, names, m).1 == (if e.delivers(|log|) then [] else [names[0]]) + rest;
      if NoDuplicates(names) {
        assert names[0] !in names[1..];
        forall i | 0 < i < |names|
          ensures names[i] in Deliver(log, e, users, names, m).1 <==> !e.delivers(|log| + i)
        {
          assert names[i] == names[1..][i - 1];
        }
      }
    }
  }

  // ------------------------------------------------------------------------------ rooms

  /** The same rooms, with nobody new in any of them. */
  ghost predicate Shrinks(rooms: map<string, Room>, rooms': map<string, Room>) {
    && rooms'.Keys == rooms.Keys
    && (forall r :: r in rooms ==> rooms'[r].members <= rooms[r].members && rooms'[r].guests <= rooms[r].guests)
  }

  lemma NotifyAllShrinks(s: State, e: P.Env, m: Message, me: string)
    requires P.Iterates(e)
    ensures Shrinks(s.rooms, NotifyAll(s, e, m, me).rooms)
  {
  }

  lemma NotifyRoomShrinks(s: State, e: P.Env, room: string, m: Message, me: string)
    requires P.Iterates(e) && Valid(s)
    ensures Shrinks(s.rooms, NotifyRoom(s, e, room, m, me).rooms)
  {
  }

  lemma DisconnectShrinks(s: State, e: P.Env, me: string)
    requires P.Iterates(e) && me in s.users
    ensures Shrinks(s.rooms, Disconnect(s, e, me).rooms)
  {
  }

  lemma RepliesShrink(s: State, e: P.Env, me: string, m: Message)
    requires P.Iterates(e) && me in s.users
    ensures Shrinks(s.rooms, Reply(s, e, me, m).0.rooms) && Shrinks(s.rooms, Expel(s, e, me).0.rooms)
  {
  }

  // -------------------------------------------------------- how somebody comes into a room

  /** The input is `me` opening this room. */
  ghost predicate Founds(s: State, m: Message, me: string, room: string) {
    m.kind == NEW_ROOM && m.roomname.Some? && Truncate(m.roomname.value, ROOMNAME_MAX) == room && room !in s.rooms
    && me in s.users
  }

  /** The input is `me`, a member, inviting `n`, who is neither member nor guest. */
  ghost predicate Invites(s: State, m: Message, me: string, room: string, n: string) {
    && m.kind == INVITE && m.roomname == Some(room) && m.usernames.Some? && Some(n) in m.usernames.value
    && me in s.users && n in s.users && room in s.rooms && me in s.rooms[room].members
    && n !in s.rooms[room].members + s.rooms[room].guests
  }

  /** The input is `n`, a guest, joining. */
  ghost predicate Joins(s: State, m: Message, n: string, room: string) {
    m.kind == JOIN_ROOM && m.roomname == Some(room) && room in s.rooms && n in s.users && n in s.rooms[room].guests
  }

  /** Whoever is in the room after the step was there before in the same role, or founded it, or was
      invited by a member, or joined as a guest. */
  ghost predicate Explained(s: State, m: Message, me: string, s': State, room: string)
    requires room in s'.rooms
  {
    if room !in s.rooms then
      Founds(s, m, me, room) && s'.rooms[room].members <= {me} && s'.rooms[room].guests == {}
    else
      && (forall n :: n in s'.rooms[room].guests ==> n in s.rooms[room].guests || Invites(s, m, me, room, n))
      && (forall n :: n in s'.rooms[room].members ==> n in s.rooms[room].members || (n == me && Joins(s, m, me, room)))
  }

  lemma ShrinkingExplained(s: State, m: Message, me: string, s': State, room: string)
    requires Shrinks(s.rooms, s'.rooms) && room in s'.rooms
    ensures Explained(s, m, me, s', room)
  {
  }

  lemma {:induction false} InviteEachAdds(
    s: State, e: P.Env, room: string, invitation: Message, names: seq<string>, r: string)
    requires P.Iterates(e) && room in s.rooms && forall n :: n in names ==> n in s.users
    requires r in InviteEach(s, e, room, invitation, names).rooms
    ensures r in s.rooms
    ensures var s' := InviteEach(s, e, room, invitation, names);
            && s'.rooms[r].members <= s.rooms[r].members
            && (forall n :: n in s'.rooms[r].guests && n !in s.rooms[r].guests ==>
                 r == room && n in names && n !in s.rooms[r].members)
    decreases names
  {
    if names == [] || names[0] in s.rooms[room].members + s.rooms[room].guests {
    } else {
      var (s1, ok) := Send(AddGuest(s, room, names[0]), e, s.users[names[0]].fd, invitation);
      if ok {
        InviteEachAdds(s1, e, room, invitation, names[1..], r);
      } else {
        DisconnectShrinks(s1, e, names[0]);
      }
    }
  }

  lemma ListedNames(names: seq<Option<string>>)
    requires NoNullElements(names)
    ensures forall n :: n in P.Values(names) ==> Some(n) in names
  {
  }

  /** A member's invitations. */
  lemma InvitationsExplained(s: State, e: P.Env, m: Message, me: string, room: string)
    requires P.Iterates(e) && me in s.users && m.kind == INVITE
    requires m.roomname.Some? && m.usernames.Some? && NoNullElements(m.usernames.value)
    requires m.roomname.value in s.rooms && me in s.rooms[m.roomname.value].members
    requires forall n :: n in P.Values(m.usernames.value) ==> n in s.users
    requires room in InviteEach(s, e, m.roomname.value,
               BLANK.(kind := INVITATION, username := Some(me), roomname := m.roomname),
                   P.Values(m.usernames.value)).rooms
    ensures Explained(s, m, me, InviteEach(s, e, m.roomname.value,
              BLANK.(kind := INVITATION, username := Some(me), roomname := m.roomname),
                  P.Values(m.usernames.value)), room)
  {
    hide InviteEach, P.Values, P.Iterates;
    var invitation := BLANK.(kind := INVITATION, username := Some(me), roomname := m.roomname);
    InviteEachAdds(s, e, m.roomname.value, invitation, P.Values(m.usernames.value), room);
    ListedNames(m.usernames.value);
  }

  lemma InviteExplained(s: State, e: P.Env, m: Message, me: string, room: string)
    requires P.Iterates(e) && Valid(s) && me in s.users && m.kind == INVITE
    requires m.usernames.Some? ==> NoNullElements(m.usernames.value)
    requires room in Invite(s, e, m, me).0.rooms
    ensures Explained(s, m, me, Invite(s, e, m, me).0, room)
  {
    hide Explained, Shrinks, Reply, Expel, InviteEach, P.Iterates, Valid, FirstUnknown, P.Values;
    var s' := Invite(s, e, m, me).0;
    SameShrinks(s.rooms);
    RepliesShrink(s, e, me, P.Response("INVITE", "NO_SUCH_ROOM", m.roomname));
    if m.roomname.Some? && m.usernames.Some? && m.roomname.value in s.rooms && me in s.rooms[m.roomname.value].members {
      var names := P.Values(m.usernames.value);
      NoneUnknown(s.users, names);
      match FirstUnknown(s.users, names)
      case Some(name) =>
        RepliesShrink(s, e, me, P.Response("INVITE", "NO_SUCH_USER", Some(name)));
        ShrinkingExplained(s, m, me, s', room);
      case None => InvitationsExplained(s, e, m, me, room);
    } else {
      ShrinkingExplained(s, m, me, s', room);
    }
  }

  lemma MoveExplained(s: State, m: Message, me: string, s': State, moved: string, room: string)
    requires Valid(s) && Joins(s, m, me, moved)
    requires Shrinks(GuestToMember(s, moved, me).rooms, s'.rooms) && room in s'.rooms
    ensures Explained(s, m, me, s', room)
  {
  }

  lemma JoinExplained(s: State, e: P.Env, m: Message, me: string, room: string)
    requires P.Iterates(e) && Valid(s) && me in s.users && m.kind == JOIN_ROOM
    requires room in JoinRoom(s, e, m, me).0.rooms
    ensures Explained(s, m, me, JoinRoom(s, e, m, me).0, room)
  {
    hide Explained, Shrinks, Reply, NotifyRoom, Disconnect, GuestToMember, P.Iterates, Valid;
    var s' := JoinRoom(s, e, m, me).0;
    SameShrinks(s.rooms);
    RepliesShrink(s, e, me, P.Response("JOIN_ROOM", "NO_SUCH_ROOM", m.roomname));
    RepliesShrink(s, e, me, P.Response("JOIN_ROOM", "NOT_INVITED", m.roomname));
    if m.roomname.Some? && m.roomname.value in s.rooms && me !in s.rooms[m.roomname.value].members
       && me in s.rooms[m.roomname.value].guests {
      var r := m.roomname.value;
      var s0 := GuestToMember(s, r, me);
      MoveKeepsValid(s, r, me);
      var s1 := Send(s0, e, s.users[me].fd, P.Response("JOIN_ROOM", "SUCCESS", Some(r))).0;
      DisconnectShrinks(s1, e, me);
      NotifyRoomShrinks(s1, e, r, BLANK.(kind := JOINED_ROOM, roomname := Some(r), username := Some(me)), me);
      MoveExplained(s, m, me, s', r, room);
    } else {
      ShrinkingExplained(s, m, me, s', room);
    }
  }

  lemma MoveKeepsValid(s: State, room: string, me: string)
    requires Valid(s) && me in s.users && room in s.rooms && me in s.rooms[room].guests
    ensures Valid(GuestToMember(s, room, me)) && GuestToMember(s, room, me).users == s.users
    ensures forall log :: Valid(GuestToMember(s, room, me).(log := log))
  {
  }

  /** Nobody but the founder is in a new room. */
  lemma FoundedExplained(s: State, m: Message, me: string, s': State, founded: string, room: string)
    requires m.kind == NEW_ROOM && m.roomname.Some? && Truncate(m.roomname.value, ROOMNAME_MAX) == founded
    requires me in s.users && founded !in s.rooms
    requires Shrinks(s.rooms[founded := Room({me}, {})], s'.rooms) && room in s'.rooms
    ensures Explained(s, m, me, s', room)
  {
  }

  lemma NewRoomExplained(s: State, e: P.Env, m: Message, me: string, room: string)
    requires P.Iterates(e) && Valid(s) && me in s.users && m.kind == NEW_ROOM
    requires room in NewRoom(s, e, m, me).0.rooms
    ensures Explained(s, m, me, NewRoom(s, e, m, me).0, room)
  {
    hide Explained, Shrinks, Reply, P.Iterates, Valid;
    var s' := NewRoom(s, e, m, me).0;
    SameShrinks(s.rooms);
    if m.roomname.Some? {
      var r := Truncate(m.roomname.value, ROOMNAME_MAX);
      RepliesShrink(s, e, me, P.Response("NEW_ROOM", "ROOM_ALREADY_EXISTS", Some(r)));
      if m.roomname.value !in s.rooms && r != "" && r !in s.rooms {
        RepliesShrink(s.(rooms := s.rooms[r := Room({me}, {})]), e, me, P.Response("NEW_ROOM", "SUCCESS", Some(r)));
        FoundedExplained(s, m, me, s', r, room);
      } else {
        ShrinkingExplained(s, m, me, s', room);
      }
    } else {
      ShrinkingExplained(s, m, me, s', room);
    }
  }

  lemma LeftExplained(s: State, m: Message, me: string, s': State, left: string, room: string)
    requires left in s.rooms && Shrinks(Leave(s, left, me).rooms, s'.rooms) && room in s'.rooms
    ensures Explained(s, m, me, s', room)
  {
  }

  lemma LeaveExplained(s: State, e: P.Env, m: Message, me: string, room: string)
    requires P.Iterates(e) && Valid(s) && me in s.users && m.kind == LEAVE_ROOM
    requires room in LeaveRoom(s, e, m, me).0.rooms
    ensures Explained(s, m, me, LeaveRoom(s, e, m, me).0, room)
  {
    var s' := LeaveRoom(s, e, m, me).0;
    if m.roomname.Some? {
      var r := m.roomname.value;
      RepliesShrink(s, e, me, P.Response("LEAVE_ROOM", "NO_SUCH_ROOM", Some(r)));
      RepliesShrink(s, e, me, P.Response("LEAVE_ROOM", "NOT_JOINED", Some(r)));
      if r in s.rooms && me in s.rooms[r].members {
        LeaveKeepsValid(s, r, me);
        NotifyRoomShrinks(Leave(s, r, me), e, r, BLANK.(kind := LEFT_ROOM, roomname := Some(r),
            username := Some(me)), me);
        hide Explained, NotifyRoom, Shrinks;
        LeftExplained(s, m, me, s', r, room);
      } else {
        ShrinkingExplained(s, m, me, s', room);
      }
    }
  }

  lemma LeaveKeepsValid(s: State, room: string, me: string)
    requires Valid(s) && room in s.rooms
    ensures Valid(Leave(s, room, me))
  {
  }

  /** A message and the rooms after it. */
  lemma ProcessExplained(s: State, e: P.Env, m: Message, fd: int, room: string)
    requires P.Iterates(e) && Valid(s) && P.Dispatchable(m)
    requires room in Process(s, e, m, fd).0.rooms
    ensures var s' := Process(s, e, m, fd).0;
            match Holder(s.users, fd) {
              case None => Shrinks(s.rooms, s'.rooms)
              case Some(me) => Explained(s, m, me, s', room)
            }
  {
    hide Explained, Shrinks, Identify, Disconnect, SetStatus, ListUsers, Text, PublicText, NewRoom,
         Invite, JoinRoom, RoomUsers, RoomText, LeaveRoom, Valid;
    var s' := Process(s, e, m, fd).0;
    if m.kind == IDENTIFY {
      IdentifyShrinks(s, e, m, fd);
      if Holder(s.users, fd).Some? {
        ShrinkingExplained(s, m, Holder(s.users, fd).value, s', room);
      }
    } else if Holder(s.users, fd).None? {
      SameShrinks(s.rooms);
    } else {
      var me := Holder(s.users, fd).value;
      match m.kind
      case NEW_ROOM => NewRoomExplained(s, e, m, me, room);
      case INVITE => InviteExplained(s, e, m, me, room);
      case JOIN_ROOM => JoinExplained(s, e, m, me, room);
      case LEAVE_ROOM => LeaveExplained(s, e, m, me, room);
      case _ =>
        OthersShrink(s, e, m, me);
        ShrinkingExplained(s, m, me, s', room);
    }
  }

  lemma SameShrinks(rooms: map<string, Room>)
    ensures Shrinks(rooms, rooms)
  {
  }

  lemma IdentifyShrinks(s: State, e: P.Env, m: Message, fd: int)
    requires P.Iterates(e)
    ensures Shrinks(s.rooms, Identify(s, e, m, fd).0.rooms)
  {
    if m.username.Some? {
      var name := Truncate(m.username.value, USERNAME_MAX);
      match Holder(s.users, fd)
      case Some(me) => RepliesShrink(s, e, me, BLANK);
      case None =>
        if name !in s.users && name != "" {
          var s0 := s.(users := s.users[name := User(name, fd, ACTIVE)]);
          var s1 := Send(s0, e, fd, P.Response("IDENTIFY", "SUCCESS", Some(name))).0;
          NotifyAllShrinks(s1, e, BLANK.(kind := NEW_USER, username := Some(name)), name);
          DisconnectShrinks(s1, e, name);
        }
    }
  }

  /** The messages that bring nobody into a room. */
  lemma OthersShrink(s: State, e: P.Env, m: Message, me: string)
    requires P.Iterates(e) && Valid(s) && P.Dispatchable(m) && me in s.users
    requires m.kind !in {IDENTIFY, NEW_ROOM, INVITE, JOIN_ROOM, LEAVE_ROOM}
    ensures Shrinks(s.rooms, Process(s, e, m, s.users[me].fd).0.rooms)
  {
    var fd := s.users[me].fd;
    assert Holder(s.users, fd) == Some(me);
    match m.kind
    case DISCONNECT => DisconnectShrinks(s, e, me);
    case STATUS => StatusShrinks(s, e, m, me);
    case USERS =>
      var list := P.UsersObject(s.users, e.order(|s.log|, s.users.Keys));
      RepliesShrink(s, e, me, BLANK.(kind := USER_LIST, users := Some(list)));
    case TEXT => TextShrinks(s, e, m, me);
    case PUBLIC_TEXT =>
      NotifyAllShrinks(s, e, BLANK.(kind := PUBLIC_TEXT_FROM, username := Some(me), text := m.text), me);
    case ROOM_USERS => RoomUsersShrinks(s, e, m, me);
    case ROOM_TEXT => RoomTextShrinks(s, e, m, me);
    case _ =>
  }

  lemma StatusShrinks(s: State, e: P.Env, m: Message, me: string)
    requires P.Iterates(e) && me in s.users
    ensures Shrinks(s.rooms, SetStatus(s, e, m, me).0.rooms)
  {
  }

  lemma TextShrinks(s: State, e: P.Env, m: Message, me: string)
    requires P.Iterates(e) && me in s.users && m.username.Some? && m.text.Some?
    ensures Shrinks(s.rooms, Text(s, e, m, me).0.rooms)
  {
  }

  lemma RoomUsersShrinks(s: State, e: P.Env, m: Message, me: string)
    requires P.Iterates(e) && me in s.users
    ensures Shrinks(s.rooms, RoomUsers(s, e, m, me).0.rooms)
  {
    if m.roomname.Some? {
      var room := m.roomname.value;
      RepliesShrink(s, e, me, P.Response("ROOM_USERS", "NO_SUCH_ROOM", Some(room)));
      RepliesShrink(s, e, me, P.Response("ROOM_USERS", "NOT_JOINED", Some(room)));
      if room in s.rooms {
        RepliesShrink(s, e, me, BLANK.(kind := ROOM_USER_LIST, roomname := Some(room),
                      users := Some(P.UsersObject(s.users, e.order(|s.log|, s.rooms[room].members)))));
      }
    }
  }

  lemma RoomTextShrinks(s: State, e: P.Env, m: Message, me: string)
    requires P.Iterates(e) && Valid(s) && me in s.users
    ensures Shrinks(s.rooms, RoomText(s, e, m, me).0.rooms)
  {
    if m.roomname.Some? {
      var room := m.roomname.value;
      RepliesShrink(s, e, me, P.Response("ROOM_TEXT", "NO_SUCH_ROOM", Some(room)));
      RepliesShrink(s, e, me, P.Response("ROOM_TEXT", "NOT_JOINED", Some(room)));
      var text := BLANK.(kind := ROOM_TEXT_FROM, roomname := Some(room), username := Some(me), text := m.text);
      NotifyRoomShrinks(s, e, room, text, me);
    }
  }

  // -------------------------------------------------------------------------------- the log

  /** The log grows by sends with the environment's outcomes, of messages without an array of names;
      room texts are among them only if `texts`. */
  ghost predicate Appends(e: P.Env, log: seq<P.Event>, log': seq<P.Event>, texts: bool) {
    && log <= log'
    && (forall i :: |log| <= i < |log'| && log'[i].Sent? ==>
         && log'[i].ok == e.delivers(i)
         && log'[i].msg.usernames.None?
         && (log'[i].msg.kind == ROOM_TEXT_FROM ==> texts))
  }

  lemma DeliverAppends(log: seq<P.Event>, e: P.Env, users: map<string, User>, names: seq<string>, m: Message)
    requires m.usernames.None? && forall n :: n in names ==> n in users
    ensures Appends(e, log, Deliver(log, e, users, names, m).0, m.kind == ROOM_TEXT_FROM)
  {
    DeliverAttempts(log, e, users, names, m);
  }

  lemma NotifyAllAppends(s: State, e: P.Env, m: Message, me: string)
    requires P.Iterates(e) && m.usernames.None?
    ensures Appends(e, s.log, NotifyAll(s, e, m, me).log, m.kind == ROOM_TEXT_FROM)
  {
    var names := e.order(|s.log|, s.users.Keys);
    OthersAreListed(names, me);
    DeliverAppends(s.log, e, s.users, Others(names, me), m);
  }

  lemma NotifyRoomAppends(s: State, e: P.Env, room: string, m: Message, me: string)
    requires P.Iterates(e) && Valid(s) && m.usernames.None?
    ensures Appends(e, s.log, NotifyRoom(s, e, room, m, me).log, m.kind == ROOM_TEXT_FROM)
  {
    if room in s.rooms {
      var names := e.order(|s.log|, s.rooms[room].members);
      OthersAreListed(names, me);
      DeliverAppends(s.log, e, s.users, Others(names, me), m);
    }
  }

  lemma DisconnectAppends(s: State, e: P.Env, me: string)
    requires P.Iterates(e) && me in s.users
    ensures Appends(e, s.log, Disconnect(s, e, me).log, false)
  {
    NotifyAllAppends(s, e, BLANK.(kind := DISCONNECTED, username := Some(me)), me);
  }

  lemma ReplyAppends(s: State, e: P.Env, me: string, m: Message)
    requires P.Iterates(e) && me in s.users && m.usernames.None? && m.kind != ROOM_TEXT_FROM
    ensures Appends(e, s.log, Reply(s, e, me, m).0.log, false)
  {
    DisconnectAppends(Send(s, e, s.users[me].fd, m).0, e, me);
  }

  lemma ExpelAppends(s: State, e: P.Env, me: string)
    requires P.Iterates(e) && me in s.users
    ensures Appends(e, s.log, Expel(s, e, me).0.log, false)
  {
    DisconnectAppends(Send(s, e, s.users[me].fd, P.Response("INVALID", "INVALID", None)).0, e, me);
  }

  lemma AppendsNothing(e: P.Env, log: seq<P.Event>, texts: bool)
    ensures Appends(e, log, log, texts)
  {
  }

  lemma WithTexts(e: P.Env, log: seq<P.Event>, log': seq<P.Event>)
    requires Appends(e, log, log', false)
    ensures Appends(e, log, log', true)
  {
  }

  /** One send, and then news for everyone or a disconnection. */
  lemma SendThen(s: State, e: P.Env, fd: int, m: Message, log: seq<P.Event>)
    requires m.usernames.None? && m.kind != ROOM_TEXT_FROM
    requires Appends(e, Send(s, e, fd, m).0.log, log, false)
    ensures Appends(e, s.log, log, false)
  {
  }

  lemma IdentifyAppends(s: State, e: P.Env, m: Message, fd: int)
    requires P.Iterates(e)
    ensures Appends(e, s.log, Identify(s, e, m, fd).0.log, false)
  {
    if m.username.Some? {
      var name := Truncate(m.username.value, USERNAME_MAX);
      match Holder(s.users, fd)
      case Some(me) => ExpelAppends(s, e, me);
      case None =>
        if name !in s.users && name != "" {
          var s0 := s.(users := s.users[name := User(name, fd, ACTIVE)]);
          var welcome := P.Response("IDENTIFY", "SUCCESS", Some(name));
          var s1 := Send(s0, e, fd, welcome).0;
          NotifyAllAppends(s1, e, BLANK.(kind := NEW_USER, username := Some(name)), name);
          DisconnectAppends(s1, e, name);
          hide NotifyAll, Disconnect, Appends;
          SendThen(s0, e, fd, welcome, Identify(s, e, m, fd).0.log);
        }
    }
  }

  lemma {:induction false} InviteEachAppends(s: State, e: P.Env, room: string, invitation: Message, names: seq<string>)
    requires P.Iterates(e) && room in s.rooms && forall n :: n in names ==> n in s.users
    requires invitation.usernames.None? && invitation.kind != ROOM_TEXT_FROM
    ensures Appends(e, s.log, InviteEach(s, e, room, invitation, names).log, false)
    decreases names
  {
    if names != [] && names[0] !in s.rooms[room].members + s.rooms[room].guests {
      var (s1, ok) := Send(AddGuest(s, room, names[0]), e, s.users[names[0]].fd, invitation);
      if ok {
        InviteEachAppends(s1, e, room, invitation, names[1..]);
      } else {
        DisconnectAppends(s1, e, names[0]);
      }
    }
  }

  lemma InviteAppends(s: State, e: P.Env, m: Message, me: string)
    requires P.Iterates(e) && me in s.users
    requires m.usernames.Some? ==> NoNullElements(m.usernames.value)
    ensures Appends(e, s.log, Invite(s, e, m, me).0.log, false)
  {
    hide Appends, Reply, Expel, InviteEach, FirstUnknown, P.Iterates;
    AppendsNothing(e, s.log, false);
    if m.roomname.Some? && m.usernames.Some? {
      var names := P.Values(m.usernames.value);
      ReplyAppends(s, e, me, P.Response("INVITE", "NO_SUCH_ROOM", m.roomname));
      ExpelAppends(s, e, me);
      NoneUnknown(s.users, names);
      match FirstUnknown(s.users, names)
      case Some(name) => ReplyAppends(s, e, me, P.Response("INVITE", "NO_SUCH_USER", Some(name)));
      case None =>
        if m.roomname.value in s.rooms {
          InviteEachAppends(s, e, m.roomname.value,
            BLANK.(kind := INVITATION, username := Some(me), roomname := m.roomname), names);
        }
    }
  }

  lemma NewRoomAppends(s: State, e: P.Env, m: Message, me: string)
    requires P.Iterates(e) && me in s.users
    ensures Appends(e, s.log, NewRoom(s, e, m, me).0.log, false)
  {
    if m.roomname.Some? {
      var room := Truncate(m.roomname.value, ROOMNAME_MAX);
      ReplyAppends(s, e, me, P.Response("NEW_ROOM", "ROOM_ALREADY_EXISTS", Some(room)));
      ReplyAppends(s.(rooms := s.rooms[room := Room({me}, {})]), e, me, P.Response("NEW_ROOM", "SUCCESS", Some(room)));
    }
  }

  lemma RoomUsersAppends(s: State, e: P.Env, m: Message, me: string)
    requires P.Iterates(e) && me in s.users
    ensures Appends(e, s.log, RoomUsers(s, e, m, me).0.log, false)
  {
    if m.roomname.Some? {
      var room := m.roomname.value;
      ReplyAppends(s, e, me, P.Response("ROOM_USERS", "NO_SUCH_ROOM", Some(room)));
      ReplyAppends(s, e, me, P.Response("ROOM_USERS", "NOT_JOINED", Some(room)));
      if room in s.rooms {
        ReplyAppends(s, e, me, BLANK.(kind := ROOM_USER_LIST, roomname := Some(room),
                     users := Some(P.UsersObject(s.users, e.order(|s.log|, s.rooms[room].members)))));
      }
    }
  }

  lemma RoomTextAppends(s: State, e: P.Env, m: Message, me: string)
    requires P.Iterates(e) && Valid(s) && me in s.users
    ensures Appends(e, s.log, RoomText(s, e, m, me).0.log, true)
  {
    hide Appends, Reply, NotifyRoom, Valid, P.Iterates;
    AppendsNothing(e, s.log, true);
    if m.roomname.Some? {
      var room := m.roomname.value;
      ReplyAppends(s, e, me, P.Response("ROOM_TEXT", "NO_SUCH_ROOM", Some(room)));
      ReplyAppends(s, e, me, P.Response("ROOM_TEXT", "NOT_JOINED", Some(room)));
      WithTexts(e, s.log, Reply(s, e, me, P.Response("ROOM_TEXT", "NO_SUCH_ROOM", Some(room))).0.log);
      WithTexts(e, s.log, Reply(s, e, me, P.Response("ROOM_TEXT", "NOT_JOINED", Some(room))).0.log);
      NotifyRoomAppends(s, e, room,
        BLANK.(kind := ROOM_TEXT_FROM, roomname := Some(room), username := Some(me), text := m.text), me);
    }
  }

  /** A guest who joins. */
  lemma WelcomeAppends(s: State, e: P.Env, room: string, me: string)
    requires P.Iterates(e) && Valid(s) && me in s.users && room in s.rooms
    requires me in s.rooms[room].guests && me !in s.rooms[room].members
    ensures var (s1, ok) := Send(GuestToMember(s, room, me), e, s.users[me].fd,
                                 P.Response("JOIN_ROOM", "SUCCESS", Some(room)));
            && me in s1.users && Valid(s1)
            && Appends(e, s.log, Disconnect(s1, e, me).log, false)
            && Appends(e, s.log, NotifyRoom(s1, e, room,
                 BLANK.(kind := JOINED_ROOM, roomname := Some(room), username := Some(me)), me).log, false)
  {
    hide NotifyRoom, Disconnect, Appends;
    var s0 := GuestToMember(s, room, me);
    var welcome := P.Response("JOIN_ROOM", "SUCCESS", Some(room));
    var s1 := Send(s0, e, s.users[me].fd, welcome).0;
    var joined := BLANK.(kind := JOINED_ROOM, roomname := Some(room), username := Some(me));
    DisconnectAppends(s1, e, me);
    NotifyRoomAppends(s1, e, room, joined, me);
    SendThen(s0, e, s.users[me].fd, welcome, Disconnect(s1, e, me).log);
    SendThen(s0, e, s.users[me].fd, welcome, NotifyRoom(s1, e, room, joined, me).log);
  }

  lemma JoinAppends(s: State, e: P.Env, m: Message, me: string)
    requires P.Iterates(e) && Valid(s) && me in s.users
    ensures Appends(e, s.log, JoinRoom(s, e, m, me).0.log, false)
  {
    hide Appends, Reply, NotifyRoom, Disconnect, GuestToMember, Send, P.Iterates;
    AppendsNothing(e, s.log, false);
    if m.roomname.Some? {
      var room := m.roomname.value;
      ReplyAppends(s, e, me, P.Response("JOIN_ROOM", "NO_SUCH_ROOM", Some(room)));
      ReplyAppends(s, e, me, P.Response("JOIN_ROOM", "NOT_INVITED", Some(room)));
      if room in s.rooms && me in s.rooms[room].guests && me !in s.rooms[room].members {
        WelcomeAppends(s, e, room, me);
      }
    }
  }

  lemma LeaveAppends(s: State, e: P.Env, m: Message, me: string)
    requires P.Iterates(e) && Valid(s) && me in s.users
    ensures Appends(e, s.log, LeaveRoom(s, e, m, me).0.log, false)
  {
    if m.roomname.Some? {
      var room := m.roomname.value;
      ReplyAppends(s, e, me, P.Response("LEAVE_ROOM", "NO_SUCH_ROOM", Some(room)));
      ReplyAppends(s, e, me, P.Response("LEAVE_ROOM", "NOT_JOINED", Some(room)));
      if room in s.rooms {
        LeaveKeepsValid(s, room, me);
        NotifyRoomAppends(Leave(s, room, me), e, room,
          BLANK.(kind := LEFT_ROOM, roomname := Some(room), username := Some(me)), me);
      }
    }
  }

  lemma StatusAppends(s: State, e: P.Env, m: Message, me: string)
    requires P.Iterates(e) && me in s.users
    ensures Appends(e, s.log, SetStatus(s, e, m, me).0.log, false)
  {
    ExpelAppends(s, e, me);
    if m.status.Some? && ParseStatus(m.status.value).Some? {
      var s1 := s.(users := s.users[me := s.users[me].(status := ParseStatus(m.status.value).value)]);
      NotifyAllAppends(s1, e, BLANK.(kind := NEW_STATUS, username := Some(me), status := m.status), me);
    }
  }

  lemma TextAppends(s: State, e: P.Env, m: Message, me: string)
    requires P.Iterates(e) && me in s.users && m.username.Some? && m.text.Some?
    ensures Appends(e, s.log, Text(s, e, m, me).0.log, false)
  {
    hide Appends, Reply, Disconnect, P.Iterates;
    AppendsNothing(e, s.log, false);
    var to := m.username.value;
    ReplyAppends(s, e, me, P.Response("TEXT", "NO_SUCH_USER", Some(to)));
    if to in s.users {
      var text := BLANK.(kind := TEXT_FROM, username := Some(me), text := m.text);
      var s1 := Send(s, e, s.users[to].fd, text).0;
      DisconnectAppends(s1, e, me);
      AppendsNothing(e, s1.log, false);
      SendThen(s, e, s.users[to].fd, text, Disconnect(s1, e, me).log);
      SendThen(s, e, s.users[to].fd, text, s1.log);
    }
  }

  lemma StrangerAppends(s: State, e: P.Env, fd: int, texts: bool)
    ensures Appends(e, s.log, Close(s, fd).log, texts)
    ensures Appends(e, s.log, Close(Send(s, e, fd, P.Response("INVALID", "NOT_IDENTIFIED", None)).0, fd).log, texts)
  {
  }

  /** A message and the log after it. */
  lemma ProcessAppends(s: State, e: P.Env, m: Message, fd: int)
    requires P.Iterates(e) && Valid(s) && P.Dispatchable(m)
    ensures Appends(e, s.log, Process(s, e, m, fd).0.log, m.kind == ROOM_TEXT)
  {
    hide Appends, Identify, Disconnect, SetStatus, Text, NotifyAll, NewRoom, Invite, JoinRoom, RoomUsers,
      RoomText, LeaveRoom, Reply, Valid, P.Iterates;
    AppendsNothing(e, s.log, m.kind == ROOM_TEXT);
    StrangerAppends(s, e, fd, m.kind == ROOM_TEXT);
    if m.kind == IDENTIFY {
      IdentifyAppends(s, e, m, fd);
    } else if Holder(s.users, fd).Some? {
      var me := Holder(s.users, fd).value;
      match m.kind
      case DISCONNECT => DisconnectAppends(s, e, me);
      case STATUS => StatusAppends(s, e, m, me);
      case USERS =>
        var list := P.UsersObject(s.users, e.order(|s.log|, s.users.Keys));
        ReplyAppends(s, e, me, BLANK.(kind := USER_LIST, users := Some(list)));
      case TEXT => TextAppends(s, e, m, me);
      case PUBLIC_TEXT =>
        NotifyAllAppends(s, e, BLANK.(kind := PUBLIC_TEXT_FROM, username := Some(me), text := m.text), me);
      case NEW_ROOM => NewRoomAppends(s, e, m, me);
      case INVITE => InviteAppends(s, e, m, me);
      case JOIN_ROOM => JoinAppends(s, e, m, me);
      case ROOM_USERS => RoomUsersAppends(s, e, m, me);
      case ROOM_TEXT => RoomTextAppends(s, e, m, me);
      case LEAVE_ROOM => LeaveAppends(s, e, m, me);
      case _ =>
    }
  }

  // ------------------------------------------------------------------------- any line at all

  ghost predicate IsRoomText(msg: Option<Message>) {
    msg.Some? && msg.value.kind == ROOM_TEXT
  }

  lemma RefuseEffects(s: State, e: P.Env, fd: int)
    requires P.Iterates(e)
    ensures Shrinks(s.rooms, Refuse(s, e, fd).0.rooms)
    ensures Appends(e, s.log, Refuse(s, e, fd).0.log, false)
  {
    if Holder(s.users, fd).Some? {
      ExpelAppends(s, e, Holder(s.users, fd).value);
      RepliesShrink(s, e, Holder(s.users, fd).value, BLANK);
      hide Expel, Appends, Shrinks;
    }
  }

  /** The rooms after any line, as explained by its sender. */
  ghost predicate StepIsExplained(s: State, msg: Option<Message>, fd: int, s': State, room: string)
    requires room in s'.rooms
  {
    if msg.Some? && Holder(s.users, fd).Some? then Explained(s, msg.value, Holder(s.users, fd).value, s', room)
    else Shrinks(s.rooms, s'.rooms)
  }

  lemma StepExplained(s: State, e: P.Env, msg: Option<Message>, fd: int, room: string)
    requires P.Iterates(e) && Valid(s) && P.Handleable(msg)
    requires room in Step(s, e, msg, fd).0.rooms
    ensures StepIsExplained(s, msg, fd, Step(s, e, msg, fd).0, room)
  {
    hide Explained, Shrinks, Process, Refuse, Valid;
    match msg
    case None => RefuseEffects(s, e, fd);
    case Some(m) => ProcessExplained(s, e, m, fd, room);
  }

  lemma StepAppends(s: State, e: P.Env, msg: Option<Message>, fd: int)
    requires P.Iterates(e) && Valid(s) && P.Handleable(msg)
    ensures Appends(e, s.log, Step(s, e, msg, fd).0.log, IsRoomText(msg))
  {
    hide Appends, Process, Refuse, Valid;
    match msg
    case None => RefuseEffects(s, e, fd);
    case Some(m) => ProcessAppends(s, e, m, fd);
  }
}
