/** The server with copies refines the server with names.  `Copies` writes a name-only state out as
    the code keeps it: both indexes of every table, and one copy of the user's record in each room.
    Every handler takes a state that is written out to a state that is written out again. */
module Refinement {
  import opened Base
  import opened Messages
  import T = UserTables
  import P = Protocol
  import N = NameServer

  ghost function TableOf(users: map<string, User>): T.Table
    requires N.OneUserPerFd(users)
  {
    T.Table(users, map n | n in users :: users[n].fd := n)
  }

  ghost function RoomOf(users: map<string, User>, room: N.Room): P.Room
    requires N.OneUserPerFd(users)
  {
    P.Room(TableOf(N.Restrict(users, room.members)), TableOf(N.Restrict(users, room.guests)))
  }

  ghost function Copies(s: N.State): P.State
    requires N.OneUserPerFd(s.users)
  {
    P.State(TableOf(s.users), map r | r in s.rooms :: RoomOf(s.users, s.rooms[r]), s.log)
  }

  // ------------------------------------------------------------------------ one table

  lemma TableOfInverse(users: map<string, User>)
    requires N.UsersOk(users)
    ensures T.Inverse(TableOf(users))
  {
  }

  /** A table with inverse indexes is determined by its index by name. */
  lemma InverseIsTableOf(t: T.Table)
    requires T.Inverse(t)
    ensures N.OneUserPerFd(t.byName) && t == TableOf(t.byName)
  {
    forall n, n' | n in t.byName && n' in t.byName && t.byName[n].fd == t.byName[n'].fd
      ensures n == n'
    {
      assert t.byFd[t.byName[n].fd] == n && t.byFd[t.byName[n'].fd] == n';
    }
    var u := TableOf(t.byName);
    forall fd | fd in t.byFd
      ensures fd in u.byFd && u.byFd[fd] == t.byFd[fd]
    {
      assert t.byName[t.byFd[fd]].fd == fd;
    }
    assert t.byFd == u.byFd;
  }

  lemma FindHolder(users: map<string, User>, fd: int)
    requires N.UsersOk(users)
    ensures T.FindByFd(TableOf(users), fd)
            == match N.Holder(users, fd) { case None => None case Some(n) => Some(users[n]) }
  {
  }

  lemma FindIn(users: map<string, User>, names: set<string>, n: string)
    requires N.UsersOk(users) && n in users
    ensures N.UsersOk(N.Restrict(users, names))
    ensures T.FindByFd(TableOf(N.Restrict(users, names)), users[n].fd)
            == if n in names then Some(users[n]) else None
  {
  }

  lemma RemoveOne(users: map<string, User>, n: string)
    requires N.UsersOk(users)
    ensures N.UsersOk(users - {n})
    ensures T.Remove(TableOf(users), n).0 == TableOf(users - {n})
  {
    var t := T.Remove(TableOf(users), n).0;
    TableOfInverse(users);
    T.InverseKept(TableOf(users), T.OpRemove(n));
    InverseIsTableOf(t);
    if n !in users {
      assert users - {n} == users;
    }
  }

  lemma RemoveIn(users: map<string, User>, names: set<string>, n: string)
    requires N.UsersOk(users)
    ensures T.Remove(TableOf(N.Restrict(users, names)), n).0 == TableOf(N.Restrict(users, names - {n}))
  {
    RemoveOne(N.Restrict(users, names), n);
    assert N.Restrict(users, names) - {n} == N.Restrict(users, names - {n});
  }

  lemma AddOne(users: map<string, User>, u: User)
    requires N.UsersOk(users) && u.name !in users && UsernameOk(u.name) && N.Holder(users, u.fd).None?
    requires u.fd >= 0
    ensures N.UsersOk(users[u.name := u])
    ensures T.AddWithStatus(TableOf(users), u.name, u.fd, u.status) == (TableOf(users[u.name := u]), true)
  {
    var t := T.AddWithStatus(TableOf(users), u.name, u.fd, u.status).0;
    TableOfInverse(users);
    FindHolder(users, u.fd);
    T.InverseKept(TableOf(users), T.OpAddWithStatus(u.name, u.fd, u.status));
    InverseIsTableOf(t);
  }

  function WithStatus(users: map<string, User>, n: string, status: UserStatus): map<string, User>
    requires n in users
  {
    users[n := users[n].(status := status)]
  }

  lemma ChangeOne(users: map<string, User>, n: string, status: UserStatus)
    requires N.UsersOk(users) && n in users
    ensures N.UsersOk(WithStatus(users, n, status))
    ensures T.ChangeStatusByFd(TableOf(users), users[n].fd, status).0 == TableOf(WithStatus(users, n, status))
  {
    var t := T.ChangeStatusByFd(TableOf(users), users[n].fd, status).0;
    TableOfInverse(users);
    assert TableOf(users).byFd[users[n].fd] == n;
    T.InverseKept(TableOf(users), T.OpStatusByFd(users[n].fd, status));
    InverseIsTableOf(t);
  }

  lemma RestrictWithStatus(users: map<string, User>, names: set<string>, n: string, status: UserStatus)
    requires n in users
    ensures N.Restrict(WithStatus(users, n, status), names)
            == if n in names then WithStatus(N.Restrict(users, names), n, status) else N.Restrict(users, names)
  {
  }

  lemma ChangeOther(users: map<string, User>, fd: int, status: UserStatus)
    requires N.UsersOk(users) && N.Holder(users, fd).None?
    ensures T.ChangeStatusByFd(TableOf(users), fd, status).0 == TableOf(users)
  {
  }

  lemma ChangeIn(users: map<string, User>, names: set<string>, n: string, status: UserStatus)
    requires N.UsersOk(users) && n in users
    ensures N.UsersOk(WithStatus(users, n, status))
    ensures T.ChangeStatusByFd(TableOf(N.Restrict(users, names)), users[n].fd, status).0
            == TableOf(N.Restrict(WithStatus(users, n, status), names))
  {
    ChangeOne(users, n, status);
    FindIn(users, names, n);
    RestrictWithStatus(users, names, n, status);
    if n in names {
      ChangeOne(N.Restrict(users, names), n, status);
    } else {
      ChangeOther(N.Restrict(users, names), users[n].fd, status);
    }
  }

  // ----------------------------------------------------------------------- whole states

  lemma StillValid(s: N.State, names: set<string>)
    requires N.Valid(s)
    ensures N.Valid(N.DropFromRooms(s, names)) && N.Valid(N.Forget(s, names))
  {
  }

  lemma DropInRoom(users: map<string, User>, room: N.Room, n: string)
    requires N.UsersOk(users)
    ensures var c := RoomOf(users, room);
            P.Room(T.Remove(c.members, n).0, T.Remove(c.guests, n).0)
            == RoomOf(users, N.Room(room.members - {n}, room.guests - {n}))
  {
    RemoveIn(users, room.members, n);
    RemoveIn(users, room.guests, n);
  }

  lemma DropOne(s: N.State, n: string)
    requires N.Valid(s)
    ensures P.RemoveFromRooms(Copies(s), n) == Copies(N.DropFromRooms(s, {n}))
  {
    hide RoomOf, T.Remove;
    forall r | r in s.rooms
      ensures P.Room(T.Remove(RoomOf(s.users, s.rooms[r]).members, n).0,
                     T.Remove(RoomOf(s.users, s.rooms[r]).guests, n).0)
              == RoomOf(s.users, N.Room(s.rooms[r].members - {n}, s.rooms[r].guests - {n}))
    {
      DropInRoom(s.users, s.rooms[r], n);
    }
    assert P.RemoveFromRooms(Copies(s), n).rooms == Copies(N.DropFromRooms(s, {n})).rooms;
  }

  lemma DropMore(s: N.State, n: string, names: set<string>)
    ensures N.DropFromRooms(N.DropFromRooms(s, {n}), names) == N.DropFromRooms(s, {n} + names)
  {
    forall r | r in s.rooms
      ensures N.WithoutIn(N.WithoutIn(s.rooms, {n}), names)[r] == N.WithoutIn(s.rooms, {n} + names)[r]
    {
      assert s.rooms[r].members - {n} - names == s.rooms[r].members - ({n} + names);
      assert s.rooms[r].guests - {n} - names == s.rooms[r].guests - ({n} + names);
    }
  }

  lemma ForgetMore(s: N.State, n: string, names: set<string>)
    ensures N.Forget(N.Forget(s, {n}), names) == N.Forget(s, {n} + names)
  {
    DropMore(s, n, names);
    assert s.users - {n} - names == s.users - ({n} + names);
  }

  lemma RestrictWithout(users: map<string, User>, n: string, names: set<string>)
    requires n !in names
    ensures N.Restrict(users - {n}, names) == N.Restrict(users, names)
  {
  }

  lemma ForgetOne(s: N.State, n: string)
    requires N.Valid(s)
    ensures N.OneUserPerFd((s.users - {n}))
    ensures P.RemoveUser(P.RemoveFromRooms(Copies(s), n), n) == Copies(N.Forget(s, {n}))
  {
    var d := N.DropFromRooms(s, {n});
    var s' := N.Forget(s, {n});
    DropOne(s, n);
    RemoveOne(s.users, n);
    forall r | r in s.rooms
      ensures RoomOf(d.users, d.rooms[r]) == RoomOf(s'.users, d.rooms[r])
    {
      RestrictWithout(s.users, n, d.rooms[r].members);
      RestrictWithout(s.users, n, d.rooms[r].guests);
    }
    SameRooms(s.users, s'.users, d.rooms);
  }

  /** Rooms are written out the same when every one of them is. */
  lemma SameRooms(users: map<string, User>, users': map<string, User>, rooms: map<string, N.Room>)
    requires N.OneUserPerFd(users) && N.OneUserPerFd(users')
    requires forall r :: r in rooms ==> RoomOf(users, rooms[r]) == RoomOf(users', rooms[r])
    ensures (map r | r in rooms :: RoomOf(users, rooms[r])) == (map r | r in rooms :: RoomOf(users', rooms[r]))
  {
  }

  lemma {:induction false} ElementsStep(names: seq<string>)
    requires names != []
    ensures N.Elements(names) == {names[0]} + N.Elements(names[1..])
  {
  }

  function Fds(users: map<string, User>, names: seq<string>): seq<int>
    requires forall n :: n in names ==> n in users
  {
    seq(|names|, i requires 0 <= i < |names| => users[names[i]].fd)
  }

  lemma DropNobody(s: N.State)
    ensures N.DropFromRooms(s, {}) == s && N.Forget(s, {}) == s
  {
    forall r | r in s.rooms
      ensures N.WithoutIn(s.rooms, {})[r] == s.rooms[r]
    {
      assert s.rooms[r].members - {} == s.rooms[r].members;
      assert s.rooms[r].guests - {} == s.rooms[r].guests;
    }
    assert s.users - {} == s.users;
  }

  /** One turn of the loop over the failed descriptors of the master table. */
  lemma PurgeUsersTurn(s: N.State, n: string, fds: seq<int>)
    requires N.Valid(s) && n in s.users && fds != [] && fds[0] == s.users[n].fd
    ensures N.Valid(N.Forget(s, {n}))
    ensures P.PurgeUsers(Copies(s), fds) == P.PurgeUsers(Copies(N.Forget(s, {n})), fds[1..])
  {
    FindHolder(s.users, s.users[n].fd);
    StillValid(s, {n});
    ForgetOne(s, n);
  }

  lemma {:induction false} PurgeUsersForgets(s: N.State, lost: seq<string>)
    requires N.Valid(s) && NoDuplicates(lost) && forall n :: n in lost ==> n in s.users
    ensures N.Valid(N.Forget(s, N.Elements(lost)))
    ensures P.PurgeUsers(Copies(s), Fds(s.users, lost)) == Copies(N.Forget(s, N.Elements(lost)))
    decreases lost
  {
    StillValid(s, N.Elements(lost));
    if lost == [] {
      DropNobody(s);
      assert N.Elements(lost) == {};
    } else {
      PurgeUsersForgetsMore(s, lost);
    }
  }

  lemma {:induction false} PurgeUsersForgetsMore(s: N.State, lost: seq<string>)
    requires N.Valid(s) && NoDuplicates(lost) && forall n :: n in lost ==> n in s.users
    requires lost != [] && N.Valid(N.Forget(s, N.Elements(lost)))
    ensures P.PurgeUsers(Copies(s), Fds(s.users, lost)) == Copies(N.Forget(s, N.Elements(lost)))
    decreases lost, 0
  {
    hide Copies, N.Valid, N.WithoutIn, N.Elements, P.PurgeUsers;
    var n := lost[0];
    var s1 := N.Forget(s, {n});
    PurgeUsersTurn(s, n, Fds(s.users, lost));
    assert Fds(s.users, lost)[1..] == Fds(s1.users, lost[1..]);
    PurgeUsersForgets(s1, lost[1..]);
    ElementsStep(lost);
    ForgetMore(s, n, N.Elements(lost[1..]));
  }

  /** After `room_remove_data` the room's own removal finds nothing to do. */
  lemma RemovedAlready(s: N.State, room: string, n: string)
    requires N.OneUserPerFd(s.users) && room in s.rooms && n !in s.rooms[room].members
    ensures var c := Copies(s); P.WithMembers(c, room, T.Remove(c.rooms[room].members, n).0) == c
  {
  }

  /** One turn of the loop over the failed descriptors of a room. */
  lemma PurgeMembersTurn(s: N.State, room: string, n: string, fds: seq<int>)
    requires N.Valid(s) && room in s.rooms && n in s.rooms[room].members
    requires fds != [] && fds[0] == s.users[n].fd
    ensures N.Valid(N.DropFromRooms(s, {n}))
    ensures P.PurgeMembers(Copies(s), room, fds) == P.PurgeMembers(Copies(N.DropFromRooms(s, {n})), room, fds[1..])
  {
    FindIn(s.users, s.rooms[room].members, n);
    DropOne(s, n);
    StillValid(s, {n});
    RemovedAlready(N.DropFromRooms(s, {n}), room, n);
  }

  lemma {:induction false} PurgeMembersDrops(s: N.State, room: string, lost: seq<string>)
    requires N.Valid(s) && room in s.rooms && NoDuplicates(lost)
    requires forall n :: n in lost ==> n in s.rooms[room].members
    ensures N.Valid(N.DropFromRooms(s, N.Elements(lost)))
    ensures P.PurgeMembers(Copies(s), room, Fds(s.users, lost)) == Copies(N.DropFromRooms(s, N.Elements(lost)))
    decreases lost
  {
    StillValid(s, N.Elements(lost));
    if lost == [] {
      DropNobody(s);
      assert N.Elements(lost) == {};
    } else {
      var n := lost[0];
      var s1 := N.DropFromRooms(s, {n});
      assert forall i :: 0 < i < |lost| ==> lost[i] in s1.rooms[room].members;
      PurgeMembersDropsMore(s, room, lost);
    }
  }

  lemma {:induction false} PurgeMembersDropsMore(s: N.State, room: string, lost: seq<string>)
    requires N.Valid(s) && room in s.rooms && NoDuplicates(lost)
    requires forall n :: n in lost ==> n in s.rooms[room].members
    requires lost != [] && N.Valid(N.DropFromRooms(s, N.Elements(lost)))
    requires forall n :: n in lost ==> n in s.users
    requires room in N.DropFromRooms(s, {lost[0]}).rooms
    requires forall i :: 0 < i < |lost| ==> lost[i] in N.DropFromRooms(s, {lost[0]}).rooms[room].members
    ensures P.PurgeMembers(Copies(s), room, Fds(s.users, lost)) == Copies(N.DropFromRooms(s, N.Elements(lost)))
    decreases lost, 0
  {
    hide Copies, N.Valid, N.WithoutIn, N.Elements, P.PurgeMembers;
    var n := lost[0];
    var s1 := N.DropFromRooms(s, {n});
    PurgeMembersTurn(s, room, n, Fds(s.users, lost));
    assert Fds(s.users, lost)[1..] == Fds(s1.users, lost[1..]);
    PurgeMembersDrops(s1, room, lost[1..]);
    ElementsStep(lost);
    DropMore(s, n, N.Elements(lost[1..]));
  }

  // ---------------------------------------------------------------------------- broadcasts

  lemma {:induction false} OthersDistinct(names: seq<string>, me: string)
    requires NoDuplicates(names)
    ensures NoDuplicates(N.Others(names, me))
  {
    if names == [] {
    } else {
      OthersDistinct(names[1..], me);
      N.OthersAreListed(names[1..], me);
      assert names[0] !in names[1..];
    }
  }

  lemma FdsStep(users: map<string, User>, first: string, rest: seq<string>)
    requires first in users && forall n :: n in rest ==> n in users
    ensures Fds(users, [first] + rest) == [users[first].fd] + Fds(users, rest)
  {
  }

  /** Skipping one's own descriptor is skipping one's own name. */
  lemma {:induction false} RecipientsAreOthers(
    table: map<string, User>, users: map<string, User>, names: seq<string>, me: string, self: int)
    requires forall n :: n in names ==> n in table && n in users && table[n] == users[n]
    requires forall n :: n in names ==> (users[n].fd == self <==> n == me)
    ensures forall n :: n in N.Others(names, me) ==> n in users
    ensures P.Recipients(table, names, self) == Fds(users, N.Others(names, me))
  {
    N.OthersAreListed(names, me);
    if names == [] {
    } else {
      N.OthersAreListed(names[1..], me);
      RecipientsAreOthers(table, users, names[1..], me, self);
      hide Fds;
      var rest := N.Others(names[1..], me);
      if names[0] != me {
        FdsStep(users, names[0], rest);
        assert N.Others(names, me) == [names[0]] + rest;
      } else {
        assert N.Others(names, me) == [] + rest == rest;
        assert P.Recipients(table, names, self) == [] + P.Recipients(table, names[1..], self);
      }
    }
  }

  /** The log is the same, and the failed descriptors are those of the users lost. */
  lemma {:induction false} SendEachDelivers(
    log: seq<P.Event>, e: P.Env, users: map<string, User>, names: seq<string>, m: Message)
    requires forall n :: n in names ==> n in users
    ensures forall n :: n in N.Deliver(log, e, users, names, m).1 ==> n in names
    ensures NoDuplicates(names) ==> NoDuplicates(N.Deliver(log, e, users, names, m).1)
    ensures P.SendEach(log, e, Fds(users, names), m)
            == (N.Deliver(log, e, users, names, m).0, Fds(users, N.Deliver(log, e, users, names, m).1))
    decreases names
  {
    if names == [] {
    } else {
      var ok := e.delivers(|log|);
      var log1 := log + [P.Sent(users[names[0]].fd, m, ok)];
      assert Fds(users, names)[1..] == Fds(users, names[1..]);
      SendEachDelivers(log1, e, users, names[1..], m);
      var rest := N.Deliver(log1, e, users, names[1..], m).1;
      var lost := N.Deliver(log, e, users, names, m).1;
      assert lost == (if ok then [] else [names[0]]) + rest;
      assert Fds(users, lost) == (if ok then [] else [users[names[0]].fd]) + Fds(users, rest);
      assert names[0] in names[1..] ==> !NoDuplicates(names);
    }
  }

  lemma NotifyUsersRefines(s: N.State, e: P.Env, m: Message, me: string)
    requires P.Iterates(e) && N.Valid(s) && me in s.users
    ensures N.Valid(N.NotifyAll(s, e, m, me))
    ensures P.NotifyUsers(Copies(s), e, m, s.users[me].fd) == Copies(N.NotifyAll(s, e, m, me))
  {
    var names := e.order(|s.log|, s.users.Keys);
    var others := N.Others(names, me);
    OthersDistinct(names, me);
    RecipientsAreOthers(s.users, s.users, names, me, s.users[me].fd);
    SendEachDelivers(s.log, e, s.users, others, m);
    var (log, lost) := N.Deliver(s.log, e, s.users, others, m);
    PurgeUsersForgets(s.(log := log), lost);
    StillValid(s.(log := log), N.Elements(lost));
  }

  lemma NotifyMembersRefines(s: N.State, e: P.Env, room: string, m: Message, me: string)
    requires P.Iterates(e) && N.Valid(s) && me in s.users
    ensures N.Valid(N.NotifyRoom(s, e, room, m, me))
    ensures P.NotifyMembers(Copies(s), e, room, m, s.users[me].fd) == Copies(N.NotifyRoom(s, e, room, m, me))
  {
    if room in s.rooms {
      var members := s.rooms[room].members;
      var table := N.Restrict(s.users, members);
      assert table.Keys == members;
      var names := e.order(|s.log|, members);
      var others := N.Others(names, me);
      OthersDistinct(names, me);
      RecipientsAreOthers(table, s.users, names, me, s.users[me].fd);
      N.OthersAreListed(names, me);
      SendEachDelivers(s.log, e, s.users, others, m);
      var (log, lost) := N.Deliver(s.log, e, s.users, others, m);
      PurgeMembersDrops(s.(log := log), room, lost);
      StillValid(s.(log := log), N.Elements(lost));
    }
  }

  // -------------------------------------------------------------------------------- handlers

  /** The handler's two forms agree, and the invariant is kept. */
  ghost predicate Agree(c: (P.State, bool), a: (N.State, bool)) {
    N.Valid(a.0) && c == (Copies(a.0), a.1)
  }

  lemma LogOnly(s: N.State, log: seq<P.Event>)
    requires N.Valid(s)
    ensures N.Valid(s.(log := log)) && Copies(s.(log := log)) == Copies(s).(log := log)
  {
  }

  lemma SendAgrees(s: N.State, e: P.Env, fd: int, m: Message)
    requires N.Valid(s)
    ensures Agree(P.Send(Copies(s), e, fd, m), N.Send(s, e, fd, m))
  {
  }

  lemma DisconnectAgrees(s: N.State, e: P.Env, me: string)
    requires P.Iterates(e) && N.Valid(s) && me in s.users
    ensures Agree(P.Disconnect(Copies(s), e, s.users[me].fd), (N.Disconnect(s, e, me), true))
  {
    var news := BLANK.(kind := DISCONNECTED, username := Some(me));
    FindHolder(s.users, s.users[me].fd);
    NotifyUsersRefines(s, e, news, me);
    var s1 := N.NotifyAll(s, e, news, me);
    ForgetOne(s1, me);
    StillValid(s1, {me});
    hide P.NotifyUsers, N.NotifyAll, P.RemoveFromRooms, P.RemoveUser, N.Forget;
    var s2 := N.Forget(s1, {me});
    LogOnly(s2, s2.log + [P.Closed(s.users[me].fd)]);
  }

  lemma CloseAgrees(s: N.State, e: P.Env, fd: int)
    requires N.Valid(s) && N.Holder(s.users, fd).None?
    ensures Agree(P.Disconnect(Copies(s), e, fd), (N.Close(s, fd), true))
  {
  }

  lemma ReplyAgrees(s: N.State, e: P.Env, me: string, m: Message)
    requires P.Iterates(e) && N.Valid(s) && me in s.users
    ensures Agree(P.Reply(Copies(s), e, s.users[me].fd, m), N.Reply(s, e, me, m))
  {
    SendAgrees(s, e, s.users[me].fd, m);
    DisconnectAgrees(N.Send(s, e, s.users[me].fd, m).0, e, me);
  }

  lemma ExpelAgrees(s: N.State, e: P.Env, me: string)
    requires P.Iterates(e) && N.Valid(s) && me in s.users
    ensures Agree(P.SendInvalidAndDisconnect(Copies(s), e, s.users[me].fd), N.Expel(s, e, me))
  {
    var m := P.Response("INVALID", "INVALID", None);
    SendAgrees(s, e, s.users[me].fd, m);
    DisconnectAgrees(N.Send(s, e, s.users[me].fd, m).0, e, me);
  }

  /** A new user is in no room, so no room changes. */
  lemma AddUserAgrees(s: N.State, name: string, fd: int)
    requires N.Valid(s) && N.Holder(s.users, fd).None? && name !in s.users && UsernameOk(name) && fd >= 0
    ensures var s' := s.(users := s.users[name := User(name, fd, ACTIVE)]);
            && N.Valid(s')
            && Copies(s').users == T.Add(Copies(s).users, name, fd).0 && T.Add(Copies(s).users, name, fd).1
            && Copies(s').rooms == Copies(s).rooms
  {
    var s' := s.(users := s.users[name := User(name, fd, ACTIVE)]);
    AddOne(s.users, User(name, fd, ACTIVE));
    forall r | r in s.rooms
      ensures RoomOf(s.users, s.rooms[r]) == RoomOf(s'.users, s.rooms[r])
    {
      assert N.Restrict(s.users, s.rooms[r].members) == N.Restrict(s'.users, s.rooms[r].members);
      assert N.Restrict(s.users, s.rooms[r].guests) == N.Restrict(s'.users, s.rooms[r].guests);
    }
    SameRooms(s.users, s'.users, s.rooms);
  }

  lemma IdentifyAgrees(s: N.State, e: P.Env, m: Message, fd: int)
    requires P.Iterates(e) && N.Valid(s) && fd >= 0
    ensures Agree(P.Identify(Copies(s), e, m, fd), N.Identify(s, e, m, fd))
  {
    if m.username.Some? {
      var name := Truncate(m.username.value, USERNAME_MAX);
      FindHolder(s.users, fd);
      match N.Holder(s.users, fd)
      case Some(me) => ExpelAgrees(s, e, me);
      case None =>
        if name in s.users {
          var taken := P.Response("IDENTIFY", "USER_ALREADY_EXISTS", Some(name));
          SendAgrees(s, e, fd, taken);
          CloseAgrees(N.Send(s, e, fd, taken).0, e, fd);
        } else if name != "" {
          AddUserAgrees(s, name, fd);
          NewUserAgrees(s.(users := s.users[name := User(name, fd, ACTIVE)]), e, name);
        }
    }
  }

  /** The rest of an IDENTIFY, once the user is in the table. */
  lemma NewUserAgrees(s: N.State, e: P.Env, name: string)
    requires P.Iterates(e) && N.Valid(s) && name in s.users
    ensures var welcome := P.Response("IDENTIFY", "SUCCESS", Some(name));
            var news := BLANK.(kind := NEW_USER, username := Some(name));
            var fd := s.users[name].fd;
            var (c1, ok) := P.Send(Copies(s), e, fd, welcome);
            var (s1, ok') := N.Send(s, e, fd, welcome);
            && ok == ok'
            && Agree(if !ok then P.Disconnect(c1, e, fd) else (P.NotifyUsers(c1, e, news, fd), true),
                     (if ok then N.NotifyAll(s1, e, news, name) else N.Disconnect(s1, e, name), true))
  {
    var fd := s.users[name].fd;
    SendAgrees(s, e, fd, P.Response("IDENTIFY", "SUCCESS", Some(name)));
    var s1 := N.Send(s, e, fd, P.Response("IDENTIFY", "SUCCESS", Some(name))).0;
    DisconnectAgrees(s1, e, name);
    NotifyUsersRefines(s1, e, BLANK.(kind := NEW_USER, username := Some(name)), name);
  }

  lemma StatusInRoom(users: map<string, User>, room: N.Room, me: string, status: UserStatus)
    requires N.UsersOk(users) && me in users
    ensures N.UsersOk(WithStatus(users, me, status))
    ensures var fd := users[me].fd;
            P.Room(T.ChangeStatusByFd(RoomOf(users, room).members, fd, status).0,
                   T.ChangeStatusByFd(RoomOf(users, room).guests, fd, status).0)
            == RoomOf(WithStatus(users, me, status), room)
  {
    ChangeIn(users, room.members, me, status);
    ChangeIn(users, room.guests, me, status);
  }

  lemma StatusValid(s: N.State, me: string, status: UserStatus)
    requires N.Valid(s) && me in s.users
    ensures N.Valid(s.(users := WithStatus(s.users, me, status)))
  {
  }

  lemma StatusInRooms(s: N.State, me: string, status: UserStatus)
    requires N.Valid(s) && me in s.users
    ensures var s' := s.(users := WithStatus(s.users, me, status));
            var c1 := Copies(s).(users := T.ChangeStatusByFd(Copies(s).users, s.users[me].fd, status).0);
            && N.Valid(s')
            && P.ChangeStatusInRooms(c1, s.users[me].fd, status) == Copies(s')
  {
    StatusValid(s, me, status);
    ChangeOne(s.users, me, status);
    hide N.Valid, WithStatus, RoomOf, T.ChangeStatusByFd;
    forall r | r in s.rooms
      ensures N.OneUserPerFd(WithStatus(s.users, me, status))
      ensures P.Room(T.ChangeStatusByFd(RoomOf(s.users, s.rooms[r]).members, s.users[me].fd, status).0,
                     T.ChangeStatusByFd(RoomOf(s.users, s.rooms[r]).guests, s.users[me].fd, status).0)
              == RoomOf(WithStatus(s.users, me, status), s.rooms[r])
    {
      StatusInRoom(s.users, s.rooms[r], me, status);
    }
    var s' := s.(users := WithStatus(s.users, me, status));
    var c1 := Copies(s).(users := T.ChangeStatusByFd(Copies(s).users, s.users[me].fd, status).0);
    assert P.ChangeStatusInRooms(c1, s.users[me].fd, status).rooms == Copies(s').rooms;
  }

  lemma SetStatusAgrees(s: N.State, e: P.Env, m: Message, me: string)
    requires P.Iterates(e) && N.Valid(s) && me in s.users
    ensures Agree(P.SetStatus(Copies(s), e, m, s.users[me].fd), N.SetStatus(s, e, m, me))
  {
    if m.status.Some? {
      FindHolder(s.users, s.users[me].fd);
      match ParseStatus(m.status.value)
      case None => ExpelAgrees(s, e, me);
      case Some(status) =>
        if s.users[me].status != status {
          StatusInRooms(s, me, status);
          var s1 := s.(users := WithStatus(s.users, me, status));
          NotifyUsersRefines(s1, e, BLANK.(kind := NEW_STATUS, username := Some(me), status := m.status), me);
        }
    }
  }

  lemma ListUsersAgrees(s: N.State, e: P.Env, me: string)
    requires P.Iterates(e) && N.Valid(s) && me in s.users
    ensures Agree(P.ListUsers(Copies(s), e, s.users[me].fd), N.ListUsers(s, e, me))
  {
    var users := P.UsersObject(s.users, e.order(|s.log|, s.users.Keys));
    ReplyAgrees(s, e, me, BLANK.(kind := USER_LIST, users := Some(users)));
  }

  lemma TextAgrees(s: N.State, e: P.Env, m: Message, me: string)
    requires P.Iterates(e) && N.Valid(s) && me in s.users && m.username.Some? && m.text.Some?
    ensures Agree(P.Text(Copies(s), e, m, s.users[me].fd), N.Text(s, e, m, me))
  {
    var to := m.username.value;
    FindHolder(s.users, s.users[me].fd);
    if to !in s.users {
      ReplyAgrees(s, e, me, P.Response("TEXT", "NO_SUCH_USER", Some(to)));
    } else if to != me {
      var text := BLANK.(kind := TEXT_FROM, username := Some(me), text := m.text);
      SendAgrees(s, e, s.users[to].fd, text);
      DisconnectAgrees(N.Send(s, e, s.users[to].fd, text).0, e, me);
    }
  }

  lemma PublicTextAgrees(s: N.State, e: P.Env, m: Message, me: string)
    requires P.Iterates(e) && N.Valid(s) && me in s.users && m.text.Some?
    ensures Agree(P.PublicText(Copies(s), e, m, s.users[me].fd), N.PublicText(s, e, m, me))
  {
    FindHolder(s.users, s.users[me].fd);
    NotifyUsersRefines(s, e, BLANK.(kind := PUBLIC_TEXT_FROM, username := Some(me), text := m.text), me);
  }

  // ----------------------------------------------------------------------------- rooms

  lemma WrittenRoom(s: N.State, room: string, r: N.Room)
    requires N.OneUserPerFd(s.users)
    ensures Copies(s.(rooms := s.rooms[room := r])) == Copies(s).(rooms := Copies(s).rooms[room := RoomOf(s.users, r)])
  {
    assert Copies(s.(rooms := s.rooms[room := r])).rooms == Copies(s).rooms[room := RoomOf(s.users, r)];
  }

  /** Copying a user into a table of a room. */
  lemma CopyIn(users: map<string, User>, names: set<string>, n: string)
    requires N.UsersOk(users) && n in users && n !in names
    ensures T.AddWithStatus(TableOf(N.Restrict(users, names)), n, users[n].fd, users[n].status).0
            == TableOf(N.Restrict(users, names + {n}))
  {
    var part := N.Restrict(users, names);
    FindIn(users, names, n);
    AddOne(part, users[n]);
    assert part[n := users[n]] == N.Restrict(users, names + {n});
  }

  lemma NewRoomAgrees(s: N.State, e: P.Env, m: Message, me: string)
    requires P.Iterates(e) && N.Valid(s) && me in s.users
    ensures Agree(P.NewRoom(Copies(s), e, m, s.users[me].fd), N.NewRoom(s, e, m, me))
  {
    if m.roomname.Some? {
      var room := Truncate(m.roomname.value, ROOMNAME_MAX);
      if m.roomname.value in s.rooms {
        ReplyAgrees(s, e, me, P.Response("NEW_ROOM", "ROOM_ALREADY_EXISTS", Some(room)));
      } else if room != "" && room !in s.rooms {
        var s1 := s.(rooms := s.rooms[room := N.Room({me}, {})]);
        FirstMember(s, room, me);
        FindHolder(s.users, s.users[me].fd);
        ReplyAgrees(s1, e, me, P.Response("NEW_ROOM", "SUCCESS", Some(room)));
      }
    }
  }

  lemma FirstCopy(users: map<string, User>, me: string)
    requires N.UsersOk(users) && me in users
    ensures var u := users[me];
            P.Room(T.AddWithStatus(T.EMPTY, u.name, u.fd, u.status).0, T.EMPTY) == RoomOf(users, N.Room({me}, {}))
  {
  }

  lemma NewRoomValid(s: N.State, room: string, me: string)
    requires N.Valid(s) && me in s.users && room !in s.rooms && RoomnameOk(room)
    ensures N.Valid(s.(rooms := s.rooms[room := N.Room({me}, {})]))
  {
  }

  lemma Overwritten<V>(m: map<string, V>, key: string, a: V, b: V)
    ensures m[key := a][key := b] == m[key := b]
  {
  }

  lemma FirstMember(s: N.State, room: string, me: string)
    requires N.Valid(s) && me in s.users && room !in s.rooms && RoomnameOk(room)
    ensures var s1 := s.(rooms := s.rooms[room := N.Room({me}, {})]);
            var u := s.users[me];
            var c1 := Copies(s).(rooms := Copies(s).rooms[room := P.Room(T.EMPTY, T.EMPTY)]);
            && N.Valid(s1)
            && P.WithMembers(c1, room, T.AddWithStatus(c1.rooms[room].members, u.name, u.fd, u.status).0) == Copies(s1)
  {
    FirstCopy(s.users, me);
    NewRoomValid(s, room, me);
    hide N.Valid, T.AddWithStatus, RoomOf;
    WrittenRoom(s, room, N.Room({me}, {}));
    Overwritten(Copies(s).rooms, room, P.Room(T.EMPTY, T.EMPTY), RoomOf(s.users, N.Room({me}, {})));
  }

  lemma MembershipAgrees(s: N.State, room: string, n: string)
    requires N.Valid(s) && n in s.users && room in s.rooms
    ensures P.IsMember(Copies(s), room, s.users[n].fd) <==> n in s.rooms[room].members
    ensures P.IsGuest(Copies(s), room, s.users[n].fd) <==> n in s.rooms[room].guests
  {
    FindIn(s.users, s.rooms[room].members, n);
    FindIn(s.users, s.rooms[room].guests, n);
  }

  lemma AddGuestAgrees(s: N.State, room: string, n: string)
    requires N.Valid(s) && n in s.users && room in s.rooms && n !in s.rooms[room].members + s.rooms[room].guests
    ensures N.Valid(N.AddGuest(s, room, n))
    ensures P.AddGuest(Copies(s), room, s.users[n]) == Copies(N.AddGuest(s, room, n))
  {
    CopyIn(s.users, s.rooms[room].guests, n);
    WrittenRoom(s, room, s.rooms[room].(guests := s.rooms[room].guests + {n}));
  }

  lemma {:induction false} LookUpAgrees(users: map<string, User>, names: seq<string>)
    requires N.UsersOk(users)
    ensures N.FirstUnknown(users, names).None? ==>
              && (forall n :: n in names ==> n in users)
              && P.LookUpAll(TableOf(users), names) == P.Known(Records(users, names))
    ensures N.FirstUnknown(users, names).Some? ==>
              P.LookUpAll(TableOf(users), names) == P.Missing(N.FirstUnknown(users, names).value)
  {
    if names == [] {
    } else {
      LookUpAgrees(users, names[1..]);
      if N.FirstUnknown(users, names).None? {
        assert names == [names[0]] + names[1..];
        assert Records(users, names) == [users[names[0]]] + Records(users, names[1..]);
      }
    }
  }

  ghost function Records(users: map<string, User>, names: seq<string>): seq<User>
    requires forall n :: n in names ==> n in users
  {
    seq(|names|, i requires 0 <= i < |names| => users[names[i]])
  }

  /** One invitation. */
  lemma InviteOneAgrees(s: N.State, e: P.Env, room: string, invitation: Message, n: string)
    requires N.Valid(s) && n in s.users && room in s.rooms && n !in s.rooms[room].members + s.rooms[room].guests
    ensures var (s1, ok) := N.Send(N.AddGuest(s, room, n), e, s.users[n].fd, invitation);
            && N.Valid(s1) && s1.users == s.users && room in s1.rooms
            && P.Send(P.AddGuest(Copies(s), room, s.users[n]), e, s.users[n].fd, invitation) == (Copies(s1), ok)
  {
    AddGuestAgrees(s, room, n);
    SendAgrees(N.AddGuest(s, room, n), e, s.users[n].fd, invitation);
  }

  lemma {:induction false} InviteEachAgrees(s: N.State, e: P.Env, room: string, invitation: Message, names: seq<string>)
    requires P.Iterates(e) && N.Valid(s) && room in s.rooms && forall n :: n in names ==> n in s.users
    ensures Agree(P.InviteEach(Copies(s), e, room, invitation, Records(s.users, names)),
                  (N.InviteEach(s, e, room, invitation, names), true))
    decreases names
  {
    hide N.Valid, Copies, P.AddGuest, N.AddGuest, P.IsMember, P.IsGuest, P.Disconnect, N.Disconnect,
      P.Send, N.Send, P.Iterates;
    if names == [] {
    } else {
      var n := names[0];
      MembershipAgrees(s, room, n);
      if n !in s.rooms[room].members + s.rooms[room].guests {
        InviteOneAgrees(s, e, room, invitation, n);
        var (s1, ok) := N.Send(N.AddGuest(s, room, n), e, s.users[n].fd, invitation);
        assert Records(s.users, names)[1..] == Records(s1.users, names[1..]);
        if ok {
          InviteEachAgrees(s1, e, room, invitation, names[1..]);
        } else {
          DisconnectAgrees(s1, e, n);
        }
      }
    }
  }

  lemma InviteAgrees(s: N.State, e: P.Env, m: Message, me: string)
    requires P.Iterates(e) && N.Valid(s) && me in s.users
    requires m.usernames.Some? ==> NoNullElements(m.usernames.value)
    ensures Agree(P.Invite(Copies(s), e, m, s.users[me].fd), N.Invite(s, e, m, me))
  {
    if m.roomname.Some? && m.usernames.Some? {
      var room := m.roomname.value;
      var names := P.Values(m.usernames.value);
      FindHolder(s.users, s.users[me].fd);
      if room !in s.rooms {
        ReplyAgrees(s, e, me, P.Response("INVITE", "NO_SUCH_ROOM", Some(room)));
      } else {
        MembershipAgrees(s, room, me);
        if me !in s.rooms[room].members {
          ExpelAgrees(s, e, me);
        } else {
          LookUpAgrees(s.users, names);
          match N.FirstUnknown(s.users, names)
          case Some(name) => ReplyAgrees(s, e, me, P.Response("INVITE", "NO_SUCH_USER", Some(name)));
          case None =>
            var invitation := BLANK.(kind := INVITATION, username := Some(me), roomname := Some(room));
            InviteEachAgrees(s, e, room, invitation, names);
        }
      }
    }
  }

  lemma MoveValid(s: N.State, room: string, me: string)
    requires N.Valid(s) && me in s.users && room in s.rooms && me in s.rooms[room].guests
    ensures N.Valid(N.GuestToMember(s, room, me))
  {
  }

  lemma GuestToMemberAgrees(s: N.State, room: string, me: string)
    requires N.Valid(s) && me in s.users && room in s.rooms && me in s.rooms[room].guests
    ensures N.Valid(N.GuestToMember(s, room, me))
    ensures P.GuestToMember(Copies(s), room, s.users[me]) == Copies(N.GuestToMember(s, room, me))
  {
    var r := s.rooms[room];
    MoveValid(s, room, me);
    RemoveIn(s.users, r.guests, me);
    CopyIn(s.users, r.members, me);
    var moved := N.Room(r.members + {me}, r.guests - {me});
    var halfway := RoomOf(s.users, N.Room(r.members, r.guests - {me}));
    hide N.Valid, T.AddWithStatus, T.Remove;
    WrittenRoom(s, room, moved);
    assert Copies(s).rooms[room] == RoomOf(s.users, r);
    Overwritten(Copies(s).rooms, room, halfway, RoomOf(s.users, moved));
  }

  lemma JoinRoomAgrees(s: N.State, e: P.Env, m: Message, me: string)
    requires P.Iterates(e) && N.Valid(s) && me in s.users
    ensures Agree(P.JoinRoom(Copies(s), e, m, s.users[me].fd), N.JoinRoom(s, e, m, me))
  {
    if m.roomname.Some? {
      var room := m.roomname.value;
      FindHolder(s.users, s.users[me].fd);
      if room !in s.rooms {
        ReplyAgrees(s, e, me, P.Response("JOIN_ROOM", "NO_SUCH_ROOM", Some(room)));
      } else {
        MembershipAgrees(s, room, me);
        if me !in s.rooms[room].members {
          if me !in s.rooms[room].guests {
            ReplyAgrees(s, e, me, P.Response("JOIN_ROOM", "NOT_INVITED", Some(room)));
          } else {
            var welcome := P.Response("JOIN_ROOM", "SUCCESS", Some(room));
            var s0 := N.GuestToMember(s, room, me);
            GuestToMemberAgrees(s, room, me);
            SendAgrees(s0, e, s.users[me].fd, welcome);
            var s1 := N.Send(s0, e, s.users[me].fd, welcome).0;
            DisconnectAgrees(s1, e, me);
            NotifyMembersRefines(s1, e, room,
              BLANK.(kind := JOINED_ROOM, roomname := Some(room), username := Some(me)), me);
          }
        }
      }
    }
  }

  /** Listing the copies lists the users themselves. */
  lemma {:induction false} CopiesListAlike(users: map<string, User>, part: map<string, User>, names: seq<string>)
    requires forall n :: n in names ==> n in part && n in users && part[n] == users[n]
    ensures P.UserFields(part, names) == P.UserFields(users, names)
  {
    if names == [] {
    } else {
      CopiesListAlike(users, part, names[1..]);
    }
  }

  lemma RoomUsersAgrees(s: N.State, e: P.Env, m: Message, me: string)
    requires P.Iterates(e) && N.Valid(s) && me in s.users
    ensures Agree(P.RoomUsers(Copies(s), e, m, s.users[me].fd), N.RoomUsers(s, e, m, me))
  {
    if m.roomname.Some? {
      var room := m.roomname.value;
      FindHolder(s.users, s.users[me].fd);
      if room !in s.rooms {
        ReplyAgrees(s, e, me, P.Response("ROOM_USERS", "NO_SUCH_ROOM", Some(room)));
      } else {
        MembershipAgrees(s, room, me);
        if me !in s.rooms[room].members {
          ReplyAgrees(s, e, me, P.Response("ROOM_USERS", "NOT_JOINED", Some(room)));
        } else {
          var members := s.rooms[room].members;
          var part := N.Restrict(s.users, members);
          assert part.Keys == members;
          var names := e.order(|s.log|, members);
          CopiesListAlike(s.users, part, names);
          ReplyAgrees(s, e, me, BLANK.(kind := ROOM_USER_LIST, roomname := Some(room),
                                       users := Some(P.UsersObject(s.users, names))));
        }
      }
    }
  }

  lemma RoomTextAgrees(s: N.State, e: P.Env, m: Message, me: string)
    requires P.Iterates(e) && N.Valid(s) && me in s.users
    ensures Agree(P.RoomText(Copies(s), e, m, s.users[me].fd), N.RoomText(s, e, m, me))
  {
    if m.roomname.Some? && m.text.Some? {
      var room := m.roomname.value;
      FindHolder(s.users, s.users[me].fd);
      if room !in s.rooms {
        ReplyAgrees(s, e, me, P.Response("ROOM_TEXT", "NO_SUCH_ROOM", Some(room)));
      } else {
        MembershipAgrees(s, room, me);
        if me !in s.rooms[room].members {
          ReplyAgrees(s, e, me, P.Response("ROOM_TEXT", "NOT_JOINED", Some(room)));
        } else {
          NotifyMembersRefines(s, e, room,
            BLANK.(kind := ROOM_TEXT_FROM, roomname := Some(room), username := Some(me), text := m.text), me);
        }
      }
    }
  }

  lemma LeaveAgrees(s: N.State, room: string, me: string)
    requires N.Valid(s) && me in s.users && room in s.rooms
    ensures N.Valid(N.Leave(s, room, me))
    ensures P.Leave(Copies(s), room, s.users[me]) == Copies(N.Leave(s, room, me))
  {
    var members := s.rooms[room].members - {me};
    RemoveIn(s.users, s.rooms[room].members, me);
    var part := N.Restrict(s.users, members);
    assert part.Keys == members;
    if members == {} {
      assert Copies(s).rooms - {room} == Copies(s.(rooms := s.rooms - {room})).rooms;
    } else {
      WrittenRoom(s, room, s.rooms[room].(members := members));
    }
  }

  lemma LeaveRoomAgrees(s: N.State, e: P.Env, m: Message, me: string)
    requires P.Iterates(e) && N.Valid(s) && me in s.users
    ensures Agree(P.LeaveRoom(Copies(s), e, m, s.users[me].fd), N.LeaveRoom(s, e, m, me))
  {
    if m.roomname.Some? {
      var room := m.roomname.value;
      FindHolder(s.users, s.users[me].fd);
      if room !in s.rooms {
        ReplyAgrees(s, e, me, P.Response("LEAVE_ROOM", "NO_SUCH_ROOM", Some(room)));
      } else {
        MembershipAgrees(s, room, me);
        if me !in s.rooms[room].members {
          ReplyAgrees(s, e, me, P.Response("LEAVE_ROOM", "NOT_JOINED", Some(room)));
        } else {
          LeaveAgrees(s, room, me);
          NotifyMembersRefines(N.Leave(s, room, me), e, room,
            BLANK.(kind := LEFT_ROOM, roomname := Some(room), username := Some(me)), me);
        }
      }
    }
  }

  // ------------------------------------------------------------------------------ the server

  /** One message: the server with copies does what the server with names does, and its copies are
      again in step. */
  lemma ProcessAgrees(s: N.State, e: P.Env, m: Message, fd: int)
    requires P.Iterates(e) && N.Valid(s) && P.Dispatchable(m) && fd >= 0
    ensures Agree(P.Process(Copies(s), e, m, fd), N.Process(s, e, m, fd))
  {
    if m.kind == IDENTIFY {
      IdentifyAgrees(s, e, m, fd);
    } else if m.kind != UNKNOWN {
      FindHolder(s.users, fd);
      match N.Holder(s.users, fd)
      case None =>
        var refusal := P.Response("INVALID", "NOT_IDENTIFIED", None);
        SendAgrees(s, e, fd, refusal);
        CloseAgrees(s, e, fd);
        CloseAgrees(N.Send(s, e, fd, refusal).0, e, fd);
      case Some(me) => HandlerAgrees(s, e, m, me);
    }
  }

  lemma HandlerAgrees(s: N.State, e: P.Env, m: Message, me: string)
    requires P.Iterates(e) && N.Valid(s) && P.Dispatchable(m) && me in s.users
    requires m.kind != UNKNOWN && m.kind != IDENTIFY
    ensures Agree(P.Process(Copies(s), e, m, s.users[me].fd), N.Process(s, e, m, s.users[me].fd))
  {
    FindHolder(s.users, s.users[me].fd);
    match m.kind
    case DISCONNECT => DisconnectAgrees(s, e, me);
    case STATUS => SetStatusAgrees(s, e, m, me);
    case USERS => ListUsersAgrees(s, e, me);
    case TEXT => TextAgrees(s, e, m, me);
    case PUBLIC_TEXT => PublicTextAgrees(s, e, m, me);
    case NEW_ROOM => NewRoomAgrees(s, e, m, me);
    case INVITE => InviteAgrees(s, e, m, me);
    case JOIN_ROOM => JoinRoomAgrees(s, e, m, me);
    case ROOM_USERS => RoomUsersAgrees(s, e, m, me);
    case ROOM_TEXT => RoomTextAgrees(s, e, m, me);
    case LEAVE_ROOM => LeaveRoomAgrees(s, e, m, me);
    case _ =>
  }

  lemma RefuseAgrees(s: N.State, e: P.Env, fd: int)
    requires P.Iterates(e) && N.Valid(s) && fd >= 0
    ensures Agree(P.SendInvalidAndDisconnect(Copies(s), e, fd), N.Refuse(s, e, fd))
  {
    hide N.Expel;
    FindHolder(s.users, fd);
    match N.Holder(s.users, fd)
    case None =>
      var invalid := P.Response("INVALID", "INVALID", None);
      SendAgrees(s, e, fd, invalid);
      CloseAgrees(N.Send(s, e, fd, invalid).0, e, fd);
    case Some(me) => ExpelAgrees(s, e, me);
  }

  /** The same for every line a client can send. */
  lemma StepAgrees(s: N.State, e: P.Env, msg: Option<Message>, fd: int)
    requires P.Iterates(e) && N.Valid(s) && P.Handleable(msg) && fd >= 0
    ensures Agree(P.Step(Copies(s), e, msg, fd), N.Step(s, e, msg, fd))
  {
    hide Agree, Copies, P.Process, N.Process, P.SendInvalidAndDisconnect, N.Refuse;
    match msg
    case None => RefuseAgrees(s, e, fd);
    case Some(m) => ProcessAgrees(s, e, m, fd);
  }
}
