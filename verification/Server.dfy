/** The server as an object that its handlers update in place (message_handler.c, room_table.c).
    Every handler is proved to do to the state what `Protocol` says, for every environment. */
module Servers {
  import opened Base
  import opened Messages
  import opened UsersTables
  import opened Tables
  import T = UserTables
  import P = Protocol

  class Server {
    const store: Store
    var log: seq<P.Event>

    ghost function State(): P.State
      reads this, store
    {
      P.State(store.Users, store.Rooms, log)
    }

    /** Every descriptor in a table is one that was accepted, so that none can be taken for the -1
        that ends the arrays of failed descriptors. */
    static ghost predicate Accepted(users: T.Table, rooms: map<string, P.Room>) {
      && AcceptedIn(users)
      && (forall r :: r in rooms ==> AcceptedIn(rooms[r].members) && AcceptedIn(rooms[r].guests))
    }

    ghost predicate Valid()
      reads this, store, store.Repr
    {
      store.Valid() && this !in store.Repr && Accepted(store.Users, store.Rooms)
    }

    constructor ()
      ensures Valid() && fresh(store.Repr) && State() == P.START
    {
      store := new Store();
      log := [];
    }

    // ------------------------------------------------------------------------------ sending

    method Send(e: P.Env, fd: int, m: Message) returns (ok: bool)
      requires Valid()
      modifies this`log
      ensures Valid() && (State(), ok) == P.Send(old(State()), e, fd, m)
    {
      ok := e.delivers(|log|);
      log := log + [P.Sent(fd, m, ok)];
    }

    /** `server_disconnect_client`. */
    method Close(fd: int)
      requires Valid()
      modifies this`log
      ensures Valid() && State() == old(State()).(log := old(log) + [P.Closed(fd)])
    {
      log := log + [P.Closed(fd)];
    }

    // ------------------------------------------------------------------------------ reading

    /** `users_table_find_by_client_fd` on the users. */
    method FindByFd(fd: int) returns (r: Option<User>)
      requires Valid()
      ensures r == T.FindByFd(State().users, fd) && (r.Some? ==> r.value.fd >= 0)
    {
      r := store.FindByFd(store.users, Master, fd);
    }

    /** `users_table_find_by_username` on the users. */
    method FindByUsername(name: string) returns (r: Option<User>)
      requires Valid()
      ensures r == T.FindByName(State().users, name) && (r.Some? ==> r.value.fd >= 0)
    {
      r := store.FindByUsername(store.users, Master, name);
    }

    /** `room_table_contains`. */
    method HasRoom(room: string) returns (r: bool)
      requires Valid()
      ensures r <==> room in State().rooms
    {
      r := room in store.rooms;
    }

    /** `room_table_with` of `room_is_a_member`. */
    method IsMember(room: string, fd: int) returns (r: bool)
      requires Valid()
      ensures r <==> P.IsMember(State(), room, fd)
    {
      r := false;
      if room in store.rooms {
        var user := store.FindByFd(store.rooms[room].members, MembersOf(room), fd);
        r := user.Some?;
      }
    }

    /** `room_table_with` of `room_is_a_guest`. */
    method IsGuest(room: string, fd: int) returns (r: bool)
      requires Valid()
      ensures r <==> P.IsGuest(State(), room, fd)
    {
      r := false;
      if room in store.rooms {
        var user := store.FindByFd(store.rooms[room].guests, GuestsOf(room), fd);
        r := user.Some?;
      }
    }

    // ------------------------------------------------------------------------- every room

    /** `users_table_remove` on the users. */
    method RemoveUser(name: string)
      requires Valid()
      modifies store.Repr
      ensures Valid() && store.Repr == old(store.Repr) && State() == P.RemoveUser(old(State()), name)
    {
      hide T.Remove, AcceptedIn, Tables.Store.Valid;
      StillAccepted(name, 0, ACTIVE);
      store.RemoveAt(store.users, Master, name);
    }

    /** The room after `room_remove_data`. */
    static ghost function WithoutUser(room: P.Room, name: string): P.Room {
      P.Room(T.Remove(room.members, name).0, T.Remove(room.guests, name).0)
    }

    /** `room_remove_data` in one room. */
    method RemoveData(room: string, name: string)
      requires Valid() && room in State().rooms
      modifies store.Repr
      ensures Valid() && store.Repr == old(store.Repr)
      ensures var s := old(State());
              State() == s.(rooms := s.rooms[room := WithoutUser(s.rooms[room], name)])
    {
      hide T.Remove, Valid;
      RemoveGuest(room, name);
      RemoveMember(room, name);
    }

    /** `room_table_for_each` of `room_remove_data`; the order of the visits does not matter. */
    method RemoveFromRooms(name: string)
      requires Valid()
      modifies store.Repr
      ensures Valid() && store.Repr == old(store.Repr) && State() == P.RemoveFromRooms(old(State()), name)
    {
      var todo := store.rooms.Keys;
      ghost var were := State().rooms;
      assert todo == were.Keys;
      hide T.Remove, WithoutUser, Valid;
      while todo != {}
        invariant Valid() && store.Repr == old(store.Repr) && State() == old(State()).(rooms := State().rooms)
        invariant todo <= State().rooms.Keys == were.Keys
        invariant forall r :: r in were ==>
                    State().rooms[r] == if r in todo then were[r] else WithoutUser(were[r], name)
        decreases todo
      {
        var r :| r in todo;
        RemoveData(r, name);
        todo := todo - {r};
      }
      RoomsWithout(were, State().rooms, name);
    }

    static lemma RoomsWithout(were: map<string, P.Room>, rooms: map<string, P.Room>, name: string)
      requires rooms.Keys == were.Keys && forall r :: r in were ==> rooms[r] == WithoutUser(were[r], name)
      ensures forall s: P.State :: s.rooms == were ==> P.RemoveFromRooms(s, name) == s.(rooms := rooms)
    {
      hide T.Remove;
      forall s: P.State | s.rooms == were
        ensures P.RemoveFromRooms(s, name) == s.(rooms := rooms)
      {
        assert P.RemoveFromRooms(s, name).rooms == rooms;
      }
    }

    static lemma StillAccepted(name: string, fd: int, status: UserStatus)
      ensures forall t {:trigger T.Remove(t, name)} :: AcceptedIn(t) ==> AcceptedIn(T.Remove(t, name).0)
      ensures forall t {:trigger T.ChangeStatusByFd(t, fd, status)} ::
                AcceptedIn(t) ==> AcceptedIn(T.ChangeStatusByFd(t, fd, status).0)
    {
    }

    /** The room after `room_update_status`. */
    static ghost function WithStatus(room: P.Room, fd: int, status: UserStatus): P.Room {
      P.Room(T.ChangeStatusByFd(room.members, fd, status).0, T.ChangeStatusByFd(room.guests, fd, status).0)
    }

    /** `room_update_status` in one room. */
    method UpdateStatus(room: string, fd: int, status: UserStatus)
      requires Valid() && room in State().rooms
      modifies store.Repr
      ensures Valid() && store.Repr == old(store.Repr)
      ensures var s := old(State());
              State() == s.(rooms := s.rooms[room := WithStatus(s.rooms[room], fd, status)])
    {
      hide T.ChangeStatusByFd, Valid;
      ChangeMemberStatus(room, fd, status);
      ChangeGuestStatus(room, fd, status);
    }

    method ChangeMemberStatus(room: string, fd: int, status: UserStatus)
      requires Valid() && room in State().rooms
      modifies store.Repr
      ensures Valid() && store.Repr == old(store.Repr)
      ensures var s := old(State());
              State() == P.WithMembers(s, room, T.ChangeStatusByFd(s.rooms[room].members, fd, status).0)
    {
      HasRooms(room);
      hide T.ChangeStatusByFd, AcceptedIn, Tables.Store.Valid;
      StillAccepted("", fd, status);
      store.ChangeStatusAt(store.rooms[room].members, MembersOf(room), fd, status);
    }

    method ChangeGuestStatus(room: string, fd: int, status: UserStatus)
      requires Valid() && room in State().rooms
      modifies store.Repr
      ensures Valid() && store.Repr == old(store.Repr)
      ensures var s := old(State());
              State() == P.WithGuests(s, room, T.ChangeStatusByFd(s.rooms[room].guests, fd, status).0)
    {
      HasRooms(room);
      hide T.ChangeStatusByFd, AcceptedIn, Tables.Store.Valid;
      StillAccepted("", fd, status);
      store.ChangeStatusAt(store.rooms[room].guests, GuestsOf(room), fd, status);
    }

    /** `room_table_for_each` of `room_update_status`. */
    method ChangeStatusInRooms(fd: int, status: UserStatus)
      requires Valid()
      modifies store.Repr
      ensures Valid() && store.Repr == old(store.Repr) && State() == P.ChangeStatusInRooms(old(State()), fd, status)
    {
      var todo := store.rooms.Keys;
      ghost var were := State().rooms;
      assert todo == were.Keys;
      hide T.ChangeStatusByFd, WithStatus, Valid;
      while todo != {}
        invariant Valid() && store.Repr == old(store.Repr) && State() == old(State()).(rooms := State().rooms)
        invariant todo <= State().rooms.Keys == were.Keys
        invariant forall r :: r in were ==>
                    State().rooms[r] == if r in todo then were[r] else WithStatus(were[r], fd, status)
        decreases todo
      {
        var r :| r in todo;
        UpdateStatus(r, fd, status);
        todo := todo - {r};
      }
      RoomsWithStatus(were, State().rooms, fd, status);
    }

    static lemma RoomsWithStatus(were: map<string, P.Room>, rooms: map<string, P.Room>, fd: int, status: UserStatus)
      requires rooms.Keys == were.Keys && forall r :: r in were ==> rooms[r] == WithStatus(were[r], fd, status)
      ensures forall s: P.State :: s.rooms == were ==> P.ChangeStatusInRooms(s, fd, status) == s.(rooms := rooms)
    {
      hide T.ChangeStatusByFd;
      forall s: P.State | s.rooms == were
        ensures P.ChangeStatusInRooms(s, fd, status) == s.(rooms := rooms)
      {
        assert P.ChangeStatusInRooms(s, fd, status).rooms == rooms;
      }
    }

    // ------------------------------------------------------------------------- broadcasts

    /** The first `count` cells hold descriptors, and the others the -1 that ends a scan. */
    static ghost predicate Filled(cells: seq<int>, count: nat) {
      && count <= |cells|
      && (forall i :: 0 <= i < count ==> cells[i] >= 0)
      && (forall i :: count <= i < |cells| ==> cells[i] == -1)
    }

    /** `send_if_is_not_self`: one visit.  A descriptor that fails goes into the next cell. */
    method SendIfIsNotSelf(e: P.Env, user: User, m: Message, self: int, failed: array<int>, index: nat)
      returns (next: nat)
      requires user.fd >= 0 && index < failed.Length && Filled(failed[..], index)
      modifies this`log, failed
      ensures user.fd == self ==> next == index && log == old(log)
      ensures user.fd != self ==>
                var ok := e.delivers(|old(log)|);
                && log == old(log) + [P.Sent(user.fd, m, ok)]
                && next == (if ok then index else index + 1)
      ensures next <= index + 1 && Filled(failed[..], next)
      ensures next == index ==> failed[..next] == old(failed[..index])
      ensures next > index ==> failed[..next] == old(failed[..index]) + [user.fd]
    {
      next := index;
      if user.fd != self {
        var ok := e.delivers(|log|);
        log := log + [P.Sent(user.fd, m, ok)];
        if !ok {
          failed[next] := user.fd;
          next := next + 1;
        }
      }
    }

    /** What a broadcast is still to send, behind what has failed so far. */
    static ghost function ToCome(log: seq<P.Event>, e: P.Env, m: Message, users: map<string, User>, names: seq<string>,
                                 self: int, done: seq<int>): (seq<P.Event>, seq<int>) {
      Continue(P.SendEach(log, e, P.Recipients(users, names, self), m), done)
    }

    /** The visit of the `i`-th entry of an iteration. */
    method VisitUser(e: P.Env, users: UsersTable, names: seq<string>, i: nat, m: Message, self: int,
                     failed: array<int>, index: nat)
      returns (next: nat)
      requires users.Valid() && this !in users.Repr && failed !in users.Repr && AcceptedIn(users.Contents)
      requires i < |names| && names[i] in users.Contents.byName && index < failed.Length && Filled(failed[..], index)
      modifies this`log, failed
      ensures users.Valid() && users.Contents == old(users.Contents)
      ensures next <= index + 1 && Filled(failed[..], next)
      ensures next <= failed.Length
      ensures ToCome(log, e, m, users.Contents.byName, names[i + 1..], self, failed[..next])
              == old(ToCome(log, e, m, users.Contents.byName, names[i..], self, failed[..index]))
    {
      Visit(log, e, m, users.Contents.byName, names, i, self, failed[..index]);
      hide UsersTables.UsersTable.Valid, Filled, Continue, P.SendEach, P.Recipients;
      var user := users.FindByUsername(names[i]);
      next := SendIfIsNotSelf(e, user.value, m, self, failed, index);
    }

    /** The first half of `notify_all_but_self`: one send for each visited user other than the caller.
        The array has one cell more than the table has users; `count` cells hold the descriptors that
        failed, and the cells after them, of which there is at least one, keep the -1 that ends the
        second half. */
    method SendToOthers(e: P.Env, users: UsersTable, m: Message, self: int)
      returns (failed: array<int>, ghost count: nat)
      requires P.Iterates(e) && users.Valid() && this !in users.Repr && AcceptedIn(users.Contents)
      modifies this`log
      ensures fresh(failed) && failed.Length == |users.Contents.byName| + 1
      ensures count < failed.Length && Filled(failed[..], count)
      ensures (log, failed[..count]) == P.SendEach(old(log), e,
                P.Recipients(users.Contents.byName, e.order(|old(log)|, users.Contents.byName.Keys), self), m)
    {
      hide UsersTables.UsersTable.Valid, ToCome, P.Iterates, Filled, NoDuplicates, AcceptedIn;
      ghost var table := users.Contents.byName;
      var keys := users.Usernames();
      failed := NewArray(|keys|);
      var index := 0;
      var names := e.order(|log|, keys);
      VisitsEach(e, |log|, table);
      Begin(log, e, m, table, names, self);
      for i := 0 to |names|
        invariant 0 <= index <= i && fresh(failed) && Filled(failed[..], index)
        invariant users.Valid() && users.Contents == old(users.Contents)
        invariant ToCome(log, e, m, table, names[i..], self, failed[..index])
                  == P.SendEach(old(log), e, P.Recipients(table, names, self), m)
      {
        assert names[i] in names;
        index := VisitUser(e, users, names, i, m, self, failed, index);
      }
      count := index;
      End(log, e, m, table, names, self, failed[..count]);
    }

    /** The array of failed descriptors, with one cell more than there are users. */
    method NewArray(size: nat) returns (failed: array<int>)
      ensures fresh(failed) && failed.Length == size + 1 && Filled(failed[..], 0) && failed[..0] == []
    {
      failed := new int[size + 1](_ => -1);
    }

    static lemma Begin(log: seq<P.Event>, e: P.Env, m: Message, users: map<string, User>, names: seq<string>, self: int)
      ensures ToCome(log, e, m, users, names[0..], self, []) == P.SendEach(log, e, P.Recipients(users, names, self), m)
    {
      assert names[0..] == names;
      Continued(P.SendEach(log, e, P.Recipients(users, names, self), m), [], []);
    }

    static lemma End(
      log: seq<P.Event>, e: P.Env, m: Message, users: map<string, User>, names: seq<string>, self: int, done: seq<int>)
      ensures ToCome(log, e, m, users, names[|names|..], self, done) == (log, done)
    {
      assert names[|names|..] == [] && done + [] == done;
    }

    /** One visit moves one send, if the user is another one, from what is to come to what is done. */
    static lemma Visit(log: seq<P.Event>, e: P.Env, m: Message, users: map<string, User>, names: seq<string>, i: nat,
                       self: int, done: seq<int>)
      requires i < |names| && names[i] in users
      ensures var fd := users[names[i]].fd;
              var rest := P.Recipients(users, names[i + 1..], self);
              var ok := e.delivers(|log|);
              Continue(P.SendEach(log, e, P.Recipients(users, names[i..], self), m), done)
              == if fd == self then Continue(P.SendEach(log, e, rest, m), done)
                 else if ok then Continue(P.SendEach(log + [P.Sent(fd, m, ok)], e, rest, m), done)
                 else Continue(P.SendEach(log + [P.Sent(fd, m, ok)], e, rest, m), done + [fd])
    {
      assert done + [] == done;
      NextRecipient(log, e, m, users, names, i, self);
      var fd := users[names[i]].fd;
      var ok := e.delivers(|log|);
      var rest := P.SendEach(log + [P.Sent(fd, m, ok)], e, P.Recipients(users, names[i + 1..], self), m);
      Continued(rest, done, if ok then [] else [fd]);
    }

    static lemma Continued(rest: (seq<P.Event>, seq<int>), a: seq<int>, b: seq<int>)
      ensures Continue(rest, []) == rest
      ensures Continue(Continue(rest, b), a) == Continue(rest, a + b)
    {
      assert [] + rest.1 == rest.1;
      assert a + (b + rest.1) == a + b + rest.1;
    }

    /** One visit of an iteration. */
    static lemma NextRecipient(
      log: seq<P.Event>, e: P.Env, m: Message, users: map<string, User>, names: seq<string>, i: nat, self: int)
      requires i < |names| && names[i] in users
      ensures var now := P.SendEach(log, e, P.Recipients(users, names[i..], self), m);
              var fd := users[names[i]].fd;
              var rest := P.Recipients(users, names[i + 1..], self);
              var ok := e.delivers(|log|);
              now == if fd == self then P.SendEach(log, e, rest, m)
                     else Continue(P.SendEach(log + [P.Sent(fd, m, ok)], e, rest, m), if ok then [] else [fd])
    {
      assert names[i..][1..] == names[i + 1..];
      var fd := users[names[i]].fd;
      var rest := P.Recipients(users, names[i + 1..], self);
      if fd == self {
        assert [] + rest == rest;
      } else {
        assert ([fd] + rest)[1..] == rest;
      }
    }

    static ghost predicate AcceptedIn(t: T.Table) {
      forall n :: n in t.byName ==> t.byName[n].fd >= 0
    }

    static ghost function Continue(rest: (seq<P.Event>, seq<int>), failed: seq<int>): (seq<P.Event>, seq<int>) {
      (rest.0, failed + rest.1)
    }

    /** A visit has as many steps as the table has users. */
    static lemma VisitsEach(e: P.Env, k: nat, users: map<string, User>)
      requires P.Iterates(e)
      ensures var names := e.order(k, users.Keys);
              |names| == |users| && forall n :: n in names ==> n in users
    {
      var names := e.order(k, users.Keys);
      DistinctCount(names);
      assert (set n | n in names) == users.Keys;
    }

    static lemma {:induction false} DistinctCount(names: seq<string>)
      requires NoDuplicates(names)
      ensures |set n | n in names| == |names|
    {
      if names != [] {
        DistinctCount(names[1..]);
        assert names[0] !in names[1..];
        assert (set n | n in names) == {names[0]} + (set n | n in names[1..]);
      }
    }

    /** `notify_all_but_self` on the master table. */
    method NotifyUsers(e: P.Env, m: Message, self: int)
      requires P.Iterates(e) && Valid()
      modifies this, store.Repr
      ensures Valid() && store.Repr == old(store.Repr) && State() == P.NotifyUsers(old(State()), e, m, self)
    {
      var failed, count := SendToUsers(e, m, self);
      ghost var fds := failed[..count];
      ghost var sent := State();
      hide P.Iterates, P.RemoveFromRooms, P.RemoveUser, P.SendEach, P.Recipients, Valid, Filled;
      var i := 0;
      Within(failed[..], count, 0);
      while failed[i] != -1
        invariant i <= count < failed.Length && failed[..count] == fds && Filled(failed[..], count)
        invariant Valid() && store.Repr == old(store.Repr) && failed !in store.Repr
        invariant P.PurgeUsers(State(), fds[i..]) == P.PurgeUsers(sent, fds)
        decreases count - i
      {
        Scan(failed[..], count, fds, i);
        var user := FindByFd(failed[i]);
        if user.Some? {
          RemoveFromRooms(user.value.name);
          RemoveUser(user.value.name);
        }
        i := i + 1;
      }
      ScanEnds(failed[..], count, i);
      assert fds[i..] == [];
    }

    /** The scan is at the first descriptor of those that are left. */
    static lemma Scan(cells: seq<int>, count: nat, fds: seq<int>, i: nat)
      requires Filled(cells, count) && fds == cells[..count] && i <= count && i < |cells| && cells[i] != -1
      ensures i < count && fds[i..] != [] && fds[i..][0] == cells[i] && fds[i..][1..] == fds[i + 1..]
    {
    }

    static lemma ScanEnds(cells: seq<int>, count: nat, i: nat)
      requires Filled(cells, count) && i <= count && i < |cells| && cells[i] == -1
      ensures i == count
    {
    }

    static lemma Within(cells: seq<int>, count: nat, i: nat)
      requires Filled(cells, count) && count < |cells| && i <= count
      ensures i < |cells|
    {
    }

    method SendToUsers(e: P.Env, m: Message, self: int) returns (failed: array<int>, ghost count: nat)
      requires P.Iterates(e) && Valid()
      modifies this`log
      ensures Valid() && fresh(failed) && failed !in store.Repr
      ensures count < failed.Length && Filled(failed[..], count)
      ensures var s := old(State());
              && State() == s.(log := log)
              && (log, failed[..count]) == P.SendEach(s.log, e,
                   P.Recipients(s.users.byName, e.order(|s.log|, s.users.byName.Keys), self), m)
    {
      assert store.Right(Master) && store.Owned(Master);
      hide P.SendEach, P.Recipients, P.Iterates, Filled, UsersTables.UsersTable.Valid;
      failed, count := SendToOthers(e, store.users, m, self);
    }

    method SendToMembers(e: P.Env, room: string, m: Message, self: int) returns (failed: array<int>, ghost count: nat)
      requires P.Iterates(e) && Valid() && room in store.rooms
      modifies this`log
      ensures Valid() && fresh(failed) && failed !in store.Repr && room in State().rooms
      ensures count < failed.Length && Filled(failed[..], count)
      ensures var s := old(State());
              && State() == s.(log := log) && room in s.rooms
              && (log, failed[..count]) == P.SendEach(s.log, e, P.Recipients(s.rooms[room].members.byName,
                   e.order(|s.log|, s.rooms[room].members.byName.Keys), self), m)
    {
      assert store.Right(MembersOf(room)) && store.Owned(MembersOf(room));
      hide P.SendEach, P.Recipients, P.Iterates, Filled, UsersTables.UsersTable.Valid;
      failed, count := SendToOthers(e, store.rooms[room].members, m, self);
    }

    /** `notify_all_but_self` on the members of a room. */
    method NotifyMembers(e: P.Env, room: string, m: Message, self: int)
      requires P.Iterates(e) && Valid()
      modifies this, store.Repr
      ensures Valid() && store.Repr == old(store.Repr) && State() == P.NotifyMembers(old(State()), e, room, m, self)
    {
      var there := HasRoom(room);
      if !there {
        return;
      }
      var failed, count := SendToMembers(e, room, m, self);
      ghost var fds := failed[..count];
      ghost var sent := State();
      hide P.Iterates, P.SendEach, P.Recipients, P.RemoveFromRooms, Valid, Filled;
      var i := 0;
      Within(failed[..], count, 0);
      while failed[i] != -1
        invariant i <= count < failed.Length && failed[..count] == fds && Filled(failed[..], count)
        invariant Valid() && store.Repr == old(store.Repr) && failed !in store.Repr
        invariant room in State().rooms
        invariant P.PurgeMembers(State(), room, fds[i..]) == P.PurgeMembers(sent, room, fds)
        decreases count - i
      {
        Scan(failed[..], count, fds, i);
        var user := FindMember(room, failed[i]);
        if user.Some? {
          PurgeMember(room, user.value.name);
        }
        i := i + 1;
      }
      ScanEnds(failed[..], count, i);
      assert fds[i..] == [];
    }

    method FindMember(room: string, fd: int) returns (r: Option<User>)
      requires Valid() && room in State().rooms
      ensures r == T.FindByFd(State().rooms[room].members, fd)
    {
      r := store.FindByFd(store.rooms[room].members, MembersOf(room), fd);
    }

    /** `users_table_remove` on the members of a room. */
    method RemoveMember(room: string, name: string)
      requires Valid() && room in State().rooms
      modifies store.Repr
      ensures Valid() && store.Repr == old(store.Repr)
      ensures var s := old(State());
              State() == P.WithMembers(s, room, T.Remove(s.rooms[room].members, name).0)
    {
      HasRooms(room);
      hide T.Remove, AcceptedIn, Tables.Store.Valid;
      StillAccepted(name, 0, ACTIVE);
      store.RemoveAt(store.rooms[room].members, MembersOf(room), name);
    }

    /** One turn of the second loop of `notify_all_but_self` on the members of a room. */
    method PurgeMember(room: string, name: string)
      requires Valid() && room in State().rooms
      modifies store.Repr
      ensures Valid() && store.Repr == old(store.Repr) && room in State().rooms
      ensures room in P.RemoveFromRooms(old(State()), name).rooms
      ensures var s := P.RemoveFromRooms(old(State()), name);
              State() == P.WithMembers(s, room, T.Remove(s.rooms[room].members, name).0)
    {
      hide Valid, T.Remove;
      RemoveFromRooms(name);
      RemoveMember(room, name);
    }

    // ------------------------------------------------------------------------ disconnecting

    method Disconnect(e: P.Env, fd: int) returns (ok: bool)
      requires P.Iterates(e) && Valid()
      modifies this, store.Repr
      ensures Valid() && fresh(store.Repr - old(store.Repr))
      ensures (State(), ok) == P.Disconnect(old(State()), e, fd)
    {
      hide Valid, P.Iterates;
      var user := FindByFd(fd);
      if user.Some? {
        NotifyUsers(e, BLANK.(kind := DISCONNECTED, username := Some(user.value.name)), fd);
        RemoveFromRooms(user.value.name);
        RemoveUser(user.value.name);
      }
      Close(fd);
      return true;
    }

    method SendInvalidAndDisconnect(e: P.Env, fd: int) returns (ok: bool)
      requires P.Iterates(e) && Valid()
      modifies this, store.Repr
      ensures Valid() && fresh(store.Repr - old(store.Repr))
      ensures (State(), ok) == P.SendInvalidAndDisconnect(old(State()), e, fd)
    {
      hide Valid, P.Iterates;
      var _ := Send(e, fd, P.Response("INVALID", "INVALID", None));
      ok := Disconnect(e, fd);
    }

    /** What the handlers do with a reply: send it, and disconnect the client if that fails. */
    method Reply(e: P.Env, fd: int, m: Message) returns (ok: bool)
      requires P.Iterates(e) && Valid()
      modifies this, store.Repr
      ensures Valid() && fresh(store.Repr - old(store.Repr))
      ensures (State(), ok) == P.Reply(old(State()), e, fd, m)
    {
      hide Valid, P.Iterates;
      ok := Send(e, fd, m);
      if !ok {
        ok := Disconnect(e, fd);
      }
    }

    // ------------------------------------------------------------------------------ users

    /** `users_table_add` on the users. */
    method AddUser(name: string, fd: int) returns (added: bool)
      requires Valid() && fd >= 0
      modifies store.Repr
      ensures Valid() && fresh(store.Repr - old(store.Repr))
      ensures var (users, ok) := T.Add(old(State()).users, name, fd);
              State() == old(State()).(users := users) && added == ok
    {
      hide T.AddWithStatus, AcceptedIn, Tables.Store.Valid;
      AddedAccepted(store.Users, User(name, fd, ACTIVE));
      added := store.AddAt(store.users, Master, name, fd, ACTIVE);
    }

    /** `users_table_change_status_by_client_fd` on the users. */
    method ChangeUserStatus(fd: int, status: UserStatus)
      requires Valid()
      modifies store.Repr
      ensures Valid() && store.Repr == old(store.Repr)
      ensures State() == old(State()).(users := T.ChangeStatusByFd(old(State()).users, fd, status).0)
    {
      hide T.ChangeStatusByFd, AcceptedIn, Tables.Store.Valid;
      StillAccepted("", fd, status);
      store.ChangeStatusAt(store.users, Master, fd, status);
    }

    method Identify(e: P.Env, m: Message, fd: int) returns (ok: bool)
      requires P.Iterates(e) && Valid() && fd >= 0
      modifies this, store.Repr
      ensures Valid() && fresh(store.Repr - old(store.Repr))
      ensures (State(), ok) == P.Identify(old(State()), e, m, fd)
    {
      hide Valid, P.Iterates;
      if m.username.None? {
        return false;
      }
      var name := Truncate(m.username.value, USERNAME_MAX);
      var user := FindByFd(fd);
      if user.Some? {
        if user.value.name != name {
          ok := SendInvalidAndDisconnect(e, fd);
          return;
        }
        return true;
      }
      user := FindByUsername(name);
      if user.Some? {
        if user.value.fd != fd {
          var _ := Send(e, fd, P.Response("IDENTIFY", "USER_ALREADY_EXISTS", Some(name)));
          var _ := Disconnect(e, fd);
        }
        return true;
      }
      var added := AddUser(name, fd);
      if !added {
        return false;
      }
      var sent := Send(e, fd, P.Response("IDENTIFY", "SUCCESS", Some(name)));
      if !sent {
        ok := Disconnect(e, fd);
        return;
      }
      NotifyUsers(e, BLANK.(kind := NEW_USER, username := Some(name)), fd);
      return true;
    }

    method SetStatus(e: P.Env, m: Message, fd: int) returns (ok: bool)
      requires P.Iterates(e) && Valid()
      modifies this, store.Repr
      ensures Valid() && fresh(store.Repr - old(store.Repr))
      ensures (State(), ok) == P.SetStatus(old(State()), e, m, fd)
    {
      hide Valid, P.Iterates;
      if m.status.None? {
        return false;
      }
      var status := ParseStatus(m.status.value);
      if status.None? {
        ok := SendInvalidAndDisconnect(e, fd);
        return;
      }
      var user := FindByFd(fd);
      if user.Some? && user.value.status != status.value {
        ChangeUserStatus(fd, status.value);
        ChangeStatusInRooms(user.value.fd, status.value);
        NotifyUsers(e, BLANK.(kind := NEW_STATUS, username := Some(user.value.name), status := m.status), fd);
      }
      return true;
    }

    /** The loop that lists a table as a JSON object. */
    method ListTable(e: P.Env, users: UsersTable) returns (list: Json)
      requires P.Iterates(e) && users.Valid()
      ensures list == P.UsersObject(users.Contents.byName, e.order(|log|, users.Contents.byName.Keys))
    {
      hide UsersTables.UsersTable.Valid;
      ghost var table := users.Contents.byName;
      var keys := users.Usernames();
      var names := e.order(|log|, keys);
      var fields: seq<Field> := [];
      for i := 0 to |names|
        invariant fields + P.UserFields(table, names[i..]) == P.UserFields(table, names)
      {
        assert names[i] in names && names[i..][1..] == names[i + 1..];
        var user := users.FindByUsername(names[i]);
        fields := fields + [Field(names[i], JString(StatusName(user.value.status)))];
      }
      assert names[|names|..] == [];
      list := JObject(fields);
    }

    /** `room_table_with` of `room_users`. */
    method ListMembers(e: P.Env, room: string) returns (list: Json)
      requires P.Iterates(e) && Valid() && room in State().rooms
      ensures var members := State().rooms[room].members.byName;
              list == P.UsersObject(members, e.order(|State().log|, members.Keys))
    {
      assert store.Right(MembersOf(room));
      list := ListTable(e, store.rooms[room].members);
    }

    method ListUsers(e: P.Env, fd: int) returns (ok: bool)
      requires P.Iterates(e) && Valid()
      modifies this, store.Repr
      ensures Valid() && fresh(store.Repr - old(store.Repr))
      ensures (State(), ok) == P.ListUsers(old(State()), e, fd)
    {
      assert store.Right(Master);
      var list := ListTable(e, store.users);
      ok := Reply(e, fd, BLANK.(kind := USER_LIST, users := Some(list)));
    }

    method Text(e: P.Env, m: Message, fd: int) returns (ok: bool)
      requires P.Iterates(e) && Valid() && m.username.Some? && m.text.Some?
      modifies this, store.Repr
      ensures Valid() && fresh(store.Repr - old(store.Repr))
      ensures (State(), ok) == P.Text(old(State()), e, m, fd)
    {
      hide Valid, P.Iterates;
      var to := FindByUsername(m.username.value);
      if to.None? {
        ok := Reply(e, fd, P.Response("TEXT", "NO_SUCH_USER", m.username));
        return;
      }
      var from := FindByFd(fd);
      if from.Some? && to.value.name == from.value.name {
        return true;
      }
      if from.None? {
        return false;
      }
      ok := Send(e, to.value.fd, BLANK.(kind := TEXT_FROM, username := Some(from.value.name), text := m.text));
      if !ok {
        ok := Disconnect(e, fd);
      }
    }

    method PublicText(e: P.Env, m: Message, fd: int) returns (ok: bool)
      requires P.Iterates(e) && Valid() && m.text.Some?
      modifies this, store.Repr
      ensures Valid() && fresh(store.Repr - old(store.Repr))
      ensures (State(), ok) == P.PublicText(old(State()), e, m, fd)
    {
      hide Valid, P.Iterates;
      var from := FindByFd(fd);
      if from.None? {
        return false;
      }
      NotifyUsers(e, BLANK.(kind := PUBLIC_TEXT_FROM, username := Some(from.value.name), text := m.text), fd);
      return true;
    }

    // ------------------------------------------------------------------------------ rooms

    /** `room_table_add`. */
    method AddRoom(room: string) returns (ok: bool)
      requires Valid()
      modifies store.Repr
      ensures Valid() && fresh(store.Repr - old(store.Repr))
      ensures ok == (RoomnameOk(room) && room !in old(State()).rooms)
      ensures State() == if ok then old(State()).(rooms := old(State()).rooms[room := P.Room(T.EMPTY, T.EMPTY)])
              else old(State())
    {
      ok := RoomnameOk(room) && room !in store.rooms;
      if ok {
        hide Tables.Store.Valid;
        store.AddRoom(room);
      }
    }

    /** `users_table_add_with_status` on the members of a room. */
    method AddMember(room: string, u: User)
      requires Valid() && room in State().rooms && u.fd >= 0
      modifies store.Repr
      ensures Valid() && fresh(store.Repr - old(store.Repr))
      ensures var s := old(State());
              State() == P.WithMembers(s, room, T.AddWithStatus(s.rooms[room].members, u.name, u.fd, u.status).0)
    {
      hide T.AddWithStatus, AcceptedIn, Tables.Store.Valid;
      AddedAccepted(store.Rooms[room].members, u);
      HasRooms(room);
      var _ := store.AddAt(store.rooms[room].members, MembersOf(room), u.name, u.fd, u.status);
    }

    lemma HasRooms(room: string)
      requires Valid()
      ensures room in State().rooms <==> room in store.rooms
    {
    }

    method NewRoom(e: P.Env, m: Message, fd: int) returns (ok: bool)
      requires P.Iterates(e) && Valid()
      modifies this, store.Repr
      ensures Valid() && fresh(store.Repr - old(store.Repr))
      ensures (State(), ok) == P.NewRoom(old(State()), e, m, fd)
    {
      hide Valid, P.Iterates;
      if m.roomname.None? {
        return false;
      }
      var room := Truncate(m.roomname.value, ROOMNAME_MAX);
      var there := HasRoom(m.roomname.value);
      if there {
        ok := Reply(e, fd, P.Response("NEW_ROOM", "ROOM_ALREADY_EXISTS", Some(room)));
        return;
      }
      var added := AddRoom(room);
      if !added {
        return false;
      }
      var creator := FindByFd(fd);
      if creator.None? {
        return false;
      }
      AddMember(room, creator.value);
      ok := Reply(e, fd, P.Response("NEW_ROOM", "SUCCESS", Some(room)));
    }

    /** `room_table_with` of `room_add_to_guests`. */
    method AddGuest(room: string, u: User)
      requires Valid() && u.fd >= 0
      modifies store.Repr
      ensures Valid() && fresh(store.Repr - old(store.Repr)) && State() == P.AddGuest(old(State()), room, u)
    {
      HasRooms(room);
      if room in store.rooms {
        hide T.AddWithStatus, AcceptedIn, Tables.Store.Valid;
        AddedAccepted(store.Rooms[room].guests, u);
        var _ := store.AddAt(store.rooms[room].guests, GuestsOf(room), u.name, u.fd, u.status);
      }
    }

    /** The second loop of `process_invite`, over the copies that the first loop collected. */
    method InviteEach(e: P.Env, room: string, invitation: Message, invited: array<User>) returns (ok: bool)
      requires P.Iterates(e) && Valid() && forall i :: 0 <= i < invited.Length ==> invited[i].fd >= 0
      requires invited !in store.Repr
      modifies this, store.Repr
      ensures Valid() && fresh(store.Repr - old(store.Repr))
      ensures (State(), ok) == P.InviteEach(old(State()), e, room, invitation, invited[..])
    {
      hide P.Iterates, P.Disconnect, P.IsMember, P.IsGuest, P.AddGuest, Valid;
      var i := 0;
      while i < invited.Length
        invariant i <= invited.Length && Valid() && invited[..] == old(invited[..])
        invariant fresh(store.Repr - old(store.Repr)) && invited !in store.Repr
        invariant P.InviteEach(State(), e, room, invitation, invited[i..])
                  == P.InviteEach(old(State()), e, room, invitation, invited[..])
      {
        assert invited[i..][0] == invited[i] && invited[i..][1..] == invited[i + 1..];
        var u := invited[i];
        var inside := IsMember(room, u.fd);
        var known := IsGuest(room, u.fd);
        if inside || known {
          return true;
        }
        AddGuest(room, u);
        var sent := Send(e, u.fd, invitation);
        if !sent {
          ok := Disconnect(e, u.fd);
          return;
        }
        i := i + 1;
      }
      return true;
    }

    method Invite(e: P.Env, m: Message, fd: int) returns (ok: bool)
      requires P.Iterates(e) && Valid() && (m.usernames.Some? ==> NoNullElements(m.usernames.value))
      modifies this, store.Repr
      ensures Valid() && fresh(store.Repr - old(store.Repr))
      ensures (State(), ok) == P.Invite(old(State()), e, m, fd)
    {
      hide Valid, P.Iterates;
      if m.roomname.None? || m.usernames.None? {
        return false;
      }
      var room := m.roomname.value;
      var there := HasRoom(room);
      if !there {
        ok := Reply(e, fd, P.Response("INVITE", "NO_SUCH_ROOM", Some(room)));
        return;
      }
      var from := FindByFd(fd);
      if from.None? {
        ok := SendInvalidAndDisconnect(e, fd);
        return;
      }
      var inside := IsMember(room, from.value.fd);
      if !inside {
        ok := SendInvalidAndDisconnect(e, fd);
        return;
      }
      var missing, invited := LookUpAll(P.Values(m.usernames.value));
      if missing.Some? {
        ok := Reply(e, fd, P.Response("INVITE", "NO_SUCH_USER", missing));
        return;
      }
      var invitation := BLANK.(kind := INVITATION, username := Some(from.value.name), roomname := Some(room));
      ok := InviteEach(e, room, invitation, invited);
    }

    /** The first loop of `process_invite`: fills an array with copies of the listed users, up to the
        first who is unknown. */
    method LookUpAll(names: seq<string>) returns (missing: Option<string>, invited: array<User>)
      requires Valid()
      ensures fresh(invited) && forall i :: 0 <= i < invited.Length ==> invited[i].fd >= 0
      ensures P.LookUpAll(State().users, names)
              == if missing.Some? then P.Missing(missing.value) else P.Known(invited[..])
    {
      invited := new User[|names|](_ => User("", 0, ACTIVE));
      var i := 0;
      ghost var users := State().users;
      LookUpStarts(users, names);
      assert invited[..0] == [];
      hide P.LookUpAll, Found;
      while i < |names|
        invariant i <= |names| && forall j :: 0 <= j < invited.Length ==> invited[j].fd >= 0
        invariant P.LookUpAll(users, names) == Found(invited[..i], P.LookUpAll(users, names[i..]))
      {
        LookUpStep(users, names, i, invited[..i]);
        var user := FindByUsername(names[i]);
        if user.None? {
          return Some(names[i]), invited;
        }
        ghost var found := invited[..i];
        invited[i] := user.value;
        i := i + 1;
        assert invited[..i] == found + [user.value];
      }
      LookUpEnds(users, names, invited[..]);
      assert invited[..i] == invited[..];
      missing := None;
    }

    static lemma LookUpStarts(users: T.Table, names: seq<string>)
      ensures P.LookUpAll(users, names) == Found([], P.LookUpAll(users, names[0..]))
    {
    }

    static lemma LookUpEnds(users: T.Table, names: seq<string>, found: seq<User>)
      ensures Found(found, P.LookUpAll(users, names[|names|..])) == P.Known(found)
    {
    }

    static lemma LookUpStep(users: T.Table, names: seq<string>, i: nat, found: seq<User>)
      requires i < |names|
      ensures Found(found, P.LookUpAll(users, names[i..]))
              == match T.FindByName(users, names[i]) {
                   case None => P.Missing(names[i])
                   case Some(u) => Found(found + [u], P.LookUpAll(users, names[i + 1..]))
                 }
    {
    }

    /** What a look-up finds whose first part has found `users`. */
    static function Found(users: seq<User>, rest: P.Lookup): P.Lookup {
      match rest
      case Missing(n) => P.Missing(n)
      case Known(us) => P.Known(users + us)
    }

    /** `room_table_with` of `room_from_guest_to_member`. */
    method GuestToMember(room: string, u: User)
      requires Valid() && room in State().rooms && u.fd >= 0
      modifies store.Repr
      ensures Valid() && fresh(store.Repr - old(store.Repr)) && State() == P.GuestToMember(old(State()), room, u)
    {
      hide Valid, T.Remove, T.AddWithStatus;
      RemoveGuest(room, u.name);
      AddMember(room, u);
    }

    /** `users_table_remove` on the guests of a room. */
    method RemoveGuest(room: string, name: string)
      requires Valid() && room in State().rooms
      modifies store.Repr
      ensures Valid() && store.Repr == old(store.Repr)
      ensures var s := old(State());
              State() == P.WithGuests(s, room, T.Remove(s.rooms[room].guests, name).0)
    {
      HasRooms(room);
      hide T.Remove, AcceptedIn, Tables.Store.Valid;
      StillAccepted(name, 0, ACTIVE);
      store.RemoveAt(store.rooms[room].guests, GuestsOf(room), name);
    }

    static lemma AddedAccepted(t: T.Table, u: User)
      requires AcceptedIn(t) && u.fd >= 0
      ensures AcceptedIn(T.AddWithStatus(t, u.name, u.fd, u.status).0)
    {
    }

    method JoinRoom(e: P.Env, m: Message, fd: int) returns (ok: bool)
      requires P.Iterates(e) && Valid()
      modifies this, store.Repr
      ensures Valid() && fresh(store.Repr - old(store.Repr))
      ensures (State(), ok) == P.JoinRoom(old(State()), e, m, fd)
    {
      hide Valid, P.Iterates;
      if m.roomname.None? {
        return false;
      }
      var room := m.roomname.value;
      var there := HasRoom(room);
      if !there {
        ok := Reply(e, fd, P.Response("JOIN_ROOM", "NO_SUCH_ROOM", Some(room)));
        return;
      }
      var from := FindByFd(fd);
      if from.None? {
        ok := SendInvalidAndDisconnect(e, fd);
        return;
      }
      var u := from.value;
      var inside := IsMember(room, u.fd);
      if inside {
        return true;
      }
      var invited := IsGuest(room, u.fd);
      if !invited {
        ok := Reply(e, fd, P.Response("JOIN_ROOM", "NOT_INVITED", Some(room)));
        return;
      }
      GuestToMember(room, u);
      ok := Send(e, fd, P.Response("JOIN_ROOM", "SUCCESS", Some(room)));
      if !ok {
        ok := Disconnect(e, fd);
        return;
      }
      NotifyMembers(e, room, BLANK.(kind := JOINED_ROOM, roomname := Some(room), username := Some(u.name)), fd);
    }

    method RoomUsers(e: P.Env, m: Message, fd: int) returns (ok: bool)
      requires P.Iterates(e) && Valid()
      modifies this, store.Repr
      ensures Valid() && fresh(store.Repr - old(store.Repr))
      ensures (State(), ok) == P.RoomUsers(old(State()), e, m, fd)
    {
      hide Valid, P.Iterates;
      if m.roomname.None? {
        return false;
      }
      var room := m.roomname.value;
      var there := HasRoom(room);
      if !there {
        ok := Reply(e, fd, P.Response("ROOM_USERS", "NO_SUCH_ROOM", Some(room)));
        return;
      }
      var from := FindByFd(fd);
      if from.None? {
        ok := SendInvalidAndDisconnect(e, fd);
        return;
      }
      var inside := IsMember(room, from.value.fd);
      if !inside {
        ok := Reply(e, fd, P.Response("ROOM_USERS", "NOT_JOINED", Some(room)));
        return;
      }
      var list := ListMembers(e, room);
      ok := Reply(e, fd, BLANK.(kind := ROOM_USER_LIST, roomname := Some(room), users := Some(list)));
    }

    method RoomText(e: P.Env, m: Message, fd: int) returns (ok: bool)
      requires P.Iterates(e) && Valid()
      modifies this, store.Repr
      ensures Valid() && fresh(store.Repr - old(store.Repr))
      ensures (State(), ok) == P.RoomText(old(State()), e, m, fd)
    {
      hide Valid, P.Iterates;
      if m.roomname.None? || m.text.None? {
        return false;
      }
      var room := m.roomname.value;
      var there := HasRoom(room);
      if !there {
        ok := Reply(e, fd, P.Response("ROOM_TEXT", "NO_SUCH_ROOM", Some(room)));
        return;
      }
      var from := FindByFd(fd);
      if from.None? {
        ok := SendInvalidAndDisconnect(e, fd);
        return;
      }
      var inside := IsMember(room, from.value.fd);
      if !inside {
        ok := Reply(e, fd, P.Response("ROOM_TEXT", "NOT_JOINED", Some(room)));
        return;
      }
      NotifyMembers(e, room, BLANK.(kind := ROOM_TEXT_FROM, roomname := Some(room),
                                    username := Some(from.value.name), text := m.text), fd);
      return true;
    }

    /** `room_leave`, and the removal of a room that has become empty. */
    method Leave(room: string, u: User)
      requires Valid() && room in State().rooms
      modifies store.Repr
      ensures Valid() && store.Repr == old(store.Repr) && State() == P.Leave(old(State()), room, u)
    {
      hide Valid, T.Remove;
      RemoveMember(room, u.name);
      var empty := IsEmpty(room);
      if empty {
        DropRoom(room);
      }
      EmptiedRoomGone(old(State()), room, T.Remove(old(State()).rooms[room].members, u.name).0);
    }

    /** `room_table_remove`. */
    method DropRoom(room: string)
      requires Valid()
      modifies store.Repr
      ensures Valid() && store.Repr == old(store.Repr)
      ensures State() == old(State()).(rooms := old(State()).rooms - {room})
    {
      hide AcceptedIn, Tables.Store.Valid;
      store.DropRoom(room);
    }

    /** `g_hash_table_size` of the members. */
    method IsEmpty(room: string) returns (empty: bool)
      requires Valid() && room in State().rooms
      ensures empty <==> State().rooms[room].members.byName == map[]
    {
      assert store.Right(MembersOf(room));
      hide UsersTables.UsersTable.Valid;
      var names := store.rooms[room].members.Usernames();
      empty := |names| == 0;
    }

    method LeaveRoom(e: P.Env, m: Message, fd: int) returns (ok: bool)
      requires P.Iterates(e) && Valid()
      modifies this, store.Repr
      ensures Valid() && fresh(store.Repr - old(store.Repr))
      ensures (State(), ok) == P.LeaveRoom(old(State()), e, m, fd)
    {
      hide Valid, P.Iterates;
      if m.roomname.None? {
        return false;
      }
      var room := m.roomname.value;
      var there := HasRoom(room);
      if !there {
        ok := Reply(e, fd, P.Response("LEAVE_ROOM", "NO_SUCH_ROOM", Some(room)));
        return;
      }
      var from := FindByFd(fd);
      if from.None? {
        ok := SendInvalidAndDisconnect(e, fd);
        return;
      }
      var u := from.value;
      var inside := IsMember(room, u.fd);
      if !inside {
        ok := Reply(e, fd, P.Response("LEAVE_ROOM", "NOT_JOINED", Some(room)));
        return;
      }
      Leave(room, u);
      NotifyMembers(e, room, BLANK.(kind := LEFT_ROOM, roomname := Some(room), username := Some(u.name)), fd);
      return true;
    }

    static lemma EmptiedRoomGone(s: P.State, room: string, members: T.Table)
      requires room in s.rooms
      ensures s.rooms[room := s.rooms[room].(members := members)] - {room} == s.rooms - {room}
      ensures |members.byName| == 0 <==> members.byName == map[]
    {
    }

    /** `message_handler_process`. */
    method Process(e: P.Env, m: Message, fd: int) returns (ok: bool)
      requires P.Iterates(e) && Valid() && P.Dispatchable(m) && fd >= 0
      modifies this, store.Repr
      ensures Valid() && fresh(store.Repr - old(store.Repr))
      ensures (State(), ok) == P.Process(old(State()), e, m, fd)
    {
      hide Valid, P.Iterates;
      if m.kind == UNKNOWN {
        return false;
      }
      if m.kind == DISCONNECT {
        ok := Disconnect(e, fd);
        return;
      }
      if m.kind == IDENTIFY {
        ok := Identify(e, m, fd);
        return;
      }
      var user := FindByFd(fd);
      if user.None? {
        var _ := Send(e, fd, P.Response("INVALID", "NOT_IDENTIFIED", None));
        var _ := Disconnect(e, fd);
        return true;
      }
      match m.kind {
        case STATUS => ok := SetStatus(e, m, fd);
        case USERS => ok := ListUsers(e, fd);
        case TEXT => ok := Text(e, m, fd);
        case PUBLIC_TEXT => ok := PublicText(e, m, fd);
        case NEW_ROOM => ok := NewRoom(e, m, fd);
        case INVITE => ok := Invite(e, m, fd);
        case JOIN_ROOM => ok := JoinRoom(e, m, fd);
        case ROOM_USERS => ok := RoomUsers(e, m, fd);
        case ROOM_TEXT => ok := RoomText(e, m, fd);
        case LEAVE_ROOM => ok := LeaveRoom(e, m, fd);
        case _ => ok := true;
      }
    }
  }
}
