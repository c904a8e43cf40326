/** What single handlers of the server with copies achieve, from any consistent state. */
module Handlers {
  import opened Base
  import opened Messages
  import T = UserTables
  import P = Protocol
  import N = NameServer
  import R = Refinement
  import E = Effects
  import L = Locks
  import opened Runs

  // ------------------------------------------------------------------- traces of one user

  ghost predicate NotIn(t: T.Table, name: string, fd: int) {
    name !in t.byName && fd !in t.byFd
  }

  /** Neither the name nor the descriptor is in an index of any table. */
  ghost predicate NoTrace(c: P.State, name: string, fd: int) {
    NotIn(c.users, name, fd) && LeftRooms(c, name, fd)
  }

  ghost predicate LeftRooms(c: P.State, name: string, fd: int) {
    forall r :: r in c.rooms ==> NotIn(c.rooms[r].members, name, fd) && NotIn(c.rooms[r].guests, name, fd)
  }

  /** The user's entry, or its absence, is the same in the master table and in every room. */
  ghost predicate SameEntries(c: P.State, c': P.State, name: string) {
    && T.FindByName(c'.users, name) == T.FindByName(c.users, name)
    && (forall r :: r in c.rooms && r in c'.rooms ==>
         && T.FindByName(c'.rooms[r].members, name) == T.FindByName(c.rooms[r].members, name)
         && T.FindByName(c'.rooms[r].guests, name) == T.FindByName(c.rooms[r].guests, name))
  }

  lemma NoTraceOfCopies(s: N.State, name: string, fd: int)
    requires N.Valid(s) && name !in s.users && N.Holder(s.users, fd).None?
    ensures NoTrace(R.Copies(s), name, fd)
  {
  }

  /** The user has the same record and is in the same rooms in the same roles. */
  ghost predicate Untouched(s: N.State, s': N.State, name: string) {
    && name in s.users && name in s'.users && s'.users[name] == s.users[name]
    && (forall r :: r in s.rooms && r in s'.rooms ==>
         && (name in s'.rooms[r].members <==> name in s.rooms[r].members)
         && (name in s'.rooms[r].guests <==> name in s.rooms[r].guests))
  }

  lemma SameEntriesOfCopies(s: N.State, s': N.State, name: string)
    requires N.Valid(s) && N.Valid(s') && Untouched(s, s', name)
    ensures SameEntries(R.Copies(s), R.Copies(s'), name)
  {
  }

  // ---------------------------------------------------------------------------- broadcasts

  ghost predicate Lists(names: seq<string>, elements: set<string>) {
    NoDuplicates(names) && forall n :: n in names <==> n in elements
  }

  /** What becomes of a user who is forgotten when a send fails. */
  ghost predicate KeptOrForgotten(c: P.State, c': P.State, reached: bool, name: string, fd: int) {
    if reached then SameEntries(c, c', name) else NoTrace(c', name, fd)
  }

  /** The users of `names` are kept or forgotten by the outcomes of their sends, in this order. */
  ghost predicate ReachedOrForgotten(c: P.State, c': P.State, e: P.Env, names: seq<string>) {
    forall i :: 0 <= i < |names| && names[i] in c.users.byName ==>
      KeptOrForgotten(c, c', e.delivers(|c.log| + i), names[i], c.users.byName[names[i]].fd)
  }

  /** `lost` are those of `names` whose send failed. */
  ghost predicate Lost(names: seq<string>, lost: seq<string>, e: P.Env, from: nat) {
    && (forall i :: 0 <= i < |names| ==> (names[i] in lost <==> !e.delivers(from + i)))
    && (forall n :: n in lost ==> n in names)
  }

  lemma DeliverLoses(log: seq<P.Event>, e: P.Env, users: map<string, User>, names: seq<string>, m: Message)
    requires NoDuplicates(names) && forall n :: n in names ==> n in users
    ensures var (log', lost) := N.Deliver(log, e, users, names, m);
            log' == log + E.Attempts(|log|, e, users, names, m) && Lost(names, lost, e, |log|)
  {
    E.DeliverAttempts(log, e, users, names, m);
  }

  lemma ForgottenTrace(s: N.State, s': N.State, gone: set<string>, n: string)
    requires N.Valid(s) && N.Valid(s') && s' == N.Forget(s, gone).(log := s'.log) && n in s.users && n in gone
    ensures NoTrace(R.Copies(s'), n, s.users[n].fd)
  {
  }

  lemma KeptEntries(s: N.State, s': N.State, gone: set<string>, n: string)
    requires N.Valid(s) && N.Valid(s') && s' == N.Forget(s, gone).(log := s'.log) && n in s.users && n !in gone
    ensures SameEntries(R.Copies(s), R.Copies(s'), n)
  {
    assert Untouched(s, s', n);
    SameEntriesOfCopies(s, s', n);
  }

  lemma ForgetTraces(s: N.State, s': N.State, lost: seq<string>)
    requires N.Valid(s) && N.Valid(s') && s' == N.Forget(s, N.Elements(lost)).(log := s'.log)
    ensures forall n :: n in s.users && n !in lost ==> SameEntries(R.Copies(s), R.Copies(s'), n)
    ensures forall n :: n in s.users && n in lost ==> NoTrace(R.Copies(s'), n, s.users[n].fd)
  {
    UsersOkOf(s);
    UsersOkOf(s');
    hide R.Copies, SameEntries, NoTrace, N.Valid, N.Forget;
    forall n | n in s.users && n !in lost
      ensures SameEntries(R.Copies(s), R.Copies(s'), n)
    {
      KeptEntries(s, s', N.Elements(lost), n);
    }
    forall n | n in s.users && n in lost
      ensures NoTrace(R.Copies(s'), n, s.users[n].fd)
    {
      ForgottenTrace(s, s', N.Elements(lost), n);
    }
  }

  lemma ReachedOrLost(c: P.State, c': P.State, e: P.Env, names: seq<string>, lost: seq<string>)
    requires Lost(names, lost, e, |c.log|)
    requires forall n :: n in c.users.byName && n !in lost ==> SameEntries(c, c', n)
    requires forall n :: n in c.users.byName && n in lost ==> NoTrace(c', n, c.users.byName[n].fd)
    ensures ReachedOrForgotten(c, c', e, names)
  {
  }

  lemma UsersOkOf(s: N.State)
    requires N.Valid(s)
    ensures N.UsersOk(s.users)
  {
  }

  lemma CopiesHave(s: N.State)
    requires N.Valid(s)
    ensures R.Copies(s).users.byName == s.users && R.Copies(s).log == s.log && R.Copies(s).rooms.Keys == s.rooms.Keys
  {
  }

  /** News of `me` is sent exactly once to each other user.  Afterwards `me` and whoever was reached
      have exactly the entries they had, and no index holds a trace of anybody else. */
  lemma BroadcastToUsers(c: P.State, e: P.Env, m: Message, me: string) returns (names: seq<string>)
    requires P.Iterates(e) && Consistent(c) && me in c.users.byName
    ensures Lists(names, c.users.byName.Keys - {me})
    ensures var c' := P.NotifyUsers(c, e, m, c.users.byName[me].fd);
            && Consistent(c') && c'.rooms.Keys == c.rooms.Keys
            && c'.log == c.log + E.Attempts(|c.log|, e, c.users.byName, names, m)
            && SameEntries(c, c', me)
            && ReachedOrForgotten(c, c', e, names)
  {
    ConsistentMeansCopies(c);
    var s := Names(c);
    names := NotifyAllExact(s, e, m, me);
    R.NotifyUsersRefines(s, e, m, me);
    WrittenOut(N.NotifyAll(s, e, m, me));
  }

  lemma WrittenOut(s: N.State)
    requires N.Valid(s)
    ensures Consistent(R.Copies(s)) && Names(R.Copies(s)) == s
  {
    NamesOfCopies(s);
    ConsistentMeansCopies(R.Copies(s));
  }

  lemma OthersList(order: seq<string>, all: set<string>, me: string)
    requires Lists(order, all)
    ensures Lists(N.Others(order, me), all - {me})
  {
    N.OthersAreListed(order, me);
    R.OthersDistinct(order, me);
  }

  lemma NotifyAllExact(s: N.State, e: P.Env, m: Message, me: string) returns (names: seq<string>)
    requires P.Iterates(e) && N.Valid(s) && me in s.users
    ensures Lists(names, s.users.Keys - {me})
    ensures var s' := N.NotifyAll(s, e, m, me);
            && N.Valid(s') && s'.rooms.Keys == s.rooms.Keys
            && s'.log == s.log + E.Attempts(|s.log|, e, s.users, names, m)
            && SameEntries(R.Copies(s), R.Copies(s'), me)
            && ReachedOrForgotten(R.Copies(s), R.Copies(s'), e, names)
  {
    var s' := N.NotifyAll(s, e, m, me);
    R.NotifyUsersRefines(s, e, m, me);
    var order := e.order(|s.log|, s.users.Keys);
    OthersList(order, s.users.Keys, me);
    names := N.Others(order, me);
    DeliverLoses(s.log, e, s.users, names, m);
    var lost := N.Deliver(s.log, e, s.users, names, m).1;
    hide N.Deliver, Lost, R.Copies, N.Valid, E.Attempts, ReachedOrForgotten, SameEntries, N.Others;
    assert me !in lost;
    CopiesHave(s);
    ForgetTraces(s, s', lost);
    ReachedOrLost(R.Copies(s), R.Copies(s'), e, names, lost);
  }

  // ---------------------------------------------------------------------------- disconnecting

  /** DISCONNECT leaves no trace of its user: no index of any table holds the name or the descriptor.
      Everyone whose notification succeeded keeps exactly its entries, nobody else keeps any, and the
      last thing the log records is the closed connection. */
  lemma DisconnectLeavesNoTrace(c: P.State, e: P.Env, me: string) returns (names: seq<string>)
    requires P.Iterates(e) && Consistent(c) && me in c.users.byName
    ensures Lists(names, c.users.byName.Keys - {me})
    ensures var fd := c.users.byName[me].fd;
            var c' := P.Disconnect(c, e, fd).0;
            && Consistent(c') && c'.rooms.Keys == c.rooms.Keys
            && NoTrace(c', me, fd)
            && ReachedOrForgotten(c, c', e, names)
            && c'.log == c.log
                 + E.Attempts(|c.log|, e, c.users.byName, names, BLANK.(kind := DISCONNECTED, username := Some(me)))
                 + [P.Closed(fd)]
  {
    ConsistentMeansCopies(c);
    var s := Names(c);
    var news := BLANK.(kind := DISCONNECTED, username := Some(me));
    R.DisconnectAgrees(s, e, me);
    WrittenOut(N.Disconnect(s, e, me));
    names := NotifyAllExact(s, e, news, me);
    hide N.NotifyAll, N.Valid, P.Disconnect;
    DisconnectTraces(s, N.NotifyAll(s, e, news, me), e, me, names);
  }

  lemma DisconnectTraces(s: N.State, s1: N.State, e: P.Env, me: string, names: seq<string>)
    requires N.Valid(s) && N.Valid(s1) && me in s.users && me in s1.users && s1.users[me].fd == s.users[me].fd
    requires ReachedOrForgotten(R.Copies(s), R.Copies(s1), e, names) && me !in names
    requires s1.rooms.Keys == s.rooms.Keys
    ensures N.Valid(N.Close(N.Forget(s1, {me}), s.users[me].fd))
    ensures var s' := N.Close(N.Forget(s1, {me}), s.users[me].fd);
            NoTrace(R.Copies(s'), me, s.users[me].fd) && ReachedOrForgotten(R.Copies(s), R.Copies(s'), e, names)
  {
    var s' := N.Close(N.Forget(s1, {me}), s.users[me].fd);
    ClosedValid(s1, me, s.users[me].fd);
    TracesLater(s, s1, s', e, me, names);
  }

  lemma TracesLater(s: N.State, s1: N.State, s': N.State, e: P.Env, me: string, names: seq<string>)
    requires N.Valid(s) && N.Valid(s1) && N.Valid(s') && me !in names && s1.rooms.Keys == s.rooms.Keys
    requires s' == N.Forget(s1, {me}).(log := s'.log)
    requires ReachedOrForgotten(R.Copies(s), R.Copies(s1), e, names)
    ensures ReachedOrForgotten(R.Copies(s), R.Copies(s'), e, names)
  {
    hide R.Copies, KeptOrForgotten, N.Valid, N.Forget, N.OneUserPerFd, ReachedOrForgotten;
    UsersOkOf(s);
    UsersOkOf(s1);
    UsersOkOf(s');
    CopiesHave(s);
    var c, c1, c' := R.Copies(s), R.Copies(s1), R.Copies(s');
    forall n, reached, fd | n in names && n in s.users && fd == s.users[n].fd && KeptOrForgotten(c, c1, reached, n, fd)
      ensures KeptOrForgotten(c, c', reached, n, fd)
    {
      OneTrace(s, s1, s', me, reached, n);
    }
    StillReachedOrForgotten(c, c1, c', e, names);
  }

  lemma StillReachedOrForgotten(c: P.State, c1: P.State, c': P.State, e: P.Env, names: seq<string>)
    requires ReachedOrForgotten(c, c1, e, names)
    requires forall n, reached, fd ::
               n in names && n in c.users.byName && fd == c.users.byName[n].fd && KeptOrForgotten(c, c1, reached, n, fd)
               ==> KeptOrForgotten(c, c', reached, n, fd)
    ensures ReachedOrForgotten(c, c', e, names)
  {
  }

  lemma OneTrace(s: N.State, s1: N.State, s': N.State, me: string, reached: bool, n: string)
    requires N.Valid(s) && N.Valid(s1) && N.Valid(s') && n != me && n in s.users
    requires s' == N.Forget(s1, {me}).(log := s'.log) && s1.rooms.Keys == s.rooms.Keys
    requires KeptOrForgotten(R.Copies(s), R.Copies(s1), reached, n, s.users[n].fd)
    ensures KeptOrForgotten(R.Copies(s), R.Copies(s'), reached, n, s.users[n].fd)
  {
    if reached {
      OneLess(s, s1, s', me, n);
    } else {
      StillNoTrace(s1, s', me, n, s.users[n].fd);
    }
  }

  lemma ClosedValid(s1: N.State, me: string, fd: int)
    requires N.Valid(s1) && me in s1.users && s1.users[me].fd == fd
    ensures var s' := N.Close(N.Forget(s1, {me}), fd);
            N.Valid(s') && NoTrace(R.Copies(s'), me, fd)
  {
  }

  lemma OneLess(s: N.State, s1: N.State, s': N.State, me: string, n: string)
    requires N.Valid(s) && N.Valid(s1) && N.Valid(s') && n != me && n in s.users
    requires s' == N.Forget(s1, {me}).(log := s'.log) && s1.rooms.Keys == s.rooms.Keys
    requires SameEntries(R.Copies(s), R.Copies(s1), n)
    ensures SameEntries(R.Copies(s), R.Copies(s'), n)
  {
    assert Untouched(s1, s', n) by {
      CopiesHave(s);
      CopiesHave(s1);
    }
    SameEntriesOfCopies(s1, s', n);
  }

  lemma StillNoTrace(s1: N.State, s': N.State, me: string, n: string, fd: int)
    requires N.Valid(s1) && N.Valid(s') && s' == N.Forget(s1, {me}).(log := s'.log)
    requires NoTrace(R.Copies(s1), n, fd)
    ensures NoTrace(R.Copies(s'), n, fd)
  {
    R.FindHolder(s1.users, fd);
    NoTraceOfCopies(s', n, fd);
  }

  // -------------------------------------------------------------------------------- rooms

  /** News for a room is sent exactly once to each other member.  Nothing changes in the master
      table; whoever was reached keeps its entries, and whoever was not leaves every room. */
  lemma BroadcastToMembers(c: P.State, e: P.Env, room: string, m: Message, me: string) returns (names: seq<string>)
    requires P.Iterates(e) && Consistent(c) && me in c.users.byName && room in c.rooms
    ensures Lists(names, c.rooms[room].members.byName.Keys - {me})
    ensures forall n :: n in names ==> n in c.users.byName
    ensures var c' := P.NotifyMembers(c, e, room, m, c.users.byName[me].fd);
            && Consistent(c') && c'.rooms.Keys == c.rooms.Keys && c'.users == c.users
            && c'.log == c.log + E.Attempts(|c.log|, e, c.users.byName, names, m)
            && (forall n :: n in c.users.byName && n !in names ==> SameEntries(c, c', n))
            && (forall i :: 0 <= i < |names| ==>
                 if e.delivers(|c.log| + i) then SameEntries(c, c', names[i])
                 else LeftRooms(c', names[i], c.users.byName[names[i]].fd))
  {
    ConsistentMeansCopies(c);
    var s := Names(c);
    R.NotifyMembersRefines(s, e, room, m, me);
    var s' := N.NotifyRoom(s, e, room, m, me);
    WrittenOut(s');
    var order := e.order(|s.log|, s.rooms[room].members);
    OthersList(order, s.rooms[room].members, me);
    names := N.Others(order, me);
    DeliverLoses(s.log, e, s.users, names, m);
    var lost := N.Deliver(s.log, e, s.users, names, m).1;
    hide N.Deliver, N.Others, P.NotifyMembers, Consistent, N.Valid, R.Copies, SameEntries, LeftRooms;
    DropTraces(s, s', lost);
  }

  lemma DropTraces(s: N.State, s': N.State, lost: seq<string>)
    requires N.Valid(s) && N.Valid(s') && s' == N.DropFromRooms(s, N.Elements(lost)).(log := s'.log)
    ensures R.Copies(s').users == R.Copies(s).users && R.Copies(s').rooms.Keys == R.Copies(s).rooms.Keys
    ensures forall n :: n in s.users && n !in lost ==> SameEntries(R.Copies(s), R.Copies(s'), n)
    ensures forall n :: n in s.users && n in lost ==> LeftRooms(R.Copies(s'), n, s.users[n].fd)
  {
    hide SameEntries, LeftRooms;
    forall n | n in s.users && n !in lost
      ensures SameEntries(R.Copies(s), R.Copies(s'), n)
    {
      assert Untouched(s, s', n);
      SameEntriesOfCopies(s, s', n);
    }
    forall n | n in s.users && n in lost
      ensures LeftRooms(R.Copies(s'), n, s.users[n].fd)
    {
      LeftRoomsOfCopies(s', n);
    }
  }

  lemma LeftRoomsOfCopies(s: N.State, n: string)
    requires N.Valid(s) && n in s.users
    requires forall r :: r in s.rooms ==> n !in s.rooms[r].members && n !in s.rooms[r].guests
    ensures LeftRooms(R.Copies(s), n, s.users[n].fd)
  {
  }

  /** Joining moves one user from the guests to the members of one room and changes nothing else. */
  lemma JoinMovesOneGuest(c: P.State, room: string, me: string)
    requires Consistent(c) && room in c.rooms && me in c.rooms[room].guests.byName
    ensures me in c.users.byName
    ensures var c' := P.GuestToMember(c, room, c.users.byName[me]);
            && Consistent(c') && c'.users == c.users && c'.log == c.log && c'.rooms.Keys == c.rooms.Keys
            && (forall r :: r in c.rooms && r != room ==> c'.rooms[r] == c.rooms[r])
            && c'.rooms[room].guests.byName == c.rooms[room].guests.byName - {me}
            && me !in c.rooms[room].members.byName
            && c'.rooms[room].members.byName == c.rooms[room].members.byName[me := c.users.byName[me]]
  {
    MoveKeepsConsistent(c, room, me);
    var u := c.users.byName[me];
    assert UsernameOk(u.name) && User(u.name, u.fd, u.status) == u;
  }

  lemma MoveKeepsConsistent(c: P.State, room: string, me: string)
    requires Consistent(c) && room in c.rooms && me in c.rooms[room].guests.byName
    ensures me in c.users.byName && c.users.byName[me].name == me && me !in c.rooms[room].members.byName
    ensures Consistent(P.GuestToMember(c, room, c.users.byName[me]))
  {
    ConsistentMeansCopies(c);
    R.GuestToMemberAgrees(Names(c), room, me);
    WrittenOut(N.GuestToMember(Names(c), room, me));
    hide P.GuestToMember, N.GuestToMember, N.Valid, R.Copies;
  }

  // ------------------------------------------------------------------- where records are added

  /** Each turn of the second loop of INVITE that adds a guest finds neither the name nor the descriptor
      in the table of guests. */
  ghost predicate InvitesFresh(c: P.State, e: P.Env, room: string, invitation: Message, invited: seq<User>)
    decreases invited
  {
    if invited == [] || room !in c.rooms || P.IsMember(c, room, invited[0].fd) || P.IsGuest(c, room, invited[0].fd) then
      true
    else
      var u := invited[0];
      var (c1, ok) := P.Send(P.AddGuest(c, room, u), e, u.fd, invitation);
      NotIn(c.rooms[room].guests, u.name, u.fd) && (ok ==> InvitesFresh(c1, e, room, invitation, invited[1..]))
  }

  /** At each call that adds a record to a table, in the handler of this message, neither its name nor its
      descriptor is in an index of the table. */
  ghost predicate AddsFresh(c: P.State, e: P.Env, m: Message, fd: int) {
    var self := T.FindByFd(c.users, fd);
    match m.kind
    case IDENTIFY =>
      m.username.Some? && self.None? ==>
        var name := Truncate(m.username.value, USERNAME_MAX);
        T.FindByName(c.users, name).None? ==> NotIn(c.users, name, fd)
    case NEW_ROOM =>
      self.Some? ==> NotIn(T.EMPTY, self.value.name, self.value.fd)
    case INVITE =>
      self.Some? && m.roomname.Some? && m.usernames.Some? && NoNullElements(m.usernames.value) ==>
        (match P.LookUpAll(c.users, P.Values(m.usernames.value))
         case Missing(_) => true
         case Known(invited) =>
           var news := BLANK.(kind := INVITATION, username := Some(self.value.name), roomname := m.roomname);
           InvitesFresh(c, e, m.roomname.value, news, invited))
    case JOIN_ROOM =>
      self.Some? && m.roomname.Some? && P.IsGuest(c, m.roomname.value, fd) ==>
        NotIn(c.rooms[m.roomname.value].members, self.value.name, self.value.fd)
    case _ => true
  }

  lemma NotAmong(users: map<string, User>, names: set<string>, n: string)
    requires N.UsersOk(users) && n in users && n !in names
    ensures NotIn(R.TableOf(N.Restrict(users, names)), n, users[n].fd)
  {
    R.TableOfInverse(N.Restrict(users, names));
  }

  lemma NoGuest(s: N.State, room: string, n: string)
    requires N.Valid(s) && room in s.rooms && n in s.users && n !in s.rooms[room].guests
    ensures NotIn(R.Copies(s).rooms[room].guests, n, s.users[n].fd) && s.users[n].name == n
  {
    NotAmong(s.users, s.rooms[room].guests, n);
  }

  lemma InvitesFreshStep(c: P.State, e: P.Env, room: string, invitation: Message, u: User, rest: seq<User>)
    requires room in c.rooms
    requires P.IsMember(c, room, u.fd) || P.IsGuest(c, room, u.fd)
             || (NotIn(c.rooms[room].guests, u.name, u.fd)
                 && InvitesFresh(P.Send(P.AddGuest(c, room, u), e, u.fd, invitation).0, e, room, invitation, rest))
    ensures InvitesFresh(c, e, room, invitation, [u] + rest)
  {
    hide P.IsMember, P.IsGuest, NotIn, P.Send, P.AddGuest;
    assert ([u] + rest)[1..] == rest;
  }

  lemma RecordsStep(users: map<string, User>, names: seq<string>)
    requires names != [] && forall n :: n in names ==> n in users
    ensures R.Records(users, names) == [users[names[0]]] + R.Records(users, names[1..])
  {
  }

  lemma {:induction false} InvitesAreFresh(s: N.State, e: P.Env, room: string, invitation: Message, names: seq<string>)
    requires N.Valid(s) && room in s.rooms && forall n :: n in names ==> n in s.users
    ensures InvitesFresh(R.Copies(s), e, room, invitation, R.Records(s.users, names))
    decreases names
  {
    UsersOkOf(s);
    CopiesHave(s);
    hide N.Valid, R.Copies, P.AddGuest, N.AddGuest, P.IsMember, P.IsGuest, P.Send, N.Send, NotIn, N.OneUserPerFd;
    if names == [] {
    } else {
      hide InvitesFresh, R.Records;
      var n := names[0];
      var u := s.users[n];
      var rest := names[1..];
      RecordsStep(s.users, names);
      R.MembershipAgrees(s, room, n);
      if n !in s.rooms[room].members + s.rooms[room].guests {
        NoGuest(s, room, n);
        R.InviteOneAgrees(s, e, room, invitation, n);
        InvitesAreFresh(N.Send(N.AddGuest(s, room, n), e, u.fd, invitation).0, e, room, invitation, rest);
      }
      InvitesFreshStep(R.Copies(s), e, room, invitation, u, R.Records(s.users, rest));
    }
  }

  lemma InviteFresh(s: N.State, e: P.Env, m: Message, me: string)
    requires N.Valid(s) && me in s.users && m.kind == INVITE
    ensures AddsFresh(R.Copies(s), e, m, s.users[me].fd)
  {
    hide InvitesFresh, R.Copies;
    CopiesHave(s);
    R.FindHolder(s.users, s.users[me].fd);
    if m.roomname.Some? && m.usernames.Some? && NoNullElements(m.usernames.value) {
      var names := P.Values(m.usernames.value);
      UsersTableOf(s);
      R.LookUpAgrees(s.users, names);
      if N.FirstUnknown(s.users, names).None? {
        var news := BLANK.(kind := INVITATION, username := Some(me), roomname := m.roomname);
        if m.roomname.value in s.rooms {
          InvitesAreFresh(s, e, m.roomname.value, news, names);
        } else {
          NoRoomFresh(R.Copies(s), e, m.roomname.value, news, R.Records(s.users, names));
        }
      }
    }
  }

  lemma UsersTableOf(s: N.State)
    requires N.Valid(s)
    ensures R.Copies(s).users == R.TableOf(s.users)
  {
  }

  lemma NoRoomFresh(c: P.State, e: P.Env, room: string, invitation: Message, invited: seq<User>)
    requires room !in c.rooms
    ensures InvitesFresh(c, e, room, invitation, invited)
  {
  }

  lemma OthersFresh(c: P.State, e: P.Env, m: Message, fd: int)
    requires Consistent(c) && m.kind != INVITE
    ensures AddsFresh(c, e, m, fd)
  {
    hide InvitesFresh;
    if m.kind == JOIN_ROOM && T.FindByFd(c.users, fd).Some? && m.roomname.Some? && P.IsGuest(c, m.roomname.value, fd) {
      GuestIsNoMember(c, fd, m.roomname.value);
    }
  }

  lemma GuestIsNoMember(c: P.State, fd: int, room: string)
    requires Consistent(c) && P.IsGuest(c, room, fd) && T.FindByFd(c.users, fd).Some?
    ensures var u := T.FindByFd(c.users, fd).value; NotIn(c.rooms[room].members, u.name, u.fd)
  {
    var guests := c.rooms[room].guests;
    assert CopiedFrom(c.users, guests) && Apart(c.rooms[room].members, guests);
    assert guests.byName[guests.byFd[fd]] == c.users.byName[guests.byFd[fd]];
    assert c.users.byFd[fd] == guests.byFd[fd];
  }

  /** In every reachable state, every call that adds a record, in every handler and every turn of its
      loops, brings a name and a descriptor that are new to the table. */
  lemma AdditionsAreFresh(e: P.Env, run: seq<P.Input>, k: nat)
    requires P.Iterates(e) && P.Admissible(run) && k < |run| && run[k].msg.Some?
    ensures AddsFresh(P.After(e, run, k), e, run[k].msg.value, run[k].fd)
  {
    ReachableIsConsistent(e, run, k);
    ConsistentMeansCopies(P.After(e, run, k));
    hide P.After, Consistent, AddsFresh, P.Admissible, P.Iterates;
    AddsFreshFrom(P.After(e, run, k), e, run[k].msg.value, run[k].fd);
  }

  lemma AddsFreshFrom(c: P.State, e: P.Env, m: Message, fd: int)
    requires Consistent(c)
    ensures AddsFresh(c, e, m, fd)
  {
    if m.kind == INVITE && T.FindByFd(c.users, fd).Some? {
      ConsistentMeansCopies(c);
      HolderOf(c, fd);
      hide AddsFresh, Consistent, N.Valid, R.Copies;
      InviteFresh(Names(c), e, m, T.FindByFd(c.users, fd).value.name);
    } else if m.kind != INVITE {
      OthersFresh(c, e, m, fd);
    }
  }

  lemma HolderOf(c: P.State, fd: int)
    requires Consistent(c) && T.FindByFd(c.users, fd).Some?
    ensures var u := T.FindByFd(c.users, fd).value; u.name in Names(c).users && Names(c).users[u.name].fd == fd
  {
  }

  // ------------------------------------------------------------------------------ NEW_ROOM

  /** The room that NEW_ROOM opens: its name is the first 16 bytes of what is asked for, or all of it, and
      neither that nor the whole names a room. */
  predicate Opens(c: P.State, m: Message, room: string) {
    && m.roomname.Some? && room <= m.roomname.value
    && |room| == (if |m.roomname.value| <= 16 then |m.roomname.value| else 16)
    && m.roomname.value !in c.rooms && room != "" && room !in c.rooms
  }

  /** NEW_ROOM opens a room exactly under that condition; nobody but its creator is in it, and nothing else
      changes.  If the reply does not arrive the creator is fully disconnected, and the room stays. */
  lemma NewRoomOpens(c: P.State, e: P.Env, m: Message, me: string, room: string)
    requires P.Iterates(e) && Consistent(c) && me in c.users.byName
    ensures var fd := c.users.byName[me].fd;
            var c' := P.NewRoom(c, e, m, fd).0;
            && Consistent(c')
            && (Opens(c, m, room) <==> room in c'.rooms && room !in c.rooms)
            && (Opens(c, m, room) ==>
                 && c'.rooms.Keys == c.rooms.Keys + {room} && c'.rooms[room].guests == T.EMPTY
                 && if e.delivers(|c.log|) then
                      && c'.users == c.users && c'.rooms == c.rooms[room := c'.rooms[room]]
                      && c'.rooms[room].members.byName == map[me := c.users.byName[me]]
                    else NoTrace(c', me, fd))
  {
    ConsistentMeansCopies(c);
    var s := Names(c);
    R.NewRoomAgrees(s, e, m, me);
    WrittenOut(N.NewRoom(s, e, m, me).0);
    NewRoomNames(s, e, m, me, room);
    CopiesHave(N.NewRoom(s, e, m, me).0);
    CopiesHave(s);
    hide N.NewRoom, P.NewRoom, Consistent, N.Valid, R.Copies, NoTrace, Names, Opens;
    if Opens(c, m, room) {
      OpenedCopies(s, N.NewRoom(s, e, m, me).0, e, me, room);
    }
  }

  /** What NEW_ROOM makes of the name-only server. */
  ghost predicate Opened(s: N.State, s': N.State, e: P.Env, me: string, room: string)
    requires N.Valid(s') && me in s.users
  {
    && room in s'.rooms && s'.rooms.Keys == s.rooms.Keys + {room} && s'.rooms[room].guests == {}
    && if e.delivers(|s.log|) then s'.users == s.users && s'.rooms == s.rooms[room := N.Room({me}, {})]
       else NoTrace(R.Copies(s'), me, s.users[me].fd)
  }

  lemma OpensTruncated(c: P.State, m: Message, room: string)
    ensures Opens(c, m, room)
            <==> m.roomname.Some? && room == Truncate(m.roomname.value, ROOMNAME_MAX)
                 && m.roomname.value !in c.rooms && RoomnameOk(room) && room !in c.rooms
  {
    if Opens(c, m, room) {
      assert room == m.roomname.value[..|room|];
    }
  }

  lemma NewRoomNames(s: N.State, e: P.Env, m: Message, me: string, room: string)
    requires P.Iterates(e) && N.Valid(s) && me in s.users && N.Valid(N.NewRoom(s, e, m, me).0)
    ensures Opens(R.Copies(s), m, room) ==> Opened(s, N.NewRoom(s, e, m, me).0, e, me, room)
    ensures !Opens(R.Copies(s), m, room) ==> room in s.rooms || room !in N.NewRoom(s, e, m, me).0.rooms
  {
    CopiesHave(s);
    OpensTruncated(R.Copies(s), m, room);
    hide R.Copies, Opened, Opens, E.Shrinks, N.Reply, N.Valid, Truncate;
    if m.roomname.Some? {
      var r := Truncate(m.roomname.value, ROOMNAME_MAX);
      OpensTruncated(R.Copies(s), m, r);
      if Opens(R.Copies(s), m, r) {
        OpenedNames(s, e, me, r);
      } else {
        var taken := P.Response("NEW_ROOM", "ROOM_ALREADY_EXISTS", Some(r));
        E.RepliesShrink(s, e, me, taken);
        ShrunkKeys(s.rooms, N.Reply(s, e, me, taken).0.rooms, r);
      }
    }
  }

  lemma OpenedNames(s: N.State, e: P.Env, me: string, room: string)
    requires P.Iterates(e) && N.Valid(s) && me in s.users && room !in s.rooms
    requires N.Valid(N.Reply(s.(rooms := s.rooms[room := N.Room({me}, {})]), e, me,
                             P.Response("NEW_ROOM", "SUCCESS", Some(room))).0)
    ensures Opened(s, N.Reply(s.(rooms := s.rooms[room := N.Room({me}, {})]), e, me,
                              P.Response("NEW_ROOM", "SUCCESS", Some(room))).0, e, me, room)
  {
    hide NoTrace, R.Copies, N.Disconnect, N.Valid, P.Response, P.Iterates;
    var s0 := s.(rooms := s.rooms[room := N.Room({me}, {})]);
    if !e.delivers(|s.log|) {
      LostFounder(s, e, me, room, N.Send(s0, e, s.users[me].fd, P.Response("NEW_ROOM", "SUCCESS", Some(room))).0);
    }
  }

  lemma LostFounder(s: N.State, e: P.Env, me: string, room: string, s1: N.State)
    requires P.Iterates(e) && N.Valid(s) && me in s.users
    requires s1.users == s.users && s1.rooms == s.rooms[room := N.Room({me}, {})]
    requires N.Valid(N.Disconnect(s1, e, me))
    ensures var s' := N.Disconnect(s1, e, me);
            && room in s'.rooms && s'.rooms.Keys == s.rooms.Keys + {room} && s'.rooms[room].guests == {}
            && NoTrace(R.Copies(s'), me, s.users[me].fd)
  {
    LostFounderTrace(s, e, me, s1);
    E.DisconnectShrinks(s1, e, me);
    hide *;
    ShrunkKeys(s1.rooms, N.Disconnect(s1, e, me).rooms, room);
    RoomAdded(s.rooms, s1.rooms, room, N.Room({me}, {}));
  }

  lemma RoomAdded(rooms: map<string, N.Room>, rooms': map<string, N.Room>, name: string, room: N.Room)
    requires rooms' == rooms[name := room]
    ensures rooms'.Keys == rooms.Keys + {name} && rooms'[name] == room
  {
  }

  lemma LostFounderTrace(s: N.State, e: P.Env, me: string, s1: N.State)
    requires P.Iterates(e) && N.Valid(s) && me in s.users && s1.users == s.users
    requires N.Valid(N.Disconnect(s1, e, me))
    ensures NoTrace(R.Copies(N.Disconnect(s1, e, me)), me, s.users[me].fd)
  {
    UsersOkOf(s);
    hide NoTrace, R.Copies, N.Disconnect, N.Valid, N.OneUserPerFd;
    DisconnectedNames(s1, e, me);
  }

  lemma ShrunkKeys(rooms: map<string, N.Room>, rooms': map<string, N.Room>, room: string)
    requires E.Shrinks(rooms, rooms')
    ensures rooms'.Keys == rooms.Keys
    ensures room in rooms && rooms[room].guests == {} ==> rooms'[room].guests == {}
  {
  }

  lemma OpenedCopies(s: N.State, s': N.State, e: P.Env, me: string, room: string)
    requires N.Valid(s) && N.Valid(s') && me in s.users && room !in s.rooms && Opened(s, s', e, me, room)
    ensures R.Copies(s').rooms[room].guests == T.EMPTY
    ensures e.delivers(|s.log|) ==>
              && R.Copies(s').users == R.Copies(s).users
              && R.Copies(s').rooms == R.Copies(s).rooms[room := R.Copies(s').rooms[room]]
              && R.Copies(s').rooms[room].members.byName == map[me := s.users[me]]
  {
    hide R.RoomOf, R.TableOf, NoTrace;
    OneMember(s'.users, s'.rooms[room], me);
  }

  lemma OneMember(users: map<string, User>, room: N.Room, me: string)
    requires N.UsersOk(users) && N.RoomOk(users, room)
    ensures room.guests == {} ==> R.RoomOf(users, room).guests == T.EMPTY
    ensures room.members == {me} && me in users ==>
              R.RoomOf(users, room).members.byName == map[me := users[me]]
  {
    assert N.Restrict(users, {}) == map[];
    if room.members == {me} && me in users {
      assert N.Restrict(users, {me}) == map[me := users[me]];
    }
  }

  // ------------------------------------------------------- room broadcasts as the code does them

  /** The sends that become these entries of the log succeed. */
  ghost predicate Succeed(e: P.Env, from: nat, to: nat) {
    forall k :: from <= k < to ==> e.delivers(k)
  }

  lemma {:induction false} AllReached(log: seq<P.Event>, e: P.Env, fds: seq<int>, m: Message)
    ensures P.SendEach(log, e, fds, m).1 == [] <==> Succeed(e, |log|, |log| + |fds|)
    decreases fds
  {
    if fds == [] {
    } else {
      AllReached(log + [P.Sent(fds[0], m, e.delivers(|log|))], e, fds[1..], m);
      assert Succeed(e, |log|, |log| + |fds|) <==> e.delivers(|log|) && Succeed(e, |log| + 1, |log| + |fds|);
    }
  }

  /** The call that a broadcast to a room makes, with the rooms visited for each failed send. */
  function BroadcastCall(room: string, failed: seq<int>, visited: seq<string>): L.Call {
    L.WithRoom(room, L.Notify(seq(|failed|, _ => visited)))
  }

  /** A broadcast to a room comes to its end, with each mutex taken in order, exactly if every one of its
      sends succeeds; then it changes nothing but the log. */
  lemma RoomBroadcastCompletes(c: P.State, e: P.Env, room: string, m: Message, self: int, visited: seq<string>)
    requires room in c.rooms
    ensures var members := c.rooms[room].members.byName;
            var fds := P.Recipients(members, e.order(|c.log|, members.Keys), self);
            var (log, failed) := P.SendEach(c.log, e, fds, m);
            var reached := Succeed(e, |c.log|, |c.log| + |fds|);
            && (L.Disciplined({}, L.Program(BroadcastCall(room, failed, visited))) <==> reached)
            && (L.Alone({}, L.Program(BroadcastCall(room, failed, visited))) == ({}, []) <==> reached)
            && (reached ==> P.NotifyMembers(c, e, room, m, self) == c.(log := log))
  {
    hide L.Disciplined, L.Alone, L.Program;
    var fds := P.Recipients(c.rooms[room].members.byName, e.order(|c.log|, c.rooms[room].members.byName.Keys), self);
    AllReached(c.log, e, fds, m);
    L.OrderKept(BroadcastCall(room, P.SendEach(c.log, e, fds, m).1, visited));
  }

  // -------------------------------------------------------------------------------- INVITE

  /** How many of `names` come before the first that is in the room already, counting those of
      `names` that were let in before it. */
  ghost function Welcome(room: N.Room, names: seq<string>): (n: nat)
    ensures n <= |names|
    decreases names
  {
    if names == [] || names[0] in room.members + room.guests then 0
    else 1 + Welcome(room.(guests := room.guests + {names[0]}), names[1..])
  }

  lemma Prefix(names: seq<string>, i: nat)
    requires 0 < i < |names|
    ensures names[i] == names[1..][i - 1] && names[..i] == [names[0]] + names[1..][..i - 1]
  {
  }

  lemma {:induction false} WelcomeIsFirstInside(room: N.Room, names: seq<string>)
    ensures var n := Welcome(room, names);
            && (forall i :: 0 <= i < n ==> names[i] !in room.members + room.guests && names[i] !in names[..i])
            && (n < |names| ==> names[n] in room.members + room.guests || names[n] in names[..n])
    decreases names
  {
    var n := Welcome(room, names);
    if n == 0 {
    } else {
      var rest := names[1..];
      WelcomeIsFirstInside(room.(guests := room.guests + {names[0]}), rest);
      forall i | 0 < i < n
        ensures names[i] !in room.members + room.guests && names[i] !in names[..i]
      {
        Prefix(names, i);
      }
      if n < |names| {
        Prefix(names, n);
      }
    }
  }

  /** The state once the first `n` names have been made guests and sent the invitation. */
  ghost function LetIn(s: N.State, e: P.Env, room: string, invitation: Message, names: seq<string>, n: nat): N.State
    requires room in s.rooms && n <= |names| && forall x :: x in names ==> x in s.users
  {
    s.(rooms := s.rooms[room := s.rooms[room].(guests := s.rooms[room].guests + N.Elements(names[..n]))],
       log := s.log + E.Attempts(|s.log|, e, s.users, names[..n], invitation))
  }

  /** `n` is where the second loop stops: at somebody inside, at the first failed send, or at the end. */
  ghost predicate StopsAt(s: N.State, e: P.Env, room: string, names: seq<string>, n: nat)
    requires room in s.rooms
  {
    && n <= Welcome(s.rooms[room], names)
    && (forall k :: |s.log| <= k < |s.log| + n ==> e.delivers(k))
    && (n < Welcome(s.rooms[room], names) ==> !e.delivers(|s.log| + n))
  }

  lemma LetInOne(s: N.State, e: P.Env, room: string, invitation: Message, names: seq<string>, n: nat)
    requires room in s.rooms && 0 < n <= |names| && forall x :: x in names ==> x in s.users
    ensures var s1 := N.Send(N.AddGuest(s, room, names[0]), e, s.users[names[0]].fd, invitation).0;
            LetIn(s1, e, room, invitation, names[1..], n - 1) == LetIn(s, e, room, invitation, names, n)
  {
    var s1 := N.Send(N.AddGuest(s, room, names[0]), e, s.users[names[0]].fd, invitation).0;
    hide E.Attempts, N.Elements;
    FirstAttempt(|s.log|, e, s.users, names, invitation, n);
    FirstElement(names, n);
    LogsJoin(s.log, s1.log, E.Attempts(|s1.log|, e, s.users, names[1..][..n - 1], invitation));
    var a, b := LetIn(s1, e, room, invitation, names[1..], n - 1), LetIn(s, e, room, invitation, names, n);
    GuestsJoin(s.rooms[room].guests, {names[0]}, N.Elements(names[1..][..n - 1]));
    assert a.rooms == b.rooms;
    assert a.log == b.log;
  }

  lemma GuestsJoin(a: set<string>, b: set<string>, c: set<string>)
    ensures (a + b) + c == a + (b + c)
  {
  }

  lemma FirstAttempt(start: nat, e: P.Env, users: map<string, User>, names: seq<string>, m: Message, n: nat)
    requires 0 < n <= |names| && forall x :: x in names ==> x in users
    ensures E.Attempts(start, e, users, names[..n], m)
            == [P.Sent(users[names[0]].fd, m, e.delivers(start))]
               + E.Attempts(start + 1, e, users, names[1..][..n - 1], m)
  {
  }

  lemma FirstElement(names: seq<string>, n: nat)
    requires 0 < n <= |names|
    ensures N.Elements(names[..n]) == {names[0]} + N.Elements(names[1..][..n - 1])
  {
  }

  lemma LogsJoin(log: seq<P.Event>, log1: seq<P.Event>, more: seq<P.Event>)
    requires log <= log1
    ensures log + (log1[|log|..] + more) == log1 + more
  {
  }

  lemma {:induction false} InviteEachExact(s: N.State, e: P.Env, room: string, invitation: Message,
      names: seq<string>, n: nat)
    requires P.Iterates(e) && room in s.rooms && forall x :: x in names ==> x in s.users
    requires StopsAt(s, e, room, names, n)
    ensures N.InviteEach(s, e, room, invitation, names)
            == if n == Welcome(s.rooms[room], names) then LetIn(s, e, room, invitation, names, n)
               else N.Disconnect(LetIn(s, e, room, invitation, names, n + 1), e, names[n])
    decreases names
  {
    hide E.Attempts, N.Elements, N.Disconnect, P.Iterates;
    if Welcome(s.rooms[room], names) == 0 {
      LetInNobody(s, e, room, invitation, names);
    } else {
      var s1 := N.Send(N.AddGuest(s, room, names[0]), e, s.users[names[0]].fd, invitation).0;
      if n == 0 {
        LetInOne(s, e, room, invitation, names, 1);
        LetInNobody(s1, e, room, invitation, names[1..]);
      } else {
        InviteEachExact(s1, e, room, invitation, names[1..], n - 1);
        LetInOne(s, e, room, invitation, names, n);
        if n < Welcome(s.rooms[room], names) {
          LetInOne(s, e, room, invitation, names, n + 1);
        }
      }
    }
  }

  lemma LetInNobody(s: N.State, e: P.Env, room: string, invitation: Message, names: seq<string>)
    requires room in s.rooms && forall x :: x in names ==> x in s.users
    ensures LetIn(s, e, room, invitation, names, 0) == s
  {
    assert N.Elements([]) == {};
    assert s.rooms[room].guests + {} == s.rooms[room].guests;
  }

  /** No room is new, and no room has a new guest or a new member. */
  ghost predicate NobodyNew(c: P.State, c': P.State) {
    && c'.rooms.Keys <= c.rooms.Keys
    && (forall r :: r in c'.rooms ==>
         && c'.rooms[r].members.byName.Keys <= c.rooms[r].members.byName.Keys
         && c'.rooms[r].guests.byName.Keys <= c.rooms[r].guests.byName.Keys)
  }

  /** The listed names, none of them NULL. */
  ghost predicate ListsNames(usernames: seq<Option<string>>, names: seq<string>) {
    |names| == |usernames| && forall i :: 0 <= i < |names| ==> usernames[i] == Some(names[i])
  }

  lemma ListedAre(usernames: seq<Option<string>>, names: seq<string>)
    requires ListsNames(usernames, names)
    ensures NoNullElements(usernames) && names == P.Values(usernames)
  {
  }

  lemma {:induction false} UnknownAt(users: map<string, User>, names: seq<string>, i: nat)
    requires i < |names| && names[i] !in users && forall j :: 0 <= j < i ==> names[j] in users
    ensures N.FirstUnknown(users, names) == Some(names[i])
    decreases i
  {
    if i == 0 {
    } else {
      UnknownAt(users, names[1..], i - 1);
    }
  }

  /** The first loop of INVITE: if the `i`-th listed name is the first that is unknown, nobody becomes a
      guest, the reply names that one, and if it arrives nothing else has happened. */
  lemma InviteUnknown(c: P.State, e: P.Env, m: Message, me: string, names: seq<string>, i: nat)
    requires P.Iterates(e) && Consistent(c) && P.Dispatchable(m) && m.kind == INVITE
    requires m.roomname.Some? && m.roomname.value in c.rooms
    requires m.usernames.Some? && ListsNames(m.usernames.value, names)
    requires me in c.rooms[m.roomname.value].members.byName && me in c.users.byName
    requires i < |names| && names[i] !in c.users.byName && forall j :: 0 <= j < i ==> names[j] in c.users.byName
    ensures var c' := P.Invite(c, e, m, c.users.byName[me].fd).0;
            var answer := Message(RESPONSE, None, Some("INVITE"), Some("NO_SUCH_USER"), Some(names[i]), None, None,
                                  None, None, None);
            && NobodyNew(c, c')
            && (e.delivers(|c.log|) ==>
                 c' == c.(log := c.log + [P.Sent(c.users.byName[me].fd, answer, true)]))
  {
    ConsistentMeansCopies(c);
    var s := Names(c);
    ListedAre(m.usernames.value, names);
    UnknownAt(s.users, names, i);
    R.InviteAgrees(s, e, m, me);
    UnknownRefused(s, e, m, me);
    var reply := P.Response("INVITE", "NO_SUCH_USER", Some(names[i]));
    assert reply == Message(RESPONSE, None, Some("INVITE"), Some("NO_SUCH_USER"), Some(names[i]), None, None, None,
                            None, None);
    hide N.Valid, Consistent, N.Invite, P.Invite, NobodyNew, E.Shrinks, N.FirstUnknown, P.Response, P.Values;
    ShrunkTables(s, N.Invite(s, e, m, me).0);
    if e.delivers(|s.log|) {
      R.LogOnly(s, s.log + [P.Sent(s.users[me].fd, reply, true)]);
    }
  }

  lemma UnknownRefused(s: N.State, e: P.Env, m: Message, me: string)
    requires P.Iterates(e) && N.Valid(s) && P.Dispatchable(m) && m.kind == INVITE
    requires m.roomname.Some? && m.roomname.value in s.rooms && m.usernames.Some?
    requires me in s.rooms[m.roomname.value].members && me in s.users
    requires exists n :: n in P.Values(m.usernames.value) && n !in s.users
    ensures var s' := N.Invite(s, e, m, me).0;
            var unknown := N.FirstUnknown(s.users, P.Values(m.usernames.value));
            && unknown.Some? && E.Shrinks(s.rooms, s'.rooms)
            && (e.delivers(|s.log|) ==> s' == s.(log := s.log +
                 [P.Sent(s.users[me].fd, P.Response("INVITE", "NO_SUCH_USER", unknown), true)]))
  {
    var names := P.Values(m.usernames.value);
    N.NoneUnknown(s.users, names);
    E.RepliesShrink(s, e, me, P.Response("INVITE", "NO_SUCH_USER", N.FirstUnknown(s.users, names)));
  }

  lemma ShrunkTables(s: N.State, s': N.State)
    requires N.Valid(s) && N.Valid(s') && E.Shrinks(s.rooms, s'.rooms)
    ensures NobodyNew(R.Copies(s), R.Copies(s'))
  {
  }

  /** The second loop of INVITE, when every listed name is known.  With `n` the place where it stops,
      the guests gain exactly the first `n` of the list, each is sent the invitation once, and no other
      room and no user changes; if a send fails, that invitee is let in and then fully disconnected. */
  lemma InviteKnown(c: P.State, e: P.Env, m: Message, me: string, names: seq<string>, n: nat)
    requires P.Iterates(e) && Consistent(c) && P.Dispatchable(m) && m.kind == INVITE
    requires m.roomname.Some? && m.roomname.value in c.rooms
    requires m.usernames.Some? && ListsNames(m.usernames.value, names)
    requires me in c.rooms[m.roomname.value].members.byName && me in c.users.byName
    requires forall x :: x in names ==> x in c.users.byName
    requires StopsAt(Names(c), e, m.roomname.value, names, n)
    ensures var room := m.roomname.value;
            var invitation := Message(INVITATION, Some(me), None, None, None, None, None, None, Some(room), None);
            var c' := P.Invite(c, e, m, c.users.byName[me].fd).0;
            && Consistent(c')
            && if n == Welcome(Names(c).rooms[room], names) then
                 Names(c') == LetIn(Names(c), e, room, invitation, names, n)
               else
                 && Names(c') == N.Disconnect(LetIn(Names(c), e, room, invitation, names, n + 1), e, names[n])
                 && NoTrace(c', names[n], c.users.byName[names[n]].fd)
  {
    ConsistentMeansCopies(c);
    var s := Names(c);
    ListedAre(m.usernames.value, names);
    R.InviteAgrees(s, e, m, me);
    var s' := N.Invite(s, e, m, me).0;
    WrittenOut(s');
    var invitation := BLANK.(kind := INVITATION, username := Some(me), roomname := m.roomname);
    assert invitation == Message(INVITATION, Some(me), None, None, None, None, None, None, m.roomname, None);
    hide N.Valid, Consistent, N.Disconnect, R.Copies, N.InviteEach, N.Invite, P.Invite, P.Iterates, P.Values;
    KnownInvited(s, e, m, me);
    InviteEachExact(s, e, m.roomname.value, invitation, names, n);
    if n < Welcome(s.rooms[m.roomname.value], names) {
      DisconnectedNames(LetIn(s, e, m.roomname.value, invitation, names, n + 1), e, names[n]);
    }
  }

  lemma KnownInvited(s: N.State, e: P.Env, m: Message, me: string)
    requires P.Iterates(e) && me in s.users && P.Dispatchable(m)
    requires m.roomname.Some? && m.roomname.value in s.rooms && m.usernames.Some?
    requires me in s.rooms[m.roomname.value].members
    requires forall x :: x in P.Values(m.usernames.value) ==> x in s.users
    ensures N.Invite(s, e, m, me).0
            == N.InviteEach(s, e, m.roomname.value,
                 BLANK.(kind := INVITATION, username := Some(me), roomname := m.roomname),
                 P.Values(m.usernames.value))
  {
    hide N.InviteEach;
    N.NoneUnknown(s.users, P.Values(m.usernames.value));
  }

  lemma DisconnectedNames(s: N.State, e: P.Env, n: string)
    requires P.Iterates(e) && n in s.users && N.Valid(N.Disconnect(s, e, n)) && N.UsersOk(s.users)
    ensures NoTrace(R.Copies(N.Disconnect(s, e, n)), n, s.users[n].fd)
  {
    NoTraceOfCopies(N.Disconnect(s, e, n), n, s.users[n].fd);
  }

  /** The place where the second loop stops always exists. */
  lemma {:induction false} SomewhereItStops(s: N.State, e: P.Env, room: string, names: seq<string>) returns (n: nat)
    requires room in s.rooms
    ensures StopsAt(s, e, room, names, n)
  {
    n := 0;
    while n < Welcome(s.rooms[room], names) && e.delivers(|s.log| + n)
      invariant n <= Welcome(s.rooms[room], names)
      invariant forall k :: |s.log| <= k < |s.log| + n ==> e.delivers(k)
    {
      n := n + 1;
    }
  }

  // --------------------------------------------------------------------------------- lists

  /** What a reader of the JSON object finds under each name. */
  ghost function ByName(users: Json): map<string, Json>
    requires users.JObject?
  {
    map f | f in users.fields && Find(users.fields, f.key).Some? :: f.key := Find(users.fields, f.key).value
  }

  ghost predicate Listed(fields: seq<Field>, n: string) {
    exists f :: f in fields && f.key == n
  }

  lemma FieldsStep(users: map<string, User>, names: seq<string>)
    requires names != [] && names[0] in users
    ensures P.UserFields(users, names)
            == [Field(names[0], JString(StatusName(users[names[0]].status)))] + P.UserFields(users, names[1..])
  {
  }

  lemma FindStep(first: Field, rest: seq<Field>, n: string)
    ensures Find([first] + rest, n) == if first.key == n then Some(first.value) else Find(rest, n)
    ensures Listed([first] + rest, n) <==> first.key == n || Listed(rest, n)
  {
  }

  lemma {:induction false} ListedUsers(users: map<string, User>, names: seq<string>, n: string)
    requires forall x :: x in names ==> x in users
    ensures Find(P.UserFields(users, names), n)
            == if n in names then Some(JString(StatusName(users[n].status))) else None
    ensures Listed(P.UserFields(users, names), n) <==> n in names
  {
    if names != [] {
      hide P.UserFields, Find, Listed, StatusName;
      ListedUsers(users, names[1..], n);
      FieldsStep(users, names);
      FindStep(Field(names[0], JString(StatusName(users[names[0]].status))), P.UserFields(users, names[1..]), n);
      assert n in names <==> n == names[0] || n in names[1..];
    } else {
      NothingListed(users, n);
    }
  }

  lemma NothingListed(users: map<string, User>, n: string)
    ensures Find(P.UserFields(users, []), n) == None && !Listed(P.UserFields(users, []), n)
  {
  }

  lemma ListAsMap(users: map<string, User>, names: seq<string>)
    requires forall n :: n in names <==> n in users
    ensures ByName(P.UsersObject(users, names)) == map n | n in users :: JString(StatusName(users[n].status))
  {
    hide P.UserFields, Find, StatusName;
    var m := ByName(P.UsersObject(users, names));
    forall n: string
      ensures n in m <==> n in users
      ensures n in users ==> m[n] == JString(StatusName(users[n].status))
    {
      ListedUsers(users, names, n);
    }
  }

  /** What ROOM_USERS sends is what USERS would send, restricted to the members of the room, in
      whatever order either is listed. */
  lemma RoomListIsUserList(c: P.State, room: string, all: seq<string>, some: seq<string>)
    requires Consistent(c) && room in c.rooms
    requires forall n :: n in all <==> n in c.users.byName
    requires forall n :: n in some <==> n in c.rooms[room].members.byName
    ensures var list := ByName(P.UsersObject(c.users.byName, all));
            ByName(P.UsersObject(c.rooms[room].members.byName, some))
            == map n | n in list && n in c.rooms[room].members.byName :: list[n]
  {
    hide ByName, P.UsersObject, StatusName, T.Inverse;
    ListAsMap(c.users.byName, all);
    ListAsMap(c.rooms[room].members.byName, some);
  }

  lemma ReplyEntry(c: P.State, e: P.Env, m: Message, me: string)
    requires P.Iterates(e) && Consistent(c) && me in c.users.byName
    ensures var fd := c.users.byName[me].fd;
            c.log + [P.Sent(fd, m, e.delivers(|c.log|))] <= P.Reply(c, e, fd, m).0.log
  {
    ConsistentMeansCopies(c);
    var s := Names(c);
    R.ReplyAgrees(s, e, me, m);
    E.DisconnectAppends(N.Send(s, e, s.users[me].fd, m).0, e, me);
  }

  /** What a member is sent for ROOM_USERS is, as a map, what it would be sent for USERS in the same state,
      restricted to the members of the room. */
  lemma RoomListSent(c: P.State, e: P.Env, m: Message, me: string, room: string)
    returns (list: Json, all: Json)
    requires P.Iterates(e) && Consistent(c) && m.roomname == Some(room) && room in c.rooms
    requires me in c.rooms[room].members.byName && me in c.users.byName
    ensures var fd := c.users.byName[me].fd;
            var ok := e.delivers(|c.log|);
            var roomList := BLANK.(kind := ROOM_USER_LIST, roomname := Some(room), users := Some(list));
            var userList := BLANK.(kind := USER_LIST, users := Some(all));
            && c.log + [P.Sent(fd, roomList, ok)] <= P.RoomUsers(c, e, m, fd).0.log
            && c.log + [P.Sent(fd, userList, ok)] <= P.ListUsers(c, e, fd).0.log
    ensures list.JObject? && all.JObject?
    ensures ByName(list) == map n | n in ByName(all) && n in c.rooms[room].members.byName :: ByName(all)[n]
  {
    var users, members := c.users.byName, c.rooms[room].members.byName;
    var someNames, allNames := e.order(|c.log|, members.Keys), e.order(|c.log|, users.Keys);
    list, all := P.UsersObject(members, someNames), P.UsersObject(users, allNames);
    MemberFound(c, me, room);
    ReplyEntry(c, e, BLANK.(kind := ROOM_USER_LIST, roomname := Some(room), users := Some(list)), me);
    ReplyEntry(c, e, BLANK.(kind := USER_LIST, users := Some(all)), me);
    hide P.Reply, ByName, Consistent;
    RoomListIsUserList(c, room, allNames, someNames);
  }

  lemma MemberFound(c: P.State, me: string, room: string)
    requires Consistent(c) && room in c.rooms && me in c.rooms[room].members.byName && me in c.users.byName
    ensures var u := c.users.byName[me];
            T.FindByFd(c.users, u.fd) == Some(u) && P.IsMember(c, room, u.fd)
  {
    assert CopiedFrom(c.users, c.rooms[room].members);
  }
}
