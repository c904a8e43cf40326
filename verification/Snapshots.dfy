/** Handlers carry copies of user records from one lock to the next (message_handler.c:563-624).  One step
    is one call on the users table or one pass over the rooms; between two calls of a handler any other
    threads may make theirs.  A thread here may make its calls in any order that the handlers could, and
    more: it only needs a copy before it uses one, and removes a user right after it has purged the rooms of
    that user. */
module Snapshots {
  import opened Base
  import T = UserTables
  import opened Traces

  datatype Slot = Members(room: string) | Guests(room: string)

  datatype Key = Key(slot: Slot, name: string)

  /** A record as it was in the users table when the history had `since` entries. */
  datatype Copy = Copy(name: string, fd: int, status: UserStatus, since: nat)

  /** Where an entry of a room comes from: the copy, and how long the history was when it was put in. */
  datatype Mark = Mark(copy: Copy, put: nat)

  datatype Event =
    | Added(name: string, fd: int)
    | Removed(name: string, who: nat)
    | StatusSet(name: string, status: UserStatus)
    | Purged(name: string, who: nat)
    | Spread(status: UserStatus, reached: set<Key>)

  /** The tables, the copies each thread has made, and the one, if any, whose user the thread has purged from
      the rooms and is about to remove; the marks and the history are only there to be talked about. */
  datatype State = State(users: T.Table, rooms: map<Slot, T.Table>, seen: map<nat, set<Copy>>,
                         leaving: map<nat, Copy>, marks: map<Key, Mark>, history: seq<Event>)

  const START := State(T.EMPTY, map[], map[], map[], map[], [])

  datatype Call =
    | Enter(name: string)                      // users_table_add
    | Look(name: string)                       // a find, by name or by descriptor
    | Set(copy: Copy, status: UserStatus)      // users_table_change_status_by_client_fd
    | Show(copy: Copy, status: UserStatus)     // room_update_status in every room
    | Put(slot: Slot, copy: Copy)              // room_add_creator, room_add_to_guests, room_from_guest_to_member
    | Take(slot: Slot, copy: Copy)             // room_leave, room_from_guest_to_member
    | CloseRoom(room: string)                  // room_table_remove
    | Purge(copy: Copy)                        // room_remove_data in every room
    | Drop(copy: Copy)                         // users_table_remove

  /** A call of the thread of one descriptor. */
  datatype Move = Move(fd: nat, call: Call)

  function CopiesOf(copies: map<nat, set<Copy>>, fd: nat): set<Copy> {
    if fd in copies then copies[fd] else {}
  }

  function TableAt(rooms: map<Slot, T.Table>, slot: Slot): T.Table {
    if slot in rooms then rooms[slot] else T.EMPTY
  }

  /** The entries that a pass over the rooms finds under a descriptor. */
  function Under(rooms: map<Slot, T.Table>, fd: int): set<Key> {
    set slot | slot in rooms && fd in rooms[slot].byFd :: Key(slot, rooms[slot].byFd[fd])
  }

  function Record(s: State, e: Event): State {
    s.(history := s.history + [e])
  }

  /** A thread that has purged the rooms does nothing else before it removes the user. */
  function Step(s: State, m: Move): State {
    if m.fd in s.leaving then
      if m.call == Drop(s.leaving[m.fd]) then Leave(s, m.fd, s.leaving[m.fd].name) else s
    else Go(s, m)
  }

  /** `users_table_remove`, the last call of the two. */
  function Leave(s: State, fd: nat, name: string): State {
    var s1 := s.(leaving := s.leaving - {fd});
    if name !in s.users.byName then s1
    else Record(s1.(users := T.Remove(s.users, name).0), Removed(name, fd))
  }

  function Go(s: State, m: Move): State {
    match m.call
    case Enter(name) =>
      if m.fd in s.users.byFd || !T.Add(s.users, name, m.fd).1 then s
      else Record(s.(users := T.Add(s.users, name, m.fd).0), Added(name, m.fd))
    case Look(name) =>
      (match T.FindByName(s.users, name)
       case None => s
       case Some(u) =>
         var copy := Copy(name, u.fd, u.status, |s.history|);
         s.(seen := s.seen[m.fd := CopiesOf(s.seen, m.fd) + {copy}]))
    case Set(copy, status) =>
      if copy !in CopiesOf(s.seen, m.fd) || copy.fd !in s.users.byFd then s
      else
        Record(s.(users := T.ChangeStatusByFd(s.users, copy.fd, status).0), StatusSet(s.users.byFd[copy.fd], status))
    case Show(copy, status) =>
      if copy !in CopiesOf(s.seen, m.fd) then s
      else
        var rooms := map slot | slot in s.rooms :: T.ChangeStatusByFd(s.rooms[slot], copy.fd, status).0;
        Record(s.(rooms := rooms), Spread(status, Under(s.rooms, copy.fd)))
    case Put(slot, copy) =>
      var (table, added) := T.AddWithStatus(TableAt(s.rooms, slot), copy.name, copy.fd, copy.status);
      if copy !in CopiesOf(s.seen, m.fd) || !added then s
      else
        s.(rooms := s.rooms[slot := table], marks := s.marks[Key(slot, copy.name) := Mark(copy, |s.history|)])
    case Take(slot, copy) =>
      if copy !in CopiesOf(s.seen, m.fd) || slot !in s.rooms then s
      else s.(rooms := s.rooms[slot := T.Remove(s.rooms[slot], copy.name).0])
    case CloseRoom(room) => s.(rooms := s.rooms - {Members(room), Guests(room)})
    case Purge(copy) =>
      if copy !in CopiesOf(s.seen, m.fd) then s
      else
        var rooms := map slot | slot in s.rooms :: T.Remove(s.rooms[slot], copy.name).0;
        Record(s.(rooms := rooms, leaving := s.leaving[m.fd := copy]), Purged(copy.name, m.fd))
    case Drop(_) => s
  }

  // -------------------------------------------------------------------------------- history

  /** The user was removed at entry `i`, and the same client has not taken the name again. */
  ghost predicate LostAt(h: seq<Event>, c: Copy, i: nat)
    requires i < |h|
  {
    h[i].Removed? && h[i].name == c.name && forall k :: i < k < |h| ==> h[k] != Added(c.name, c.fd)
  }

  ghost predicate Lost(h: seq<Event>, c: Copy) {
    exists i :: c.since <= i < |h| && LostAt(h, c, i)
  }

  ghost predicate NotPurged(h: seq<Event>, name: string, from: nat) {
    forall i :: from <= i < |h| && h[i].Purged? ==> h[i].name != name
  }

  predicate ActsAs(e: Event, who: nat) {
    (e.Removed? || e.Purged?) && e.who == who
  }

  /** At entry `j` the thread has purged the rooms of the user, and up to entry `i` it has neither purged nor
      removed anybody. */
  ghost predicate LastPurge(h: seq<Event>, j: nat, i: nat, name: string, who: nat)
    requires j < i <= |h|
  {
    h[j] == Purged(name, who) && forall k :: j < k < i ==> !ActsAs(h[k], who)
  }

  ghost predicate JustPurged(h: seq<Event>, i: nat, name: string, who: nat)
    requires i <= |h|
  {
    exists j :: 0 <= j < i && LastPurge(h, j, i, name, who)
  }

  /** Nobody is removed whom the same thread has not purged from the rooms just before. */
  ghost predicate PurgedFirst(h: seq<Event>) {
    forall i :: 0 <= i < |h| && h[i].Removed? ==> JustPurged(h, i, h[i].name, h[i].who)
  }

  /** The status last set for the name from entry `since` on; to be added is to be active. */
  function LastSet(h: seq<Event>, name: string, since: nat, otherwise: UserStatus): UserStatus
    decreases h
  {
    if |h| <= since then otherwise
    else
      var last := h[|h| - 1];
      if last.StatusSet? && last.name == name then last.status
      else if last.Added? && last.name == name then ACTIVE
      else LastSet(h[..|h| - 1], name, since, otherwise)
  }

  /** The status last written into an entry from entry `from` on. */
  function LastSpread(h: seq<Event>, key: Key, from: nat, otherwise: UserStatus): UserStatus
    decreases h
  {
    if |h| <= from then otherwise
    else
      var last := h[|h| - 1];
      if last.Spread? && key in last.reached then last.status else LastSpread(h[..|h| - 1], key, from, otherwise)
  }

  // ------------------------------------------------------------------------------- invariant

  predicate Has(t: T.Table, c: Copy) {
    c.name in t.byName && t.byName[c.name].fd == c.fd
  }

  /** What became of the record that was copied. */
  ghost predicate Faithful(t: T.Table, h: seq<Event>, c: Copy) {
    && c.since <= |h|
    && (Has(t, c) <==> !Lost(h, c))
    && (c.name in t.byName ==> t.byName[c.name].status == LastSet(h, c.name, c.since, c.status))
  }

  /** An entry of a room, and where it comes from. */
  ghost predicate EntryOk(h: seq<Event>, u: User, mark: Mark, key: Key) {
    && mark.copy.since <= mark.put <= |h|
    && u.name == mark.copy.name == key.name && u.fd == mark.copy.fd
    && u.status == LastSpread(h, key, mark.put, mark.copy.status)
    && NotPurged(h, key.name, mark.put)
  }

  ghost predicate CopiesOk(s: State) {
    forall fd, c :: fd in s.seen && c in s.seen[fd] ==> Faithful(s.users, s.history, c)
  }

  ghost predicate EntriesOk(s: State) {
    forall slot, n :: slot in s.rooms && n in s.rooms[slot].byName ==> EntryOkAt(s, slot, n)
  }

  ghost predicate EntryOkAt(s: State, slot: Slot, n: string)
    requires slot in s.rooms && n in s.rooms[slot].byName
  {
    var key := Key(slot, n);
    && key in s.marks
    && EntryOk(s.history, s.rooms[slot].byName[n], s.marks[key], key)
    && Faithful(s.users, s.history, s.marks[key].copy)
  }

  ghost predicate PurgesOk(s: State) {
    forall fd :: fd in s.leaving ==> JustPurged(s.history, |s.history|, s.leaving[fd].name, fd)
  }

  ghost predicate Inv(s: State) {
    && T.Inverse(s.users)
    && (forall slot :: slot in s.rooms ==> T.Linked(s.rooms[slot]))
    && CopiesOk(s) && EntriesOk(s) && PurgesOk(s) && PurgedFirst(s.history)
  }

  // ---------------------------------------------------------------------------- one event more

  /** What an event of the users table does to it; the others leave it alone. */
  ghost predicate Does(t: T.Table, e: Event, t': T.Table) {
    match e
    case Added(name, fd) => name !in t.byName && t'.byName == t.byName[name := User(name, fd, ACTIVE)]
    case Removed(name, _) => name in t.byName && t'.byName == t.byName - {name}
    case StatusSet(name, status) =>
      name in t.byName && t'.byName == t.byName[name := t.byName[name].(status := status)]
    case _ => t'.byName == t.byName
  }

  lemma LostLater(h: seq<Event>, e: Event, c: Copy)
    requires c.since <= |h|
    ensures Lost(h + [e], c)
            <==> (e.Removed? && e.name == c.name) || (Lost(h, c) && e != Added(c.name, c.fd))
  {
    var h' := h + [e];
    assert h'[|h|] == e;
    forall i: nat | i < |h|
      ensures LostAt(h', c, i) <==> LostAt(h, c, i) && e != Added(c.name, c.fd)
    {
      assert h'[i] == h[i];
      assert forall k :: i < k < |h| ==> h'[k] == h[k];
    }
    if e.Removed? && e.name == c.name {
      assert LostAt(h', c, |h|);
    }
    if Lost(h, c) && e != Added(c.name, c.fd) {
      var i :| c.since <= i < |h| && LostAt(h, c, i);
      assert LostAt(h', c, i);
    }
  }

  lemma LastSetLater(h: seq<Event>, e: Event, name: string, since: nat, otherwise: UserStatus)
    requires since <= |h|
    ensures LastSet(h + [e], name, since, otherwise)
            == if e.StatusSet? && e.name == name then e.status
               else if e.Added? && e.name == name then ACTIVE
               else LastSet(h, name, since, otherwise)
  {
    assert (h + [e])[..|h|] == h;
  }

  lemma LastSpreadLater(h: seq<Event>, e: Event, key: Key, from: nat, otherwise: UserStatus)
    requires from <= |h|
    ensures LastSpread(h + [e], key, from, otherwise)
            == if e.Spread? && key in e.reached then e.status else LastSpread(h, key, from, otherwise)
  {
    assert (h + [e])[..|h|] == h;
  }

  lemma FaithfulLater(t: T.Table, h: seq<Event>, e: Event, t': T.Table, c: Copy)
    requires Faithful(t, h, c) && Does(t, e, t')
    ensures Faithful(t', h + [e], c)
  {
    LostLater(h, e, c);
    LastSetLater(h, e, c.name, c.since, c.status);
    hide Lost, LastSet;
  }

  lemma EntryLater(h: seq<Event>, e: Event, u: User, mark: Mark, key: Key)
    requires EntryOk(h, u, mark, key) && !(e.Purged? && e.name == key.name)
    ensures EntryOk(h + [e], if e.Spread? && key in e.reached then u.(status := e.status) else u, mark, key)
  {
    LastSpreadLater(h, e, key, mark.put, mark.copy.status);
    var h' := h + [e];
    assert h'[|h|] == e && forall i :: 0 <= i < |h| ==> h'[i] == h[i];
  }

  lemma PurgedLater(h: seq<Event>, e: Event, name: string, who: nat)
    requires JustPurged(h, |h|, name, who) && !ActsAs(e, who)
    ensures JustPurged(h + [e], |h| + 1, name, who)
  {
    var j :| 0 <= j < |h| && LastPurge(h, j, |h|, name, who);
    assert LastPurge(h + [e], j, |h| + 1, name, who);
  }

  lemma SamePurge(h: seq<Event>, e: Event, i: nat, name: string, who: nat)
    requires i <= |h| && JustPurged(h, i, name, who)
    ensures JustPurged(h + [e], i, name, who)
  {
    var j :| 0 <= j < i && LastPurge(h, j, i, name, who);
    assert LastPurge(h + [e], j, i, name, who);
  }

  lemma PurgedFirstLater(h: seq<Event>, e: Event)
    requires PurgedFirst(h) && (e.Removed? ==> JustPurged(h, |h|, e.name, e.who))
    ensures PurgedFirst(h + [e])
  {
    hide JustPurged;
    var h' := h + [e];
    forall i | 0 <= i < |h'| && h'[i].Removed?
      ensures JustPurged(h', i, h'[i].name, h'[i].who)
    {
      if i < |h| {
        assert h'[i] == h[i];
        SamePurge(h, e, i, h[i].name, h[i].who);
      } else {
        SamePurge(h, e, |h|, e.name, e.who);
      }
    }
  }

  lemma CopiesLater(s: State, s': State, e: Event)
    requires CopiesOk(s) && s'.history == s.history + [e] && Does(s.users, e, s'.users) && s'.seen == s.seen
    ensures CopiesOk(s')
  {
    hide Faithful, Does;
    forall fd, c | fd in s'.seen && c in s'.seen[fd]
      ensures Faithful(s'.users, s'.history, c)
    {
      FaithfulLater(s.users, s.history, e, s'.users, c);
    }
  }

  lemma PurgesLater(s: State, s': State, e: Event)
    requires PurgesOk(s) && s'.history == s.history + [e]
    requires forall fd :: fd in s'.leaving ==> fd in s.leaving && s'.leaving[fd] == s.leaving[fd] && !ActsAs(e, fd)
    ensures PurgesOk(s')
  {
    hide JustPurged;
    forall fd | fd in s'.leaving
      ensures JustPurged(s'.history, |s'.history|, s'.leaving[fd].name, fd)
    {
      PurgedLater(s.history, e, s.leaving[fd].name, fd);
    }
  }

  /** The entries of the rooms after an event: some are gone, and those a change of status has reached are
      changed. */
  ghost predicate Kept(s: State, s': State, e: Event) {
    forall slot, n :: slot in s'.rooms && n in s'.rooms[slot].byName ==> KeptAt(s, s', e, slot, n)
  }

  ghost predicate KeptAt(s: State, s': State, e: Event, slot: Slot, n: string)
    requires slot in s'.rooms && n in s'.rooms[slot].byName
  {
    && slot in s.rooms && n in s.rooms[slot].byName && !(e.Purged? && e.name == n)
    && var u := s.rooms[slot].byName[n];
       s'.rooms[slot].byName[n] == if e.Spread? && Key(slot, n) in e.reached then u.(status := e.status) else u
  }

  lemma EntriesLater(s: State, s': State, e: Event)
    requires EntriesOk(s) && s'.history == s.history + [e] && Does(s.users, e, s'.users) && s'.marks == s.marks
    requires Kept(s, s', e)
    ensures EntriesOk(s')
  {
    hide Faithful, Does, EntryOk;
    forall slot, n | slot in s'.rooms && n in s'.rooms[slot].byName
      ensures EntryOkAt(s', slot, n)
    {
      assert KeptAt(s, s', e, slot, n);
      assert EntryOkAt(s, slot, n);
      var key := Key(slot, n);
      EntryLater(s.history, e, s.rooms[slot].byName[n], s.marks[key], key);
      FaithfulLater(s.users, s.history, e, s'.users, s.marks[key].copy);
    }
  }

  // ------------------------------------------------------------------------------- every call

  /** A call that only makes an entry of the history about the users table. */
  lemma MasterStepKeeps(s: State, s': State, e: Event)
    requires Inv(s) && s' == s.(users := s'.users, leaving := s'.leaving, history := s.history + [e])
    requires (e.Added? || e.Removed? || e.StatusSet?) && Does(s.users, e, s'.users) && T.Inverse(s'.users)
    requires e.Removed? ==> JustPurged(s.history, |s.history|, e.name, e.who)
    requires forall fd :: fd in s'.leaving ==> fd in s.leaving && s'.leaving[fd] == s.leaving[fd] && !ActsAs(e, fd)
    ensures Inv(s')
  {
    hide T.Inverse, T.Linked, CopiesOk, EntriesOk, PurgesOk, PurgedFirst, JustPurged, Does;
    CopiesLater(s, s', e);
    assert Kept(s, s', e);
    EntriesLater(s, s', e);
    PurgesLater(s, s', e);
    PurgedFirstLater(s.history, e);
  }

  lemma EnterKeeps(s: State, m: Move)
    requires Inv(s) && m.call.Enter?
    ensures Inv(Go(s, m))
  {
    var s' := Go(s, m);
    if s' != s {
      T.InverseKept(s.users, T.OpAdd(m.call.name, m.fd));
      assert Does(s.users, Added(m.call.name, m.fd), s'.users);
      hide Inv, T.Inverse, Does;
      MasterStepKeeps(s, s', Added(m.call.name, m.fd));
    }
  }

  lemma SetKeeps(s: State, m: Move)
    requires Inv(s) && m.call.Set?
    ensures Inv(Go(s, m))
  {
    var s' := Go(s, m);
    if s' != s {
      var c := m.call.copy;
      T.InverseKept(s.users, T.OpStatusByFd(c.fd, m.call.status));
      assert Does(s.users, StatusSet(s.users.byFd[c.fd], m.call.status), s'.users);
      hide Inv, T.Inverse, Does;
      MasterStepKeeps(s, s', StatusSet(s.users.byFd[c.fd], m.call.status));
    }
  }

  lemma LeaveKeeps(s: State, fd: nat)
    requires Inv(s) && fd in s.leaving
    ensures Inv(Leave(s, fd, s.leaving[fd].name))
  {
    var name := s.leaving[fd].name;
    var s' := Leave(s, fd, name);
    if name in s.users.byName {
      T.InverseKept(s.users, T.OpRemove(name));
      assert Does(s.users, Removed(name, fd), s'.users);
      assert JustPurged(s.history, |s.history|, name, fd);
      hide Inv, T.Inverse, Does, JustPurged;
      MasterStepKeeps(s, s', Removed(name, fd));
    } else {
      hide Faithful, T.Inverse, T.Linked, JustPurged, PurgedFirst, EntryOk;
      SameEntries(s, s');
    }
  }

  /** A copy of a record is faithful when it is made. */
  lemma FreshCopy(t: T.Table, h: seq<Event>, name: string)
    requires T.Inverse(t) && name in t.byName
    ensures Faithful(t, h, Copy(name, t.byName[name].fd, t.byName[name].status, |h|))
  {
  }

  lemma LookKeeps(s: State, m: Move)
    requires Inv(s) && m.call.Look?
    ensures Inv(Go(s, m))
  {
    var name := m.call.name;
    if name in s.users.byName {
      FreshCopy(s.users, s.history, name);
      hide Faithful, T.Inverse, T.Linked, PurgesOk, PurgedFirst, EntryOk;
      var s' := Go(s, m);
      assert EntriesOk(s') by {
        SameEntries(s, s');
      }
    }
  }

  lemma SameEntries(s: State, s': State)
    requires EntriesOk(s) && s' == s.(seen := s'.seen, leaving := s'.leaving)
    ensures EntriesOk(s')
  {
    hide Faithful, EntryOk;
    forall slot, n | slot in s'.rooms && n in s'.rooms[slot].byName
      ensures EntryOkAt(s', slot, n)
    {
      assert EntryOkAt(s, slot, n);
    }
  }

  /** Calls that only take entries out of the rooms. */
  lemma FewerKeeps(s: State, s': State)
    requires Inv(s) && s' == s.(rooms := s'.rooms)
    requires forall slot :: slot in s'.rooms ==>
               slot in s.rooms && T.Linked(s'.rooms[slot]) && SubTable(s'.rooms[slot], s.rooms[slot])
    ensures Inv(s')
  {
    hide Faithful, EntryOk, T.Inverse, T.Linked, PurgedFirst;
    forall slot, n | slot in s'.rooms && n in s'.rooms[slot].byName
      ensures EntryOkAt(s', slot, n)
    {
      assert SubTable(s'.rooms[slot], s.rooms[slot]);
      assert EntryOkAt(s, slot, n);
    }
  }

  ghost predicate SubTable(t: T.Table, t': T.Table) {
    forall n :: n in t.byName ==> n in t'.byName && t.byName[n] == t'.byName[n]
  }

  lemma RemoveLinked(t: T.Table, name: string)
    requires T.Linked(t)
    ensures T.Linked(T.Remove(t, name).0) && SubTable(T.Remove(t, name).0, t) && name !in T.Remove(t, name).0.byName
  {
    T.LinkedKept(t, T.OpRemove(name));
  }

  lemma TakeKeeps(s: State, m: Move)
    requires Inv(s) && (m.call.Take? || m.call.CloseRoom?)
    ensures Inv(Go(s, m))
  {
    var s' := Go(s, m);
    if m.call.Take? && m.call.slot in s.rooms {
      RemoveLinked(s.rooms[m.call.slot], m.call.copy.name);
    }
    hide Inv, T.Linked, T.Remove;
    forall slot | slot in s'.rooms
      ensures slot in s.rooms && T.Linked(s'.rooms[slot]) && SubTable(s'.rooms[slot], s.rooms[slot])
    {
      RoomsLinked(s, slot);
    }
    FewerKeeps(s, s');
  }

  lemma RoomsLinked(s: State, slot: Slot)
    requires Inv(s)
    ensures slot in s.rooms ==> T.Linked(s.rooms[slot])
  {
  }

  lemma PutKeeps(s: State, m: Move)
    requires Inv(s) && m.call.Put?
    ensures Inv(Go(s, m))
  {
    var s' := Go(s, m);
    if s' != s {
      var slot, c := m.call.slot, m.call.copy;
      T.LinkedKept(TableAt(s.rooms, slot), T.OpAddWithStatus(c.name, c.fd, c.status));
      assert Faithful(s.users, s.history, c);
      hide Faithful, EntryOk, T.Inverse, T.Linked, PurgesOk, PurgedFirst, EntriesOk;
      PutEntries(s, s', slot, c);
    }
  }

  lemma PutEntries(s: State, s': State, slot: Slot, c: Copy)
    requires EntriesOk(s) && Faithful(s.users, s.history, c) && slot in s'.rooms
    requires s' == s.(rooms := s.rooms[slot := s'.rooms[slot]],
                      marks := s.marks[Key(slot, c.name) := Mark(c, |s.history|)])
    requires s'.rooms[slot].byName == TableAt(s.rooms, slot).byName[c.name := User(c.name, c.fd, c.status)]
    ensures EntriesOk(s')
  {
    NewEntry(s.history, c);
    hide Faithful, EntryOk;
    forall slot', n | slot' in s'.rooms && n in s'.rooms[slot'].byName
      ensures EntryOkAt(s', slot', n)
    {
      if slot' != slot || n != c.name {
        assert EntryOkAt(s, slot', n);
      }
    }
  }

  lemma NewEntry(h: seq<Event>, c: Copy)
    requires c.since <= |h|
    ensures forall slot :: EntryOk(h, User(c.name, c.fd, c.status), Mark(c, |h|), Key(slot, c.name))
  {
  }

  lemma ShowKeeps(s: State, m: Move)
    requires Inv(s) && m.call.Show?
    ensures Inv(Go(s, m))
  {
    var s' := Go(s, m);
    if s' != s {
      var fd, status := m.call.copy.fd, m.call.status;
      var e := Spread(status, Under(s.rooms, fd));
      hide CopiesOk, EntriesOk, PurgesOk, PurgedFirst, T.Inverse;
      forall slot | slot in s'.rooms
        ensures T.Linked(s'.rooms[slot])
      {
        T.LinkedKept(s.rooms[slot], T.OpStatusByFd(fd, status));
      }
      forall slot, n | slot in s'.rooms && n in s'.rooms[slot].byName
        ensures KeptAt(s, s', e, slot, n)
      {
        ReachedExactly(s.rooms, fd, slot, n);
      }
      hide T.Linked, KeptAt;
      CopiesLater(s, s', e);
      EntriesLater(s, s', e);
      PurgesLater(s, s', e);
      PurgedFirstLater(s.history, e);
    }
  }

  lemma ReachedExactly(rooms: map<Slot, T.Table>, fd: int, slot: Slot, n: string)
    requires slot in rooms
    ensures Key(slot, n) in Under(rooms, fd) <==> fd in rooms[slot].byFd && rooms[slot].byFd[fd] == n
  {
  }

  lemma PurgeKeeps(s: State, m: Move)
    requires Inv(s) && m.call.Purge? && m.fd !in s.leaving
    ensures Inv(Go(s, m))
  {
    var s' := Go(s, m);
    var c := m.call.copy;
    if c in CopiesOf(s.seen, m.fd) {
      var e := Purged(c.name, m.fd);
      hide CopiesOk, EntriesOk, PurgesOk, PurgedFirst, T.Inverse, T.Linked, T.Remove;
      forall slot | slot in s'.rooms
        ensures T.Linked(s'.rooms[slot]) && SubTable(s'.rooms[slot], s.rooms[slot])
        ensures c.name !in s'.rooms[slot].byName
      {
        RemoveLinked(s.rooms[slot], c.name);
      }
      assert Kept(s, s', e);
      CopiesLater(s, s', e);
      EntriesLater(s, s', e);
      PurgesGrow(s, s', m.fd, c);
      PurgedFirstLater(s.history, e);
    }
  }

  lemma PurgesGrow(s: State, s': State, fd: nat, c: Copy)
    requires PurgesOk(s) && fd !in s.leaving && s'.history == s.history + [Purged(c.name, fd)]
    requires s'.leaving == s.leaving[fd := c]
    ensures PurgesOk(s')
  {
    var e := Purged(c.name, fd);
    assert LastPurge(s'.history, |s.history|, |s'.history|, c.name, fd);
    hide JustPurged;
    forall fd' | fd' in s'.leaving
      ensures JustPurged(s'.history, |s'.history|, s'.leaving[fd'].name, fd')
    {
      if fd' != fd {
        PurgedLater(s.history, e, s.leaving[fd'].name, fd');
      } else {
        Purger(s'.history, |s.history|, c.name, fd);
      }
    }
  }

  lemma Purger(h: seq<Event>, j: nat, name: string, who: nat)
    requires j < |h| && LastPurge(h, j, |h|, name, who)
    ensures JustPurged(h, |h|, name, who)
  {
  }

  lemma StepKeeps(s: State, m: Move)
    requires Inv(s)
    ensures Inv(Step(s, m))
  {
    hide Inv, Go, Leave;
    if m.fd in s.leaving {
      LeaveKeeps(s, m.fd);
    } else {
      GoKeeps(s, m);
    }
  }

  lemma GoKeeps(s: State, m: Move)
    requires Inv(s) && m.fd !in s.leaving
    ensures Inv(Go(s, m))
  {
    match m.call
    case Enter(_) => EnterKeeps(s, m);
    case Look(_) => LookKeeps(s, m);
    case Set(_, _) => SetKeeps(s, m);
    case Show(_, _) => ShowKeeps(s, m);
    case Put(_, _) => PutKeeps(s, m);
    case Take(_, _) => TakeKeeps(s, m);
    case CloseRoom(_) => TakeKeeps(s, m);
    case Purge(_) => PurgeKeeps(s, m);
    case Drop(_) =>
  }

  lemma {:induction false} RunKeeps(s: State, moves: seq<Move>)
    requires Inv(s)
    ensures Inv(Run(Step, s, moves))
    decreases moves
  {
    hide Inv, Step;
    if moves == [] {
    } else {
      StepKeeps(s, moves[0]);
      RunKeeps(Step(s, moves[0]), moves[1..]);
    }
  }

  // ------------------------------------------------------------------------- what follows

  /** The user was removed after the copy was made, and has not taken the name again; and the thread that
      removed it had gone through the rooms, on its way to that removal, before the copy was put in.  So the
      way of the copy and the removal overlap. */
  ghost predicate Overtaken(h: seq<Event>, mark: Mark) {
    exists i, j :: 0 <= j < i < |h| && OvertakenBy(h, mark, i, j)
  }

  ghost predicate OvertakenBy(h: seq<Event>, mark: Mark, i: nat, j: nat)
    requires j < i < |h|
  {
    && mark.copy.since <= i && LostAt(h, mark.copy, i)
    && LastPurge(h, j, i, h[i].name, h[i].who) && j < mark.put
  }

  /** Over every interleaving: an entry of a room lacks its record in the users table exactly if its copy
      was overtaken by a removal.  As long as the record is there, the entry differs from it exactly if the
      status last set since the copy was made (a client who came back is active) is not the one last
      written into the entry since it was put in. */
  lemma StaleExactly(moves: seq<Move>, slot: Slot, n: string)
    requires slot in Run(Step, START, moves).rooms && n in Run(Step, START, moves).rooms[slot].byName
    ensures Key(slot, n) in Run(Step, START, moves).marks
    ensures var s := Run(Step, START, moves);
            var key := Key(slot, n);
            var u := s.rooms[slot].byName[n];
            var c := s.marks[key].copy;
            && c.name == u.name == n && c.fd == u.fd
            && (Has(s.users, c) <==> !Overtaken(s.history, s.marks[key]))
            && (Has(s.users, c) ==>
                 (u == s.users.byName[n] <==>
                     LastSpread(s.history, key, s.marks[key].put, c.status)
                     == LastSet(s.history, n, c.since, c.status)))
  {
    StartKeeps();
    RunKeeps(START, moves);
    var s := Run(Step, START, moves);
    hide Run, LastSet, LastSpread;
    assert EntryOkAt(s, slot, n);
    LostIsOvertaken(s.history, s.marks[Key(slot, n)]);
  }

  lemma LostIsOvertaken(h: seq<Event>, mark: Mark)
    requires PurgedFirst(h) && NotPurged(h, mark.copy.name, mark.put)
    ensures Lost(h, mark.copy) <==> Overtaken(h, mark)
  {
    if Lost(h, mark.copy) {
      var i :| mark.copy.since <= i < |h| && LostAt(h, mark.copy, i);
      assert JustPurged(h, i, h[i].name, h[i].who);
      var j :| 0 <= j < i && LastPurge(h, j, i, h[i].name, h[i].who);
      assert OvertakenBy(h, mark, i, j);
    }
  }

  lemma StartKeeps()
    ensures Inv(START)
  {
  }

  // --------------------------------------------------------------- the case where it happens

  /** INVITE overtaken by a DISCONNECT of the invited: `host`, a member, has found `guest` and made its copy;
      `guest` disconnects; and then the copy is put into the guests of the room.  The room has a guest who is
      no user. */
  lemma InviteMayOutliveItsGuest(host: nat, guest: nat, hostName: string, guestName: string, room: string)
    returns (s: State)
    requires host != guest && hostName != guestName && UsernameOk(hostName) && UsernameOk(guestName)
    ensures Reachable(Step, START, s) && Members(room) in s.rooms && Guests(room) in s.rooms
    ensures hostName in s.rooms[Members(room)].byName && hostName in s.users.byName
    ensures guestName in s.rooms[Guests(room)].byName && guestName !in s.users.byName
    ensures exists i :: 0 <= i < |s.history| && s.history[i] == Removed(guestName, guest)
  {
    s := RoomOpened(host, guest, hostName, guestName, room);
    hide Reachable, Run;
    s := Then(Step, START, s, Move(host, Look(guestName)));
    var c := Copy(guestName, guest, ACTIVE, |s.history|);
    s := Disconnects(s, guest, guestName);
    s := Then(Step, START, s, Move(host, Put(Guests(room), c)));
  }

  /** INVITE overtaken by a STATUS of the invited: the new status is spread over the rooms before the copy,
      which has the old one, is put in. */
  lemma InviteMayMissAStatus(host: nat, guest: nat, hostName: string, guestName: string, room: string)
    returns (s: State)
    requires host != guest && hostName != guestName && UsernameOk(hostName) && UsernameOk(guestName)
    ensures Reachable(Step, START, s) && Guests(room) in s.rooms && guestName in s.rooms[Guests(room)].byName
    ensures s.rooms[Guests(room)].byName[guestName] == User(guestName, guest, ACTIVE)
    ensures guestName in s.users.byName && s.users.byName[guestName] == User(guestName, guest, BUSY)
  {
    s := RoomOpened(host, guest, hostName, guestName, room);
    hide Reachable, Run;
    s := Then(Step, START, s, Move(host, Look(guestName)));
    var c := Copy(guestName, guest, ACTIVE, |s.history|);
    s := ShowsStatus(s, guest, guestName, BUSY);
    s := Then(Step, START, s, Move(host, Put(Guests(room), c)));
  }

  /** STATUS without being overtaken. */
  lemma ShowsStatus(s: State, fd: nat, name: string, status: UserStatus) returns (s': State)
    requires Reachable(Step, START, s) && name in s.users.byName && fd !in s.seen && s.leaving == map[]
    requires s.users.byName[name].name == name && s.users.byName[name].fd == fd
    requires fd in s.users.byFd && s.users.byFd[fd] == name
    ensures Reachable(Step, START, s') && s'.rooms.Keys == s.rooms.Keys && s'.leaving == map[]
    ensures name in s'.users.byName && s'.users.byName[name] == User(name, fd, status)
    ensures forall fd' :: fd' in s.seen ==> fd' in s'.seen && s'.seen[fd'] == s.seen[fd']
  {
    hide Reachable, Run;
    s' := Then(Step, START, s, Move(fd, Look(name)));
    var c := Copy(name, fd, s.users.byName[name].status, |s.history|);
    s' := Then(Step, START, s', Move(fd, Set(c, status)));
    s' := Then(Step, START, s', Move(fd, Show(c, status)));
  }

  lemma TwoUsers(host: nat, guest: nat, hostName: string, guestName: string) returns (s: State)
    requires host != guest && hostName != guestName && UsernameOk(hostName) && UsernameOk(guestName)
    ensures Reachable(Step, START, s) && s.rooms == map[] && s.seen == map[] && s.leaving == map[]
    ensures s.users.byName == map[hostName := User(hostName, host, ACTIVE), guestName := User(guestName, guest, ACTIVE)]
    ensures s.users.byFd == map[host := hostName, guest := guestName]
    ensures s.history == [Added(hostName, host), Added(guestName, guest)]
  {
    StartReachable(Step, START);
    hide Reachable, Run;
    s := Then(Step, START, START, Move(host, Enter(hostName)));
    s := Then(Step, START, s, Move(guest, Enter(guestName)));
  }

  /** `host` has opened a room, and `guest` is a user. */
  lemma RoomOpened(host: nat, guest: nat, hostName: string, guestName: string, room: string)
    returns (s: State)
    requires host != guest && hostName != guestName && UsernameOk(hostName) && UsernameOk(guestName)
    ensures Reachable(Step, START, s)
    ensures s.rooms.Keys == {Members(room)} && s.rooms[Members(room)].byName.Keys == {hostName}
    ensures s.users.byName == map[hostName := User(hostName, host, ACTIVE), guestName := User(guestName, guest, ACTIVE)]
    ensures s.users.byFd == map[host := hostName, guest := guestName]
    ensures s.seen.Keys == {host} && s.leaving == map[]
  {
    hide Reachable, Run;
    s := TwoUsers(host, guest, hostName, guestName);
    s := Then(Step, START, s, Move(host, Look(hostName)));
    s := Then(Step, START, s, Move(host, Put(Members(room), Copy(hostName, host, ACTIVE, 2))));
  }

  /** DISCONNECT without being overtaken, of a user who is in no room. */
  lemma Disconnects(s: State, fd: nat, name: string) returns (s': State)
    requires Reachable(Step, START, s) && name in s.users.byName && fd !in s.seen && s.leaving == map[]
    requires forall slot :: slot in s.rooms ==> name !in s.rooms[slot].byName
    ensures Reachable(Step, START, s') && s'.rooms == s.rooms && name !in s'.users.byName
    ensures forall n :: n in s.users.byName && n != name ==> n in s'.users.byName
    ensures forall fd' :: fd' in s.seen ==> fd' in s'.seen && s'.seen[fd'] == s.seen[fd']
    ensures s'.leaving == map[] && exists i :: 0 <= i < |s'.history| && s'.history[i] == Removed(name, fd)
  {
    hide Reachable, Run;
    s' := Then(Step, START, s, Move(fd, Look(name)));
    var u := s.users.byName[name];
    var c := Copy(name, u.fd, u.status, |s.history|);
    s' := Then(Step, START, s', Move(fd, Purge(c)));
    assert s'.rooms == s.rooms;
    s' := Then(Step, START, s', Move(fd, Drop(c)));
    assert s'.history[|s'.history| - 1] == Removed(name, fd);
  }
}
