/** What a users table (users_table.c) means, as a value: an index by username, and an index by
    descriptor whose entries are references, written here as the name of the record they share. */
module UserTables {
  import opened Base

  datatype Table = Table(byName: map<string, User>, byFd: map<int, string>)

  const EMPTY := Table(map[], map[])

  // ------------------------------------------------------------------------------ operations

  function AddWithStatus(t: Table, name: string, fd: int, status: UserStatus): (Table, bool) {
    if !UsernameOk(name) || name in t.byName then (t, false)
    else (Table(t.byName[name := User(name, fd, status)], t.byFd[fd := name]), true)
  }

  function Add(t: Table, name: string, fd: int): (Table, bool) {
    AddWithStatus(t, name, fd, ACTIVE)
  }

  function Remove(t: Table, name: string): (Table, bool) {
    if name !in t.byName then (t, false)
    else (Table(t.byName - {name}, t.byFd - {t.byName[name].fd}), true)
  }

  function FindByName(t: Table, name: string): Option<User> {
    if name in t.byName then Some(t.byName[name]) else None
  }

  function FindByFd(t: Table, fd: int): Option<User> {
    if fd in t.byFd && t.byFd[fd] in t.byName then Some(t.byName[t.byFd[fd]]) else None
  }

  function ChangeStatusByName(t: Table, name: string, status: UserStatus): (Table, bool) {
    if name in t.byName then (t.(byName := t.byName[name := t.byName[name].(status := status)]), true)
    else (t, false)
  }

  function ChangeStatusByFd(t: Table, fd: int, status: UserStatus): (Table, bool) {
    if fd in t.byFd then ChangeStatusByName(t, t.byFd[fd], status) else (t, false)
  }

  // ------------------------------------------------------------------------------ invariants

  /** No reference of the descriptor index dangles, and each leads to a record with that descriptor. */
  ghost predicate Linked(t: Table) {
    && (forall n :: n in t.byName ==> t.byName[n].name == n)
    && (forall fd :: fd in t.byFd ==> t.byFd[fd] in t.byName && t.byName[t.byFd[fd]].fd == fd)
  }

  /** The two indexes are inverse to each other. */
  ghost predicate Inverse(t: Table) {
    && Linked(t)
    && (forall n :: n in t.byName ==> t.byName[n].fd in t.byFd && t.byFd[t.byName[n].fd] == n)
  }

  datatype Op =
    | OpAdd(name: string, fd: int)
    | OpAddWithStatus(name: string, fd: int, status: UserStatus)
    | OpRemove(name: string)
    | OpStatusByName(name: string, status: UserStatus)
    | OpStatusByFd(fd: int, status: UserStatus)

  function Apply(t: Table, op: Op): (Table, bool) {
    match op
    case OpAdd(name, fd) => Add(t, name, fd)
    case OpAddWithStatus(name, fd, status) => AddWithStatus(t, name, fd, status)
    case OpRemove(name) => Remove(t, name)
    case OpStatusByName(name, status) => ChangeStatusByName(t, name, status)
    case OpStatusByFd(fd, status) => ChangeStatusByFd(t, fd, status)
  }

  /** The table after the first `k` operations. */
  function After(ops: seq<Op>, k: nat): Table
    requires k <= |ops|
  {
    if k == 0 then EMPTY else Apply(After(ops, k - 1), ops[k - 1]).0
  }

  /** The operation is an addition that goes through. */
  predicate Inserts(t: Table, op: Op) {
    (op.OpAdd? || op.OpAddWithStatus?) && Apply(t, op).1
  }

  /** Whatever the callers do, no reference dangles. */
  lemma LinkedKept(t: Table, op: Op)
    requires Linked(t)
    ensures Linked(Apply(t, op).0)
  {
  }

  /** One operation keeps the indexes inverse exactly when it does not insert a descriptor that is
      already there. */
  lemma InverseKept(t: Table, op: Op)
    requires Inverse(t)
    ensures Inverse(Apply(t, op).0) <==> !(Inserts(t, op) && op.fd in t.byFd)
  {
    var t' := Apply(t, op).0;
    LinkedKept(t, op);
    if Inserts(t, op) && op.fd in t.byFd {
      var other := t.byFd[op.fd];
      assert other in t'.byName && t'.byName[other].fd == op.fd && t'.byFd[op.fd] == op.name;
    }
  }

  /** Over any sequence of operations nothing dangles; if in addition every insertion brings a
      descriptor that is new at that moment, the indexes are inverse after each of them. */
  lemma {:induction false} RunKeepsIndexes(ops: seq<Op>, k: nat)
    requires k <= |ops|
    ensures Linked(After(ops, k))
    ensures (forall i :: 0 <= i < k && Inserts(After(ops, i), ops[i]) ==> ops[i].fd !in After(ops, i).byFd)
            ==> Inverse(After(ops, k))
  {
    if k == 0 {
    } else {
      RunKeepsIndexes(ops, k - 1);
      LinkedKept(After(ops, k - 1), ops[k - 1]);
      if Inverse(After(ops, k - 1)) {
        InverseKept(After(ops, k - 1), ops[k - 1]);
      }
    }
  }

  /** A table on which two users share a descriptor, reached through `add` alone. */
  lemma SharedDescriptorIsReachable()
    ensures var t := After([OpAdd("ana", 4), OpAdd("bea", 4)], 2);
            t.byName.Keys == {"ana", "bea"} && FindByFd(t, 4) == FindByName(t, "bea") && !Inverse(t)
  {
  }

  /** A status set through the descriptor is the status seen through the username, no other record
      changes, and no index changes. */
  lemma StatusIsShared(t: Table, fd: int, status: UserStatus)
    requires Inverse(t)
    ensures var t' := ChangeStatusByFd(t, fd, status).0;
            && t'.byFd == t.byFd && t'.byName.Keys == t.byName.Keys
            && (forall n :: n in t.byName ==>
                 FindByName(t', n) == Some(if t.byName[n].fd == fd then t.byName[n].(status := status) else t.byName[n])
                 && FindByFd(t', t.byName[n].fd) == FindByName(t', n))
    ensures ChangeStatusByFd(t, fd, status).1 <==> exists n :: n in t.byName && t.byName[n].fd == fd
  {
  }

  /** Removing a user clears its name and its descriptor from both indexes and touches nobody else. */
  lemma RemoveClearsBoth(t: Table, name: string)
    requires Inverse(t) && name in t.byName
    ensures var t' := Remove(t, name).0;
            && FindByName(t', name) == None && FindByFd(t', t.byName[name].fd) == None
            && (forall n :: n in t.byName && n != name ==>
                 FindByName(t', n) == FindByName(t, n) && FindByFd(t', t.byName[n].fd) == FindByFd(t, t.byName[n].fd))
  {
  }

  /** Removing what was just added restores the table. */
  lemma RemoveUndoesAdd(t: Table, name: string, fd: int, status: UserStatus)
    requires Inverse(t) && fd !in t.byFd
    ensures var (t', ok) := AddWithStatus(t, name, fd, status);
            ok ==> Remove(t', name) == (t, true)
  {
    var (t', ok) := AddWithStatus(t, name, fd, status);
    if ok {
      assert t'.byName - {name} == t.byName;
      assert t'.byFd - {fd} == t.byFd;
    }
  }
}
