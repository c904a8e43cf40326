/** Whole runs: any sequence of lines from any clients, any outcome of every send, any order of
    every iteration. */
module Runs {
  import opened Base
  import opened Messages
  import T = UserTables
  import P = Protocol
  import N = NameServer
  import R = Refinement
  import E = Effects

  /** The name-only server after the first `k` inputs.  It stays valid. */
  ghost function After(e: P.Env, run: seq<P.Input>, k: nat): (s: N.State)
    requires P.Iterates(e) && P.Admissible(run) && k <= |run|
    ensures N.Valid(s)
  {
    if k == 0 then N.START
    else
      R.StepAgrees(After(e, run, k - 1), e, run[k - 1].msg, run[k - 1].fd);
      N.Step(After(e, run, k - 1), e, run[k - 1].msg, run[k - 1].fd).0
  }

  /** Refinement.  At every point of every run the server with copies is the name-only server written
      out with its copies: the same users, rooms and log, that is, the same replies, deliveries and
      closed connections in the same order. */
  lemma {:induction false} RunRefines(e: P.Env, run: seq<P.Input>, k: nat)
    requires P.Iterates(e) && P.Admissible(run) && k <= |run|
    ensures P.After(e, run, k) == R.Copies(After(e, run, k))
  {
    hide R.Copies, P.Step, N.Step, N.Valid, P.Iterates, P.Handleable;
    if k == 0 {
      StartsAgree();
    } else {
      RunRefines(e, run, k - 1);
      R.StepAgrees(After(e, run, k - 1), e, run[k - 1].msg, run[k - 1].fd);
    }
  }

  lemma StartsAgree()
    ensures N.Valid(N.START) && R.Copies(N.START) == P.START
  {
  }

  /** The results the handlers return agree as well. */
  lemma ResultsAgree(e: P.Env, run: seq<P.Input>, k: nat)
    requires P.Iterates(e) && P.Admissible(run) && k < |run|
    ensures P.Step(P.After(e, run, k), e, run[k].msg, run[k].fd).1
            == N.Step(After(e, run, k), e, run[k].msg, run[k].fd).1
  {
    RunRefines(e, run, k);
    R.StepAgrees(After(e, run, k), e, run[k].msg, run[k].fd);
  }

  // ---------------------------------------------------------------------------- invariants

  /** Every record of the table is the master table's record of that user. */
  ghost predicate CopiedFrom(master: T.Table, table: T.Table) {
    T.Inverse(table) && forall n :: n in table.byName ==> n in master.byName && table.byName[n] == master.byName[n]
  }

  /** No user and no descriptor is in both tables. */
  ghost predicate Apart(a: T.Table, b: T.Table) {
    a.byName.Keys !! b.byName.Keys && a.byFd.Keys !! b.byFd.Keys
  }

  ghost predicate Consistent(c: P.State) {
    && T.Inverse(c.users)
    && (forall n :: n in c.users.byName ==> UsernameOk(n) && c.users.byName[n].fd >= 0)
    && (forall r :: r in c.rooms ==>
         && RoomnameOk(r)
         && CopiedFrom(c.users, c.rooms[r].members) && CopiedFrom(c.users, c.rooms[r].guests)
         && Apart(c.rooms[r].members, c.rooms[r].guests))
  }

  /** The names behind a state with copies. */
  ghost function Names(c: P.State): N.State {
    N.State(c.users.byName,
            map r | r in c.rooms :: N.Room(c.rooms[r].members.byName.Keys, c.rooms[r].guests.byName.Keys),
            c.log)
  }

  lemma CopiedIsRestricted(master: T.Table, table: T.Table)
    requires T.Inverse(master) && CopiedFrom(master, table)
    ensures N.OneUserPerFd(master.byName)
    ensures table == R.TableOf(N.Restrict(master.byName, table.byName.Keys))
  {
  }

  lemma RestrictedIsCopied(users: map<string, User>, names: set<string>)
    requires N.UsersOk(users)
    ensures CopiedFrom(R.TableOf(users), R.TableOf(N.Restrict(users, names)))
  {
  }

  lemma DisjointIsApart(users: map<string, User>, a: set<string>, b: set<string>)
    requires N.UsersOk(users) && a !! b
    ensures Apart(R.TableOf(N.Restrict(users, a)), R.TableOf(N.Restrict(users, b)))
  {
  }

  /** The invariant says exactly that the copies are those of a valid name-only state. */
  lemma ConsistentMeansCopies(c: P.State)
    ensures Consistent(c) <==> N.Valid(Names(c)) && c == R.Copies(Names(c))
  {
    if Consistent(c) {
      R.InverseIsTableOf(c.users);
      forall r | r in c.rooms
        ensures c.rooms[r] == R.RoomOf(c.users.byName, Names(c).rooms[r])
      {
        CopiedIsRestricted(c.users, c.rooms[r].members);
        CopiedIsRestricted(c.users, c.rooms[r].guests);
      }
      assert c.rooms == R.Copies(Names(c)).rooms;
    }
    if N.Valid(Names(c)) && c == R.Copies(Names(c)) {
      R.TableOfInverse(c.users.byName);
      forall r | r in c.rooms
        ensures CopiedFrom(c.users, c.rooms[r].members) && CopiedFrom(c.users, c.rooms[r].guests)
        ensures Apart(c.rooms[r].members, c.rooms[r].guests)
      {
        var room := Names(c).rooms[r];
        assert c.rooms[r] == R.RoomOf(c.users.byName, room);
        RestrictedIsCopied(c.users.byName, room.members);
        RestrictedIsCopied(c.users.byName, room.guests);
        DisjointIsApart(c.users.byName, room.members, room.guests);
      }
    }
  }

  lemma NamesOfCopies(s: N.State)
    requires N.Valid(s)
    ensures Names(R.Copies(s)) == s
  {
    forall r | r in s.rooms
      ensures Names(R.Copies(s)).rooms[r] == s.rooms[r]
    {
      assert N.Restrict(s.users, s.rooms[r].members).Keys == s.rooms[r].members;
      assert N.Restrict(s.users, s.rooms[r].guests).Keys == s.rooms[r].guests;
    }
    assert Names(R.Copies(s)).rooms == s.rooms;
  }

  /** Every line a client can send keeps every copy in step, whatever happens to the sends. */
  lemma StepKeepsConsistent(c: P.State, e: P.Env, msg: Option<Message>, fd: int)
    requires P.Iterates(e) && Consistent(c) && P.Handleable(msg) && fd >= 0
    ensures Consistent(P.Step(c, e, msg, fd).0)
    ensures N.Valid(Names(c))
    ensures Names(P.Step(c, e, msg, fd).0) == N.Step(Names(c), e, msg, fd).0
  {
    ConsistentMeansCopies(c);
    R.StepAgrees(Names(c), e, msg, fd);
    NamesOfCopies(N.Step(Names(c), e, msg, fd).0);
    ConsistentMeansCopies(P.Step(c, e, msg, fd).0);
  }

  /** In every reachable state: both indexes of every table are inverse, every entry of every room
      equals the master table's entry, and the members and guests of a room are disjoint by name and
      by descriptor. */
  lemma ReachableIsConsistent(e: P.Env, run: seq<P.Input>, k: nat)
    requires P.Iterates(e) && P.Admissible(run) && k <= |run|
    ensures Consistent(P.After(e, run, k))
  {
    RunRefines(e, run, k);
    NamesOfCopies(After(e, run, k));
    ConsistentMeansCopies(P.After(e, run, k));
  }
}
