/** The mutexes of the server and the order in which its threads take them (users_table.c, room_table.c
    and their callers in message_handler.c).  A step is one lock or one unlock. */
module Locks {
  import opened Base

  /** The mutex of the users table, of the rooms table, and of the two tables of each room. */
  datatype Lock = Users | Rooms | Members(room: string) | Guests(room: string)

  datatype Op = Acquire(lock: Lock) | Release(lock: Lock)

  /** What is done to a room while the rooms table is locked. */
  datatype Action =
    | AddCreator | AddToGuests | IsMember | IsGuest | GuestToMember | RemoveData | UpdateStatus | ListUsers | Leave
    | Notify(failures: seq<seq<string>>)  // for each failed send the rooms in the order they are visited

  /** The calls a handler makes, one after the other and with nothing locked in between: on the users
      table, on the rooms table alone, on one room, and on every room. */
  datatype Call =
    | OnUsers
    | OnRooms
    | WithRoom(room: string, action: Action)
    | ForEachRoom(rooms: seq<string>, action: Action)

  // ------------------------------------------------------------------- what each call locks

  function Touch(lock: Lock): seq<Op> {
    [Acquire(lock), Release(lock)]
  }

  /** `room_remove_data`, room after room. */
  function RemoveOps(rooms: seq<string>): seq<Op> {
    if rooms == [] then [] else Touch(Guests(rooms[0])) + (Touch(Members(rooms[0])) + RemoveOps(rooms[1..]))
  }

  /** One failed send, in the second loop of `notify_all_but_self` on the members of a room.  The rooms
      mutex has been held since the send, so the member is still found. */
  function FailureOps(room: string, rooms: seq<string>): seq<Op> {
    Touch(Members(room)) + ([Acquire(Rooms)] + (RemoveOps(rooms) + [Release(Rooms)] + Touch(Members(room))))
  }

  function DropOps(room: string, failures: seq<seq<string>>): seq<Op> {
    if failures == [] then [] else FailureOps(room, failures[0]) + DropOps(room, failures[1..])
  }

  function ActionOps(room: string, action: Action): seq<Op> {
    match action
    case AddCreator => Touch(Members(room))
    case AddToGuests => Touch(Guests(room))
    case IsMember => Touch(Members(room))
    case IsGuest => Touch(Guests(room))
    case GuestToMember => Touch(Guests(room)) + Touch(Members(room))
    case RemoveData => Touch(Guests(room)) + Touch(Members(room))
    case UpdateStatus => Touch(Members(room)) + Touch(Guests(room))
    case ListUsers => Touch(Members(room))
    case Leave => Touch(Members(room))
    case Notify(failures) => Touch(Members(room)) + DropOps(room, failures)
  }

  function EachOps(rooms: seq<string>, action: Action): seq<Op> {
    if rooms == [] then [] else ActionOps(rooms[0], action) + EachOps(rooms[1..], action)
  }

  function Program(call: Call): seq<Op> {
    match call
    case OnUsers => Touch(Users)
    case OnRooms => Touch(Rooms)
    case WithRoom(room, action) => [Acquire(Rooms)] + (ActionOps(room, action) + [Release(Rooms)])
    case ForEachRoom(rooms, action) => [Acquire(Rooms)] + (EachOps(rooms, action) + [Release(Rooms)])
  }

  // ---------------------------------------------------------------------------- discipline

  predicate OfRoom(lock: Lock) {
    lock.Members? || lock.Guests?
  }

  /** The users mutex and the rooms mutex are taken with nothing held, a room's mutexes with the rooms
      mutex held and nothing else. */
  predicate MayTake(held: set<Lock>, lock: Lock) {
    if OfRoom(lock) then held == {Rooms} else held == {}
  }

  /** The rooms mutex is returned last. */
  predicate MayReturn(held: set<Lock>, lock: Lock) {
    lock in held && (lock == Rooms ==> held == {Rooms})
  }

  /** From these mutexes on, the operations take mutexes in that order only, and return them all. */
  predicate Disciplined(held: set<Lock>, ops: seq<Op>)
    decreases ops
  {
    if ops == [] then held == {}
    else
      match ops[0]
      case Acquire(l) => MayTake(held, l) && Disciplined(held + {l}, ops[1..])
      case Release(l) => MayReturn(held, l) && Disciplined(held - {l}, ops[1..])
  }

  /** No send to a member of a room fails. */
  predicate Calm(call: Call) {
    match call
    case WithRoom(_, action) => CalmAction(action)
    case ForEachRoom(rooms, action) => rooms == [] || CalmAction(action)
    case _ => true
  }

  predicate CalmAction(action: Action) {
    action.Notify? ==> action.failures == []
  }

  /** The operations that a thread which nobody disturbs is left with: none, or a lock that it waits for
      because it holds it itself. */
  function Alone(held: set<Lock>, ops: seq<Op>): (set<Lock>, seq<Op>)
    decreases ops
  {
    if ops == [] then (held, ops)
    else
      match ops[0]
      case Acquire(l) => if l in held then (held, ops) else Alone(held + {l}, ops[1..])
      case Release(l) => Alone(held - {l}, ops[1..])
  }

  /** Under the rooms mutex these operations make no difference to what comes after them. */
  ghost predicate Harmless(ops: seq<Op>) {
    forall rest :: SameAfter(ops, rest)
  }

  ghost predicate SameAfter(ops: seq<Op>, rest: seq<Op>) {
    && Disciplined({Rooms}, ops + rest) == Disciplined({Rooms}, rest)
    && Alone({Rooms}, ops + rest) == Alone({Rooms}, rest)
  }

  /** They take the rooms mutex a second time, whatever comes after them. */
  ghost predicate Relocks(ops: seq<Op>) {
    forall rest :: StopsIn(ops, rest)
  }

  ghost predicate StopsIn(ops: seq<Op>, rest: seq<Op>) {
    !Disciplined({Rooms}, ops + rest) && SelfBlocked(Alone({Rooms}, ops + rest))
  }

  /** A thread that holds the rooms mutex and is about to take it. */
  ghost predicate SelfBlocked(left: (set<Lock>, seq<Op>)) {
    Rooms in left.0 && left.1 != [] && left.1[0] == Acquire(Rooms)
  }

  lemma TouchHarmless(lock: Lock)
    requires OfRoom(lock)
    ensures Harmless(Touch(lock))
  {
    forall rest: seq<Op>
      ensures SameAfter(Touch(lock), rest)
    {
      var ops := Touch(lock) + rest;
      assert ops[1..][1..] == rest;
      assert {Rooms} + {lock} - {lock} == {Rooms};
    }
  }

  lemma NothingHarmless()
    ensures Harmless([])
  {
    forall rest: seq<Op>
      ensures SameAfter([], rest)
    {
      assert [] + rest == rest;
    }
  }

  lemma BothHarmless(a: seq<Op>, b: seq<Op>)
    requires Harmless(a)
    ensures Harmless(b) ==> Harmless(a + b)
    ensures Relocks(b) ==> Relocks(a + b)
  {
    hide Disciplined, Alone, SelfBlocked;
    forall rest: seq<Op>
      ensures SameAfter(b, rest) ==> SameAfter(a + b, rest)
      ensures StopsIn(b, rest) ==> StopsIn(a + b, rest)
    {
      assert a + b + rest == a + (b + rest);
      assert SameAfter(a, b + rest);
    }
  }

  lemma RelocksMore(a: seq<Op>, b: seq<Op>)
    requires Relocks(a)
    ensures Relocks(a + b)
  {
    hide Disciplined, Alone, SelfBlocked;
    forall rest: seq<Op>
      ensures StopsIn(a + b, rest)
    {
      assert a + b + rest == a + (b + rest);
      assert StopsIn(a, b + rest);
    }
  }

  lemma AcquireRelocks(more: seq<Op>)
    ensures Relocks([Acquire(Rooms)] + more)
  {
  }

  lemma DropsHarmless(room: string, failures: seq<seq<string>>)
    ensures if failures == [] then Harmless(DropOps(room, failures)) else Relocks(DropOps(room, failures))
  {
    hide Harmless, Relocks;
    if failures == [] {
      NothingHarmless();
    } else {
      var more := RemoveOps(failures[0]) + [Release(Rooms)] + Touch(Members(room));
      AcquireRelocks(more);
      TouchHarmless(Members(room));
      BothHarmless(Touch(Members(room)), [Acquire(Rooms)] + more);
      RelocksMore(FailureOps(room, failures[0]), DropOps(room, failures[1..]));
    }
  }

  lemma ActionHarmless(room: string, action: Action)
    ensures if CalmAction(action) then Harmless(ActionOps(room, action)) else Relocks(ActionOps(room, action))
  {
    hide Harmless, Relocks;
    TouchHarmless(Members(room));
    TouchHarmless(Guests(room));
    BothHarmless(Touch(Members(room)), Touch(Guests(room)));
    BothHarmless(Touch(Guests(room)), Touch(Members(room)));
    if action.Notify? {
      DropsHarmless(room, action.failures);
      BothHarmless(Touch(Members(room)), DropOps(room, action.failures));
    }
  }

  lemma {:induction false} EachHarmless(rooms: seq<string>, action: Action)
    ensures if rooms == [] || CalmAction(action) then Harmless(EachOps(rooms, action))
            else Relocks(EachOps(rooms, action))
  {
    hide Harmless, Relocks, ActionOps, CalmAction;
    NothingHarmless();
    if rooms == [] {
    } else {
      ActionHarmless(rooms[0], action);
      EachHarmless(rooms[1..], action);
      if CalmAction(action) {
        BothHarmless(ActionOps(rooms[0], action), EachOps(rooms[1..], action));
      } else {
        RelocksMore(ActionOps(rooms[0], action), EachOps(rooms[1..], action));
      }
    }
  }

  /** A call that works on rooms: the rooms mutex around some operations. */
  lemma UnderRooms(ops: seq<Op>)
    ensures var program := [Acquire(Rooms)] + (ops + [Release(Rooms)]);
            && (Harmless(ops) ==> Disciplined({}, program) && Alone({}, program) == ({}, []))
            && (Relocks(ops) ==> !Disciplined({}, program) && SelfBlocked(Alone({}, program)))
  {
    hide SelfBlocked;
    var program := [Acquire(Rooms)] + (ops + [Release(Rooms)]);
    var end := [Release(Rooms)];
    assert program[1..] == ops + end && {} + {Rooms} == {Rooms};
    assert end[1..] == [] && {Rooms} - {Rooms} == {};
    assert Harmless(ops) ==> SameAfter(ops, end);
    assert Relocks(ops) ==> StopsIn(ops, end);
  }

  lemma SingleTouch(lock: Lock)
    requires lock == Users || lock == Rooms
    ensures Disciplined({}, Touch(lock)) && Alone({}, Touch(lock)) == ({}, [])
  {
  }

  /** Exactly the calls without a failed send in a room keep the order of the mutexes and come to an end;
      each of the others is left waiting for the rooms mutex, which it holds itself. */
  lemma OrderKept(call: Call)
    ensures Disciplined({}, Program(call)) <==> Calm(call)
    ensures if Calm(call) then Alone({}, Program(call)) == ({}, []) else SelfBlocked(Alone({}, Program(call)))
  {
    hide Disciplined, Alone, Harmless, Relocks, SelfBlocked, ActionOps, EachOps;
    match call
    case OnUsers => SingleTouch(Users);
    case OnRooms => SingleTouch(Rooms);
    case WithRoom(room, action) =>
      ActionHarmless(room, action);
      UnderRooms(ActionOps(room, action));
    case ForEachRoom(rooms, action) =>
      EachHarmless(rooms, action);
      UnderRooms(EachOps(rooms, action));
  }

  // ------------------------------------------------------------------------------- threads

  /** What a thread holds and what is left of its call. */
  datatype Thread = Thread(held: set<Lock>, ops: seq<Op>)

  datatype Move = Begin(t: nat, call: Call) | Advance(t: nat)

  predicate Free(s: seq<Thread>, lock: Lock) {
    forall t :: 0 <= t < |s| ==> lock !in s[t].held
  }

  /** A thread between two calls may make any call; another goes on unless it has to wait. */
  predicate Enabled(s: seq<Thread>, m: Move) {
    && m.t < |s|
    && if m.Begin? then s[m.t].ops == []
       else s[m.t].ops != [] && (s[m.t].ops[0].Acquire? ==> Free(s, s[m.t].ops[0].lock))
  }

  function Advanced(thread: Thread): Thread
    requires thread.ops != []
  {
    match thread.ops[0]
    case Acquire(l) => Thread(thread.held + {l}, thread.ops[1..])
    case Release(l) => Thread(thread.held - {l}, thread.ops[1..])
  }

  function Next(s: seq<Thread>, m: Move): seq<Thread>
    requires Enabled(s, m)
  {
    s[m.t := if m.Begin? then Thread(s[m.t].held, Program(m.call)) else Advanced(s[m.t])]
  }

  /** The moves can be made one after the other, and lead there. */
  ghost predicate Leads(s: seq<Thread>, moves: seq<Move>, s': seq<Thread>)
    decreases moves
  {
    if moves == [] then s' == s else Enabled(s, moves[0]) && Leads(Next(s, moves[0]), moves[1..], s')
  }

  ghost predicate AllCalm(moves: seq<Move>) {
    forall i :: 0 <= i < |moves| && moves[i].Begin? ==> Calm(moves[i].call)
  }

  /** What a thread can hold: nothing, the users mutex, the rooms mutex, or that and one of a room. */
  ghost predicate Shape(held: set<Lock>) {
    held == {} || held == {Users} || held == {Rooms} || exists l :: OfRoom(l) && held == {Rooms, l}
  }

  /** Each thread keeps the order, and no mutex is held twice. */
  ghost predicate Orderly(s: seq<Thread>) {
    && (forall t :: 0 <= t < |s| ==> Shape(s[t].held) && Disciplined(s[t].held, s[t].ops))
    && (forall t, t' :: 0 <= t < t' < |s| ==> s[t].held !! s[t'].held)
  }

  lemma AdvanceOrderly(thread: Thread)
    requires thread.ops != [] && Shape(thread.held) && Disciplined(thread.held, thread.ops)
    ensures Shape(Advanced(thread).held) && Disciplined(Advanced(thread).held, Advanced(thread).ops)
  {
  }

  /** Every move of every thread keeps the order. */
  lemma MoveOrderly(s: seq<Thread>, m: Move)
    requires Orderly(s) && Enabled(s, m) && (m.Begin? ==> Calm(m.call))
    ensures Orderly(Next(s, m))
  {
    hide Shape, Disciplined, Program;
    if m.Begin? {
      OrderKept(m.call);
      IdleHoldsNothing(s[m.t]);
    } else {
      AdvanceOrderly(s[m.t]);
    }
  }

  lemma IdleHoldsNothing(thread: Thread)
    requires Disciplined(thread.held, thread.ops)
    ensures thread.ops == [] ==> thread.held == {}
  {
  }

  lemma {:induction false} EveryRunIsOrderly(s: seq<Thread>, moves: seq<Move>, s': seq<Thread>)
    requires Orderly(s) && AllCalm(moves) && Leads(s, moves, s')
    ensures Orderly(s') && |s'| == |s|
    decreases moves
  {
    hide Orderly, Enabled, Next, Calm;
    if moves == [] {
    } else {
      assert moves[0].Begin? ==> Calm(moves[0].call);
      MoveOrderly(s, moves[0]);
      SameNumber(s, moves[0]);
      EveryRunIsOrderly(Next(s, moves[0]), moves[1..], s');
    }
  }

  lemma SameNumber(s: seq<Thread>, m: Move)
    requires Enabled(s, m)
    ensures |Next(s, m)| == |s|
  {
  }

  // --------------------------------------------------------------------- freedom from deadlock

  /** Threads between two calls, to begin with. */
  function Idle(n: nat): (s: seq<Thread>)
    ensures |s| == n
  {
    seq(n, _ => Thread({}, []))
  }

  /** Thread `t` cannot go on because `t'` holds what it wants. */
  ghost predicate WaitsFor(s: seq<Thread>, t: nat, t': nat) {
    && t < |s| && t' < |s| && s[t].ops != [] && s[t].ops[0].Acquire?
    && s[t].ops[0].lock in s[t'].held
  }

  /** Whoever is waited for does not wait, for anybody. */
  lemma NobodyWaitsForAWaiter(s: seq<Thread>, t: nat, t': nat, t'': nat)
    requires Orderly(s)
    ensures !(WaitsFor(s, t, t') && WaitsFor(s, t', t''))
  {
  }

  /** Each thread of the path waits for the next. */
  ghost predicate Waiting(s: seq<Thread>, path: seq<nat>) {
    forall i :: 0 <= i < |path| - 1 ==> WaitsFor(s, path[i], path[i + 1])
  }

  /** The wait-for relation has no cycle: a path in it has at most one step. */
  lemma NoWaitingCycle(s: seq<Thread>, path: seq<nat>)
    requires Orderly(s) && Waiting(s, path)
    ensures |path| <= 2
  {
    if |path| > 2 {
      var a, b, c := path[0], path[1], path[2];
      assert WaitsFor(s, path[0], path[0 + 1]) && WaitsFor(s, path[1], path[1 + 1]);
      NobodyWaitsForAWaiter(s, a, b, c);
      assert false;
    }
  }

  /** From idle threads, over every interleaving of any calls without a failed send in a room: nobody waits
      in a cycle, and if anybody is inside a call somebody can go on. */
  lemma NoDeadlockEver(n: nat, moves: seq<Move>, s: seq<Thread>)
    requires AllCalm(moves) && Leads(Idle(n), moves, s)
    ensures forall path: seq<nat> :: Waiting(s, path) ==> |path| <= 2
    ensures (exists t :: 0 <= t < |s| && s[t].ops != []) ==> exists t: nat :: Enabled(s, Advance(t))
  {
    IdleOrderly(n);
    EveryRunIsOrderly(Idle(n), moves, s);
    hide Orderly, Enabled, Leads, AllCalm;
    forall path: seq<nat> | Waiting(s, path)
      ensures |path| <= 2
    {
      NoWaitingCycle(s, path);
    }
    if t: nat :| t < |s| && s[t].ops != [] {
      var t' := SomebodyGoesOn(s, t);
    }
  }

  lemma IdleOrderly(n: nat)
    ensures Orderly(Idle(n))
  {
  }

  lemma GoesOnUnlessWaiting(s: seq<Thread>, t: nat) returns (t': nat)
    requires t < |s| && s[t].ops != [] && !Enabled(s, Advance(t))
    ensures WaitsFor(s, t, t')
  {
    t' :| t' < |s| && s[t].ops[0].lock in s[t'].held;
  }

  /** As long as some thread is inside a call, some thread can go on. */
  lemma SomebodyGoesOn(s: seq<Thread>, t: nat) returns (t': nat)
    requires Orderly(s) && t < |s| && s[t].ops != []
    ensures Enabled(s, Advance(t'))
  {
    t' := t;
    if !Enabled(s, Advance(t)) {
      t' := GoesOnUnlessWaiting(s, t);
      IdleHoldsNothing(s[t']);
      if !Enabled(s, Advance(t')) {
        var t'' := GoesOnUnlessWaiting(s, t');
        NobodyWaitsForAWaiter(s, t, t', t'');
        assert false;
      }
    }
  }

  // ----------------------------------------------------------------------- calls come to an end

  function Work(s: seq<Thread>): nat {
    if s == [] then 0 else |s[0].ops| + Work(s[1..])
  }

  lemma {:induction false} WorkShrinks(s: seq<Thread>, t: nat, thread: Thread)
    requires t < |s| && |s[t].ops| == |thread.ops| + 1
    ensures Work(s[t := thread]) == Work(s) - 1
  {
    var s' := s[t := thread];
    if t == 0 {
      assert s'[1..] == s[1..];
    } else {
      assert s'[1..] == s[1..][t - 1 := thread];
      WorkShrinks(s[1..], t - 1, thread);
    }
  }

  lemma {:induction false} NoWorkLeft(s: seq<Thread>)
    ensures Work(s) == 0 <==> forall t :: 0 <= t < |s| ==> s[t].ops == []
  {
    if s == [] {
    } else {
      NoWorkLeft(s[1..]);
      assert s == [s[0]] + s[1..];
    }
  }

  ghost predicate OnlyAdvances(moves: seq<Move>) {
    forall i :: 0 <= i < |moves| ==> moves[i].Advance?
  }

  /** However the scheduler chooses, every move brings the calls under way nearer to their end. */
  lemma {:induction false} AdvancesAreBounded(s: seq<Thread>, moves: seq<Move>, s': seq<Thread>)
    requires OnlyAdvances(moves) && Leads(s, moves, s')
    ensures Work(s') == Work(s) - |moves|
    decreases moves
  {
    if moves == [] {
    } else {
      var t := moves[0].t;
      WorkShrinks(s, t, Advanced(s[t]));
      AdvancesAreBounded(Next(s, moves[0]), moves[1..], s');
    }
  }

  /** From every orderly state all calls under way can be finished: there is no deadlock, now or later. */
  lemma {:induction false} EveryCallCanEnd(s: seq<Thread>) returns (moves: seq<Move>, s': seq<Thread>)
    requires Orderly(s)
    ensures OnlyAdvances(moves) && Leads(s, moves, s') && forall t :: 0 <= t < |s'| ==> s'[t].ops == []
    decreases Work(s)
  {
    NoWorkLeft(s);
    moves, s' := [], s;
    if Work(s) > 0 {
      var busy: nat :| busy < |s| && s[busy].ops != [];
      var t := SomebodyGoesOn(s, busy);
      MoveOrderly(s, Advance(t));
      WorkShrinks(s, t, Advanced(s[t]));
      var rest, end := EveryCallCanEnd(Next(s, Advance(t)));
      moves, s' := [Advance(t)] + rest, end;
      assert moves[1..] == rest;
    }
  }

  // -------------------------------------------------------------- what a failed send in a room does

  /** A thread that waits for the rooms mutex it holds itself. */
  ghost predicate Stuck(s: seq<Thread>, t: nat) {
    t < |s| && SelfBlocked((s[t].held, s[t].ops))
  }

  /** Such a thread never moves again, and from then on nobody can take the rooms mutex. */
  lemma {:induction false} StuckForever(s: seq<Thread>, t: nat, moves: seq<Move>, s': seq<Thread>)
    requires Stuck(s, t) && Leads(s, moves, s')
    ensures t < |s'| && s'[t] == s[t] && Stuck(s', t)
    ensures forall t' :: 0 <= t' < |s'| && s'[t'].ops != [] && s'[t'].ops[0] == Acquire(Rooms) ==>
              !Enabled(s', Advance(t'))
    decreases moves
  {
    if moves == [] {
    } else {
      StuckForever(Next(s, moves[0]), t, moves[1..], s');
    }
  }

  /** A call with a failed send in a room gets there when its thread runs undisturbed. */
  lemma FailedSendGetsStuck(call: Call) returns (moves: seq<Move>, s': seq<Thread>)
    requires !Calm(call)
    ensures Leads([Thread({}, [])], moves, s') && Stuck(s', 0)
  {
    OrderKept(call);
    var began := [Thread({}, Program(call))];
    var rest, left := RunsAlone({}, Program(call));
    moves, s' := [Begin(0, call)] + rest, [left];
    assert moves[1..] == rest;
    assert Next([Thread({}, [])], Begin(0, call)) == began;
  }

  lemma {:induction false} RunsAlone(held: set<Lock>, ops: seq<Op>) returns (moves: seq<Move>, left: Thread)
    ensures (left.held, left.ops) == Alone(held, ops) && Leads([Thread(held, ops)], moves, [left])
    decreases ops
  {
    var s := [Thread(held, ops)];
    if ops == [] || (ops[0].Acquire? && ops[0].lock in held) {
      moves, left := [], s[0];
    } else {
      var next := Advanced(s[0]);
      var rest, end := RunsAlone(next.held, next.ops);
      moves, left := [Advance(0)] + rest, end;
      assert moves[1..] == rest;
      assert Next(s, Advance(0)) == [next];
    }
  }
}
