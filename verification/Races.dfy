/** Client threads racing for names.  Each has one descriptor and handles IDENTIFY and DISCONNECT; one
    step is one call on the users table, which its mutex makes atomic, or one send.  Between two of its
    own steps a thread may be overtaken by any others. */
module Races {
  import opened Base
  import T = UserTables
  import opened Traces

  /** A user's own record, as `process_disconnect` copied it when the history had `since` entries. */
  datatype Own = Own(name: string, since: nat)

  /** A user whose send failed, as the second loop of a broadcast copied its record. */
  datatype Found = Found(name: string, fd: int, since: nat)

  /** Where a thread is. */
  datatype Place =
    | Idle
    | FindingSelf(name: string)                          // message_handler.c:152
    | FindingName(name: string)                          // :160
    | Adding(name: string)                               // :182
    | Welcoming                                          // :191
    | Leaving                                            // :93
    | Sizing(own: Option<Own>)                           // :61, for IDENTIFY (None) or DISCONNECT
    | Telling(size: nat, asOf: nat, own: Option<Own>)    // :74, with the size read at entry `asOf` of the history
    | Scanning(failed: seq<int>, own: Option<Own>)       // :80
    | Dropping(found: Found, failed: seq<int>, own: Option<Own>)  // :84
    | Removing(mine: Own)                                // :105
    | Overrun                                            // the scan or a write has left the array

  datatype Event = Added(name: string, fd: int) | Removed(name: string)

  datatype State = State(table: T.Table, places: map<int, Place>, history: seq<Event>)

  const START := State(T.EMPTY, map[], [])

  function At(s: State, fd: int): Place {
    if fd in s.places then s.places[fd] else Idle
  }

  /** What is not up to the server: which thread moves, the message an idle thread receives (the name of
      an IDENTIFY, or a DISCONNECT), whether its send succeeds, and whom a broadcast fails to reach. */
  datatype Move = Move(fd: nat, name: Option<string>, sent: bool, failed: seq<int>)

  function Go(s: State, fd: int, place: Place): State {
    s.(places := s.places[fd := place])
  }

  /** `users_table_remove`. */
  function Drop(s: State, name: string): State {
    if name in s.table.byName then s.(table := T.Remove(s.table, name).0, history := s.history + [Removed(name)]) else s
  }

  /** `users_table_add`. */
  function Enter(s: State, name: string, fd: int): State {
    s.(table := T.Add(s.table, name, fd).0, history := s.history + [Added(name, fd)])
  }

  /** A visit of the table may fail to reach these: each is some other user's descriptor, once. */
  predicate CanFail(s: State, fd: int, failed: seq<int>) {
    && (forall i, j :: 0 <= i < j < |failed| ==> failed[i] != failed[j])
    && (forall i :: 0 <= i < |failed| ==> failed[i] in s.table.byFd && failed[i] != fd)
  }

  /** The array of `size + 1` cells, after the failed descriptors were written to its front. */
  function Cells(size: nat, failed: seq<int>): seq<int>
    requires |failed| <= size + 1
  {
    failed + seq(size + 1 - |failed|, _ => -1)
  }

  /** All writes are to cells of the array, and the scan comes to a -1 in it. */
  predicate InBounds(size: nat, failed: seq<int>) {
    |failed| <= size + 1 && -1 in Cells(size, failed)
  }

  function Step(s: State, m: Move): State {
    var fd := m.fd;
    match At(s, fd)
    case Idle => Go(s, fd, if m.name.Some? then FindingSelf(m.name.value) else Leaving)
    case FindingSelf(name) =>
      (match T.FindByFd(s.table, fd)
       case Some(u) => Go(s, fd, if u.name != name then Leaving else Idle)
       case None => Go(s, fd, FindingName(name)))
    case FindingName(name) =>
      (match T.FindByName(s.table, name)
       case Some(u) => Go(s, fd, if u.fd != fd then Leaving else Idle)
       case None => Go(s, fd, Adding(name)))
    case Adding(name) =>
      if T.Add(s.table, name, fd).1 then Go(Enter(s, name, fd), fd, Welcoming) else Go(s, fd, Idle)
    case Welcoming => Go(s, fd, if m.sent then Sizing(None) else Leaving)
    case Leaving =>
      (match T.FindByFd(s.table, fd)
       case Some(u) => Go(s, fd, Sizing(Some(Own(u.name, |s.history|))))
       case None => Go(s, fd, Idle))
    case Sizing(own) => Go(s, fd, Telling(|s.table.byName|, |s.history|, own))
    case Telling(size, _, own) =>
      if !CanFail(s, fd, m.failed) then s
      else Go(s, fd, if InBounds(size, m.failed) then Scanning(m.failed, own) else Overrun)
    case Scanning(failed, own) =>
      if failed == [] then Go(s, fd, if own.Some? then Removing(own.value) else Idle)
      else
        (match T.FindByFd(s.table, failed[0])
         case Some(u) => Go(s, fd, Dropping(Found(u.name, u.fd, |s.history|), failed[1..], own))
         case None => Go(s, fd, Scanning(failed[1..], own)))
    case Dropping(found, failed, own) => Go(Drop(s, found.name), fd, Scanning(failed, own))
    case Removing(mine) => Go(Drop(s, mine.name), fd, Idle)
    case Overrun => s
  }

  // -------------------------------------------------------------------------------- history

  /** Who holds a name by the history: the last to have added it, unless it was removed since. */
  function Owner(history: seq<Event>, name: string): Option<int>
    decreases history
  {
    if history == [] then None
    else
      match history[|history| - 1]
      case Added(n, fd) => if n == name then Some(fd) else Owner(history[..|history| - 1], name)
      case Removed(n) => if n == name then None else Owner(history[..|history| - 1], name)
  }

  function Holder(t: T.Table, name: string): Option<int> {
    if name in t.byName then Some(t.byName[name].fd) else None
  }

  /** The table holds what the history says. */
  ghost predicate Recorded(s: State) {
    forall n :: Holder(s.table, n) == Owner(s.history, n)
  }

  /** Nothing about `name` was removed from the history's entry `since` on. */
  ghost predicate NotRemoved(history: seq<Event>, name: string, since: nat) {
    forall i :: since <= i < |history| ==> history[i] != Removed(name)
  }

  /** Everything added was free when it was added: the name had no holder and the descriptor no name. */
  ghost predicate Exclusive(history: seq<Event>) {
    forall i :: 0 <= i < |history| && history[i].Added? ==>
      && Owner(history[..i], history[i].name) == None
      && forall n :: Owner(history[..i], n) != Some(history[i].fd)
  }

  // ------------------------------------------------------------------------------- invariant

  /** A thread that has not found its descriptor in the table still would not. */
  ghost predicate Absent(t: T.Table, place: Place, fd: int) {
    (place.FindingName? || place.Adding?) ==> fd !in t.byFd
  }

  function OwnOf(place: Place): Option<Own> {
    match place
    case Sizing(own) => own
    case Telling(_, _, own) => own
    case Scanning(_, own) => own
    case Dropping(_, _, own) => own
    case Removing(mine) => Some(mine)
    case _ => None
  }

  /** Somebody has taken the name from the history's entry `since` on, and it was not removed after that. */
  ghost predicate Retaken(history: seq<Event>, name: string, since: nat) {
    exists i :: since <= i < |history| && LastTaken(history, name, i)
  }

  ghost predicate LastTaken(history: seq<Event>, name: string, i: nat)
    requires i < |history|
  {
    history[i].Added? && history[i].name == name && NotRemoved(history, name, i)
  }

  /** This client has taken the name from the history's entry `since` on, and it was not removed after. */
  ghost predicate TakenBy(history: seq<Event>, name: string, since: nat, fd: int) {
    exists i :: since <= i < |history| && TakenAt(history, name, i, fd)
  }

  ghost predicate TakenAt(history: seq<Event>, name: string, i: nat, fd: int)
    requires i < |history|
  {
    history[i] == Added(name, fd) && NotRemoved(history, name, i)
  }

  /** Whose record was found under the name, or who has taken it since. */
  ghost predicate FoundOwner(history: seq<Event>, found: Found, fd: int) {
    (fd == found.fd && NotRemoved(history, found.name, found.since)) || TakenBy(history, found.name, found.since, fd)
  }

  /** The name a broadcast has found belongs to whom the history since then says, and to nobody else. */
  ghost predicate FoundTracked(history: seq<Event>, place: Place) {
    place.Dropping? ==>
      && place.found.since <= |history|
      && forall fd :: FoundOwner(history, place.found, fd) <==> Owner(history, place.found.name) == Some(fd)
  }

  /** How many users the history leaves. */
  function Count(history: seq<Event>): int
    decreases history
  {
    if history == [] then 0
    else Count(history[..|history| - 1]) + if history[|history| - 1].Added? then 1 else -1
  }

  /** The size a broadcasting thread has read is that of the table when it read it. */
  ghost predicate Sized(history: seq<Event>, place: Place) {
    place.Telling? ==> place.asOf <= |history| && place.size == Count(history[..place.asOf])
  }

  /** The record a disconnecting thread copied is still in the table exactly if nothing removed it, and
      somebody else holds its name exactly if it was taken since and not removed. */
  ghost predicate Tracked(history: seq<Event>, place: Place, fd: int) {
    var own := OwnOf(place);
    own.Some? ==>
      && own.value.since <= |history|
      && (Owner(history, own.value.name) == Some(fd) <==> NotRemoved(history, own.value.name, own.value.since))
      && (HeldByOther(Owner(history, own.value.name), fd) <==> Retaken(history, own.value.name, own.value.since))
  }

  predicate HeldByOther(owner: Option<int>, fd: int) {
    owner.Some? && owner.value != fd
  }

  /** Accepted descriptors are not negative. */
  ghost predicate Accepted(t: T.Table) {
    forall d :: d in t.byFd ==> d >= 0
  }

  ghost predicate PlaceSafe(t: T.Table, history: seq<Event>, place: Place, fd: int) {
    && Absent(t, place, fd) && Tracked(history, place, fd) && Sized(history, place)
    && FoundTracked(history, place)
  }

  ghost predicate Safe(s: State) {
    && T.Inverse(s.table)
    && Recorded(s)
    && Exclusive(s.history)
    && Accepted(s.table)
    && |s.table.byName| == Count(s.history)
    && (forall fd :: fd in s.places ==> PlaceSafe(s.table, s.history, s.places[fd], fd))
  }

  lemma OwnerAfter(history: seq<Event>, e: Event, name: string)
    ensures Owner(history + [e], name) == if e.name != name then Owner(history, name)
            else if e.Added? then Some(e.fd) else None
  {
  }

  lemma CountAfter(history: seq<Event>, e: Event)
    ensures Count(history + [e]) == Count(history) + if e.Added? then 1 else -1
  {
    assert (history + [e])[..|history|] == history;
  }

  lemma SizedAfter(history: seq<Event>, e: Event, place: Place)
    requires Sized(history, place)
    ensures Sized(history + [e], place)
  {
    if place.Telling? {
      assert (history + [e])[..place.asOf] == history[..place.asOf];
    }
  }

  lemma RemovedLater(history: seq<Event>, e: Event, name: string, since: nat)
    requires since <= |history|
    ensures NotRemoved(history + [e], name, since) <==> NotRemoved(history, name, since) && e != Removed(name)
  {
    var h := history + [e];
    assert h[|history|] == e && forall i :: 0 <= i < |history| ==> h[i] == history[i];
  }

  lemma RetakenLater(history: seq<Event>, e: Event, name: string, since: nat)
    requires since <= |history|
    ensures Retaken(history + [e], name, since)
            <==> e != Removed(name) && (Retaken(history, name, since) || (e.Added? && e.name == name))
  {
    var h := history + [e];
    hide NotRemoved;
    forall i | since <= i < |history|
      ensures LastTaken(h, name, i) <==> LastTaken(history, name, i) && e != Removed(name)
    {
      RemovedLater(history, e, name, i);
    }
    assert LastTaken(h, name, |history|) <==> e.Added? && e.name == name by {
      assert NotRemoved(h, name, |history|) <==> e != Removed(name) by {
        JustRemoved(history, e, name);
      }
    }
    if Retaken(history, name, since) && e != Removed(name) {
      var i :| since <= i < |history| && LastTaken(history, name, i);
      assert LastTaken(h, name, i);
    }
  }

  lemma JustRemoved(history: seq<Event>, e: Event, name: string)
    ensures NotRemoved(history + [e], name, |history|) <==> e != Removed(name)
  {
    assert (history + [e])[|history|] == e;
  }

  lemma TakenLater(history: seq<Event>, e: Event, name: string, since: nat, fd: int)
    requires since <= |history|
    ensures TakenBy(history + [e], name, since, fd)
            <==> e != Removed(name) && (TakenBy(history, name, since, fd) || e == Added(name, fd))
  {
    var h := history + [e];
    hide NotRemoved;
    forall i | since <= i < |history|
      ensures TakenAt(h, name, i, fd) <==> TakenAt(history, name, i, fd) && e != Removed(name)
    {
      RemovedLater(history, e, name, i);
    }
    JustRemoved(history, e, name);
    assert TakenAt(h, name, |history|, fd) <==> e == Added(name, fd);
    if TakenBy(history, name, since, fd) && e != Removed(name) {
      var i :| since <= i < |history| && TakenAt(history, name, i, fd);
      assert TakenAt(h, name, i, fd);
    }
  }

  /** Whatever anybody adds or removes. */
  lemma FoundLater(history: seq<Event>, e: Event, place: Place)
    requires FoundTracked(history, place) && (e.Added? ==> Owner(history, e.name) == None)
    ensures FoundTracked(history + [e], place)
  {
    if place.Dropping? {
      hide Owner, NotRemoved, TakenBy;
      var found := place.found;
      RemovedLater(history, e, found.name, found.since);
      OwnerAfter(history, e, found.name);
      forall fd
        ensures FoundOwner(history + [e], found, fd) <==> Owner(history + [e], found.name) == Some(fd)
      {
        TakenLater(history, e, found.name, found.since, fd);
        assert FoundOwner(history, found, fd) <==> Owner(history, found.name) == Some(fd);
        assert FoundOwner(history, found, found.fd) <==> Owner(history, found.name) == Some(found.fd);
      }
    }
  }

  lemma ExclusiveAfter(history: seq<Event>, e: Event)
    requires Exclusive(history)
    requires e.Added? ==> Owner(history, e.name) == None && forall n :: Owner(history, n) != Some(e.fd)
    ensures Exclusive(history + [e])
  {
    hide Owner;
    var h := history + [e];
    forall i | 0 <= i < |h| && h[i].Added?
      ensures Owner(h[..i], h[i].name) == None
      ensures forall n :: Owner(h[..i], n) != Some(h[i].fd)
    {
      if i < |history| {
        assert h[..i] == history[..i];
        assert history[i].Added?;
      } else {
        assert h[..i] == history;
      }
    }
  }

  lemma DropSafe(s: State, name: string)
    requires Safe(s)
    ensures Safe(Drop(s, name))
  {
    if name in s.table.byName {
      var e := Removed(name);
      T.InverseKept(s.table, T.OpRemove(name));
      ExclusiveAfter(s.history, e);
      CountAfter(s.history, e);
      DropRecorded(s, name);
      hide Recorded, Exclusive, Tracked, Sized, FoundTracked, T.Inverse, Count;
      forall fd | fd in s.places
        ensures PlaceSafe(Drop(s, name).table, s.history + [e], s.places[fd], fd)
      {
        StillTracked(s.history, e, s.places[fd], fd);
        SizedAfter(s.history, e, s.places[fd]);
        FoundLater(s.history, e, s.places[fd]);
      }
    }
  }

  lemma DropRecorded(s: State, name: string)
    requires Recorded(s) && name in s.table.byName
    ensures Recorded(Drop(s, name))
  {
  }

  /** What another thread adds, and what anybody removes, keeps the equivalence. */
  lemma StillTracked(history: seq<Event>, e: Event, place: Place, fd: int)
    requires Tracked(history, place, fd)
    requires e.Added? ==> e.fd != fd && Owner(history, e.name) == None
    ensures Tracked(history + [e], place, fd)
  {
    var own := OwnOf(place);
    if own.Some? {
      hide Owner, NotRemoved, Retaken;
      OwnerAfter(history, e, own.value.name);
      RemovedLater(history, e, own.value.name, own.value.since);
      RetakenLater(history, e, own.value.name, own.value.since);
    }
  }

  lemma EnterSafe(s: State, name: string, fd: nat)
    requires Safe(s) && At(s, fd) == Adding(name) && T.Add(s.table, name, fd).1
    ensures Safe(Go(Enter(s, name, fd), fd, Welcoming))
  {
    var e := Added(name, fd);
    T.InverseKept(s.table, T.OpAdd(name, fd));
    NobodyHas(s, name, fd);
    ExclusiveAfter(s.history, e);
    CountAfter(s.history, e);
    EnterRecorded(s, name, fd);
    hide Recorded, Exclusive, Tracked, Sized, FoundTracked, T.Inverse, Count;
    forall fd' | fd' in s.places && fd' != fd
      ensures PlaceSafe(Enter(s, name, fd).table, s.history + [e], s.places[fd'], fd')
    {
      StillTracked(s.history, e, s.places[fd'], fd');
      SizedAfter(s.history, e, s.places[fd']);
      FoundLater(s.history, e, s.places[fd']);
    }
    NothingTracked(s.history + [e], fd);
  }

  lemma NothingTracked(history: seq<Event>, fd: int)
    ensures Tracked(history, Welcoming, fd) && Sized(history, Welcoming) && FoundTracked(history, Welcoming)
  {
  }

  lemma EnterRecorded(s: State, name: string, fd: int)
    requires Recorded(s) && T.Add(s.table, name, fd).1
    ensures Recorded(Enter(s, name, fd))
  {
  }

  lemma NobodyHas(s: State, name: string, fd: int)
    requires T.Inverse(s.table) && Recorded(s) && fd !in s.table.byFd && name !in s.table.byName
    ensures Owner(s.history, name) == None && forall n :: Owner(s.history, n) != Some(fd)
  {
  }

  lemma SafeAt(s: State, fd: int)
    requires Safe(s)
    ensures PlaceSafe(s.table, s.history, At(s, fd), fd)
  {
  }

  lemma GoSafe(s: State, fd: int, place: Place)
    requires Safe(s) && PlaceSafe(s.table, s.history, place, fd)
    ensures Safe(Go(s, fd, place))
  {
    hide Recorded, Exclusive, PlaceSafe, T.Inverse, Count, Owner, Holder;
    SameRecords(s, fd, place);
  }

  lemma SameRecords(s: State, fd: int, place: Place)
    requires Recorded(s)
    ensures Recorded(Go(s, fd, place))
  {
    hide Owner, Holder;
    assert forall n :: Holder(s.table, n) == Owner(s.history, n);
  }

  /** A move that only changes the place, and copies and reads nothing. */
  lemma Moved(s: State, fd: int, place: Place)
    requires Safe(s) && (OwnOf(place) == OwnOf(At(s, fd)) || OwnOf(place) == None)
    requires Absent(s.table, place, fd) && !place.Telling? && !place.Dropping?
    ensures Safe(Go(s, fd, place))
  {
    SafeAt(s, fd);
    SamePledge(s.history, At(s, fd), place, fd);
    GoSafe(s, fd, place);
  }

  lemma SamePledge(history: seq<Event>, a: Place, b: Place, fd: int)
    requires Tracked(history, a, fd) && (OwnOf(b) == OwnOf(a) || OwnOf(b) == None)
    ensures Tracked(history, b, fd)
  {
  }

  /** A thread that has just found its own record. */
  lemma FoundOwn(s: State, fd: int)
    requires Safe(s) && T.FindByFd(s.table, fd).Some?
    ensures Tracked(s.history, Sizing(Some(Own(T.FindByFd(s.table, fd).value.name, |s.history|))), fd)
  {
    var u := T.FindByFd(s.table, fd).value;
    assert Holder(s.table, u.name) == Owner(s.history, u.name);
  }

  lemma LeavingSafe(s: State, m: Move)
    requires Safe(s) && At(s, m.fd) == Leaving
    ensures Safe(Step(s, m))
  {
    hide Safe, Tracked, T.FindByFd;
    match T.FindByFd(s.table, m.fd)
    case Some(u) =>
      FoundOwn(s, m.fd);
      GoSafe(s, m.fd, Sizing(Some(Own(u.name, |s.history|))));
    case None => Moved(s, m.fd, Idle);
  }

  lemma FindingSafe(s: State, m: Move)
    requires Safe(s) && At(s, m.fd).FindingSelf?
    ensures Safe(Step(s, m))
  {
    NotFound(s, m.fd);
    hide Safe, Tracked, T.FindByFd;
    Moved(s, m.fd, At(Step(s, m), m.fd));
  }

  lemma NotFound(s: State, fd: int)
    requires Safe(s)
    ensures T.FindByFd(s.table, fd).None? ==> fd !in s.table.byFd
  {
  }

  lemma SizingSafe(s: State, m: Move)
    requires Safe(s) && At(s, m.fd).Sizing?
    ensures Safe(Step(s, m))
  {
    var place := At(Step(s, m), m.fd);
    SafeAt(s, m.fd);
    SamePledge(s.history, At(s, m.fd), place, m.fd);
    assert s.history[..|s.history|] == s.history;
    assert Sized(s.history, place);
    GoSafe(s, m.fd, place);
  }

  /** A record that has just been found. */
  lemma FoundRecord(s: State, d: int, failed: seq<int>, own: Option<Own>)
    requires Safe(s) && T.FindByFd(s.table, d).Some?
    ensures var u := T.FindByFd(s.table, d).value;
            FoundTracked(s.history, Dropping(Found(u.name, u.fd, |s.history|), failed, own))
  {
    var u := T.FindByFd(s.table, d).value;
    assert Holder(s.table, u.name) == Owner(s.history, u.name);
  }

  lemma ScanningSafe(s: State, m: Move)
    requires Safe(s) && At(s, m.fd).Scanning?
    ensures Safe(Step(s, m))
  {
    var place := At(Step(s, m), m.fd);
    var failed := At(s, m.fd).failed;
    if failed != [] && T.FindByFd(s.table, failed[0]).Some? {
      FoundRecord(s, failed[0], failed[1..], At(s, m.fd).own);
      SafeAt(s, m.fd);
      SamePledge(s.history, At(s, m.fd), place, m.fd);
      hide Safe, Tracked, FoundTracked, T.FindByFd;
      GoSafe(s, m.fd, place);
    } else {
      hide Safe, Tracked, T.FindByFd;
      Moved(s, m.fd, place);
    }
  }

  lemma StepSafe(s: State, m: Move)
    requires Safe(s)
    ensures Safe(Step(s, m))
  {
    hide Safe, PlaceSafe, Tracked, T.FindByFd, T.FindByName, T.Add, T.Remove, CanFail, InBounds;
    var fd := m.fd;
    SafeAt(s, fd);
    match At(s, fd)
    case Adding(name) =>
      if T.Add(s.table, name, fd).1 {
        EnterSafe(s, name, fd);
      } else {
        Moved(s, fd, Idle);
      }
    case Leaving => LeavingSafe(s, m);
    case FindingSelf(name) => FindingSafe(s, m);
    case FindingName(name) => StillAbsent(s, fd);
      Moved(s, fd, At(Step(s, m), fd));
    case Sizing(own) => SizingSafe(s, m);
    case Telling(_, _, own) =>
      if CanFail(s, fd, m.failed) {
        Moved(s, fd, At(Step(s, m), fd));
      }
    case Scanning(_, _) => ScanningSafe(s, m);
    case Dropping(found, failed, own) =>
      DropSafe(s, found.name);
      Moved(Drop(s, found.name), fd, Scanning(failed, own));
    case Removing(mine) =>
      DropSafe(s, mine.name);
      Moved(Drop(s, mine.name), fd, Idle);
    case Overrun =>
    case _ =>
      Moved(s, fd, At(Step(s, m), fd));
  }

  lemma StillAbsent(s: State, fd: int)
    requires PlaceSafe(s.table, s.history, At(s, fd), fd)
    ensures Absent(s.table, At(s, fd), fd)
  {
  }

  // -------------------------------------------------------------------------- what follows

  /** In every state that any interleaving of any threads can reach, the indexes are inverse, so no
      two registered entries share a username or a descriptor. */
  lemma {:induction false} EveryInterleavingIsSafe(s: State, moves: seq<Move>)
    requires Safe(s)
    ensures Safe(Run(Step, s, moves))
    decreases moves
  {
    hide Safe, Step;
    if moves == [] {
    } else {
      StepSafe(s, moves[0]);
      EveryInterleavingIsSafe(Step(s, moves[0]), moves[1..]);
    }
  }

  lemma StartSafe()
    ensures Safe(START)
  {
  }

  lemma NoSharedEntries(moves: seq<Move>)
    ensures var t := Run(Step, START, moves).table;
            && T.Inverse(t)
            && (forall n, n' :: n in t.byName && n' in t.byName && t.byName[n].fd == t.byName[n'].fd ==> n == n')
            && (forall n :: n in t.byName ==> t.byName[n].name == n)
  {
    StartSafe();
    EveryInterleavingIsSafe(START, moves);
    InverseIsInjective(Run(Step, START, moves).table);
  }

  lemma InverseIsInjective(t: T.Table)
    requires T.Inverse(t)
    ensures forall n, n' :: n in t.byName && n' in t.byName && t.byName[n].fd == t.byName[n'].fd ==> n == n'
  {
  }

  /** Of the threads racing for a name only one wins until the name is removed: between two successful
      additions of a name, somebody removed it. */
  lemma OnlyOneWins(moves: seq<Move>, i: nat, j: nat, name: string)
    requires var h := Run(Step, START, moves).history;
             i < j < |h| && h[i].Added? && h[j].Added? && h[i].name == h[j].name == name
    ensures exists k :: i < k < j && Run(Step, START, moves).history[k] == Removed(name)
  {
    StartSafe();
    EveryInterleavingIsSafe(START, moves);
    var h := Run(Step, START, moves).history;
    assert h[j].Added?;
    OwnerUnlessRemoved(h, i, j);
  }

  /** Who added a name holds it until it is removed. */
  lemma {:induction false} OwnerUnlessRemoved(h: seq<Event>, i: nat, j: nat)
    requires i < j <= |h| && h[i].Added? && Exclusive(h)
    ensures Owner(h[..j], h[i].name) == Some(h[i].fd) || exists k :: i < k < j && h[k] == Removed(h[i].name)
    decreases j
  {
    var last := h[j - 1];
    assert h[..j] == h[..j - 1] + [last];
    OwnerAfter(h[..j - 1], last, h[i].name);
    if j - 1 > i {
      OwnerUnlessRemoved(h, i, j - 1);
      hide Owner;
      if last.name == h[i].name && last.Added? {
        assert Owner(h[..j - 1], last.name) == None;
      }
    }
  }

  /** The same for a descriptor: before a client is added again, the name it had is removed. */
  lemma OneNamePerClient(moves: seq<Move>, i: nat, j: nat, fd: int)
    requires var h := Run(Step, START, moves).history;
             i < j < |h| && h[i].Added? && h[j].Added? && h[i].fd == h[j].fd == fd
    ensures var h := Run(Step, START, moves).history;
            exists k :: i < k < j && h[k] == Removed(h[i].name)
  {
    StartSafe();
    EveryInterleavingIsSafe(START, moves);
    var h := Run(Step, START, moves).history;
    assert h[j].Added?;
    OwnerUnlessRemoved(h, i, j);
  }

  /** The last step of a DISCONNECT removes its own record exactly if nobody has removed that name since
      the thread looked itself up; it removes the record of another client exactly if the name was taken
      since then and not removed after that; and otherwise it removes nothing. */
  lemma WhatDisconnectRemoves(moves: seq<Move>, fd: nat)
    requires At(Run(Step, START, moves), fd).Removing?
    ensures var s := Run(Step, START, moves);
            var own := At(s, fd).mine;
            && (Holder(s.table, own.name) == Some(fd) <==> NotRemoved(s.history, own.name, own.since))
            && (T.FindByFd(s.table, fd).Some? && T.FindByFd(s.table, fd).value.name == own.name
                <==> NotRemoved(s.history, own.name, own.since))
            && (HeldByOther(Holder(s.table, own.name), fd) <==> Retaken(s.history, own.name, own.since))
            && (Drop(s, own.name) == s
                <==> !NotRemoved(s.history, own.name, own.since) && !Retaken(s.history, own.name, own.since))
  {
    StartSafe();
    EveryInterleavingIsSafe(START, moves);
    var s := Run(Step, START, moves);
    hide Owner, Run, NotRemoved, Retaken;
    SafeAt(s, fd);
    assert Holder(s.table, At(s, fd).mine.name) == Owner(s.history, At(s, fd).mine.name);
  }

  /** A removal in the second loop of a broadcast hits whoever holds the name by then: the client found
      under the failed descriptor, exactly if its name was not removed since it was found, or the client has
      taken it again; another client exactly if that one has taken it since; and otherwise nobody. */
  lemma WhatBroadcastRemoves(moves: seq<Move>, fd: nat)
    requires At(Run(Step, START, moves), fd).Dropping?
    ensures var s := Run(Step, START, moves);
            var found := At(s, fd).found;
            && (forall d :: Holder(s.table, found.name) == Some(d) <==> FoundOwner(s.history, found, d))
            && (Drop(s, found.name) == s <==> forall d :: !FoundOwner(s.history, found, d))
  {
    StartSafe();
    EveryInterleavingIsSafe(START, moves);
    var s := Run(Step, START, moves);
    hide Owner, Run, FoundOwner;
    SafeAt(s, fd);
    var found := At(s, fd).found;
    assert Holder(s.table, found.name) == Owner(s.history, found.name);
    if found.name in s.table.byName {
      assert FoundOwner(s.history, found, s.table.byName[found.name].fd);
    }
  }

  // ------------------------------------------------------ the case where it removes another's

  /** A new client identifies itself without being overtaken. */
  lemma Arrives(s: State, fd: nat, name: string) returns (s': State)
    requires Reachable(Step, START, s) && At(s, fd) == Idle
    requires fd !in s.table.byFd && name !in s.table.byName && UsernameOk(name)
    ensures s' == Go(Enter(s, name, fd), fd, Welcoming) && Reachable(Step, START, s')
  {
    hide Reachable, Run;
    var m := Move(fd, Some(name), true, []);
    s' := Then(Step, START, s, m);
    s' := Then(Step, START, s', m);
    s' := Then(Step, START, s', m);
    s' := Then(Step, START, s', m);
    assert s'.places == s.places[fd := Welcoming];
  }

  /** A DISCONNECT that is overtaken by a broadcast which drops its user, and then by a client that takes
      the name, removes the record of that client, who never left. */
  lemma DisconnectMayRemoveAnother(fd: nat, helper: nat, victim: nat, name: string, other: string)
    returns (s: State, m: Move)
    requires fd != helper && helper != victim && fd != victim
    requires name != other && UsernameOk(name) && UsernameOk(other)
    ensures Reachable(Step, START, s) && m.fd == fd && At(s, fd).Removing?
    ensures Holder(s.table, name) == Some(victim) && At(s, victim) == Welcoming
    ensures Holder(Step(s, m).table, name) == None
  {
    hide Reachable, Run;
    assert Reachable(Step, START, START) by {
      StartReachable(Step, START);
    }
    s := Arrives(START, fd, name);
    m := Move(fd, None, false, []);
    s := Then(Step, START, s, m);
    s := Then(Step, START, s, m);
    assert At(s, fd) == Sizing(Some(Own(name, 1)));
    s := OvertakenByBroadcast(s, helper, other, fd, name);
    s := Arrives(s, victim, name);
    s := NobodyFails(s, m, Some(Own(name, 1)));
    s := Then(Step, START, s, m);
  }

  /** A broadcast that reaches everybody. */
  lemma NobodyFails(s: State, m: Move, own: Option<Own>) returns (s': State)
    requires Reachable(Step, START, s) && At(s, m.fd) == Sizing(own) && m.failed == []
    ensures Reachable(Step, START, s') && s' == Go(s, m.fd, Scanning([], own))
  {
    hide Reachable, Run;
    s' := Then(Step, START, s, m);
    assert Cells(|s.table.byName|, [])[0] == -1;
    s' := Then(Step, START, s', m);
    assert s'.places == s.places[m.fd := Scanning([], own)];
  }

  /** A new client's news do not reach `lost`, who is dropped. */
  lemma OvertakenByBroadcast(s: State, helper: nat, other: string, lost: nat, name: string) returns (s': State)
    requires Reachable(Step, START, s) && At(s, helper) == Idle && UsernameOk(other) && name != other
    requires helper != lost
    requires s.table.byName.Keys == {name} && s.table.byFd == map[lost := name] && s.table.byName[name].fd == lost
    requires s.table.byName[name].name == name
    ensures Reachable(Step, START, s') && s'.places == s.places[helper := Scanning([], None)]
    ensures s'.table.byName.Keys == {other} && s'.table.byFd.Keys == {helper}
  {
    hide Reachable, Run;
    s' := Arrives(s, helper, other);
    s' := Then(Step, START, s', Move(helper, None, true, []));
    s' := OneFails(s', helper, lost);
    s' := LostIsDropped(s', helper, lost, name);
    assert s'.places == s.places[helper := Scanning([], None)];
  }

  lemma OneFails(s: State, helper: nat, lost: nat) returns (s': State)
    requires Reachable(Step, START, s) && At(s, helper) == Sizing(None) && |s.table.byName| > 0
    requires lost in s.table.byFd && lost != helper
    ensures Reachable(Step, START, s') && s' == Go(s, helper, Scanning([lost], None))
  {
    hide Reachable, Run;
    s' := Then(Step, START, s, Move(helper, None, true, []));
    assert Cells(|s.table.byName|, [lost])[1] == -1;
    s' := Then(Step, START, s', Move(helper, None, true, [lost]));
    assert s'.places == s.places[helper := Scanning([lost], None)];
  }

  lemma LostIsDropped(s: State, helper: nat, lost: nat, name: string) returns (s': State)
    requires Reachable(Step, START, s) && At(s, helper) == Scanning([lost], None)
    requires T.FindByFd(s.table, lost).Some? && T.FindByFd(s.table, lost).value.name == name && name in s.table.byName
    ensures Reachable(Step, START, s') && s' == Go(Drop(s, name), helper, Scanning([], None))
  {
    hide Reachable, Run, T.FindByFd, Drop;
    s' := Then(Step, START, s, Move(helper, None, true, []));
    assert [lost][1..] == [];
    var found := Found(name, T.FindByFd(s.table, lost).value.fd, |s.history|);
    assert s' == Go(s, helper, Dropping(found, [], None));
    s' := Then(Step, START, s', Move(helper, None, true, []));
    DropThenGo(s, helper, name, Dropping(found, [], None), Scanning([], None));
  }

  /** A broadcast that fails to reach a client, who then leaves before it is dropped and whose name another
      takes, removes the record of that other client: nothing sent to it failed, and it never left. */
  lemma BroadcastMayRemoveAnother(helper: nat, lost: nat, victim: nat, name: string, other: string)
    returns (s: State, m: Move)
    requires lost != helper && helper != victim && lost != victim
    requires name != other && UsernameOk(name) && UsernameOk(other)
    ensures Reachable(Step, START, s) && m.fd == helper && At(s, helper).Dropping? && At(s, helper).found.fd == lost
    ensures Holder(s.table, name) == Some(victim) && At(s, victim) == Welcoming
    ensures Holder(Step(s, m).table, name) == None
  {
    hide Reachable, Run;
    m := Move(helper, None, true, []);
    s := LostIsFound(helper, lost, name, other);
    s := Departs(s, lost, name);
    s := Arrives(s, victim, name);
  }

  /** Two clients have come in, the second right after the first. */
  lemma TwoArrive(first: nat, second: nat, name: string, other: string) returns (s: State)
    requires first != second && name != other && UsernameOk(name) && UsernameOk(other)
    ensures Reachable(Step, START, s) && s.places == map[first := Welcoming, second := Welcoming]
    ensures s.table.byName == map[name := User(name, first, ACTIVE), other := User(other, second, ACTIVE)]
    ensures s.table.byFd == map[first := name, second := other]
  {
    StartReachable(Step, START);
    hide Reachable, Run;
    s := Arrives(START, first, name);
    s := Arrives(s, second, other);
  }

  /** A new client's news have not reached `lost`, who has been looked up. */
  lemma LostIsFound(helper: nat, lost: nat, name: string, other: string) returns (s: State)
    requires lost != helper && name != other && UsernameOk(name) && UsernameOk(other)
    ensures Reachable(Step, START, s) && s.places.Keys == {lost, helper} && s.places[lost] == Welcoming
    ensures s.places[helper].Dropping? && s.places[helper].found.name == name && s.places[helper].found.fd == lost
    ensures s.table.byName == map[name := User(name, lost, ACTIVE), other := User(other, helper, ACTIVE)]
    ensures s.table.byFd == map[lost := name, helper := other]
  {
    hide Reachable, Run;
    s := TwoArrive(lost, helper, name, other);
    s := Then(Step, START, s, Move(helper, None, true, []));
    s := OneFails(s, helper, lost);
    s := Then(Step, START, s, Move(helper, None, true, []));
  }

  /** A client whose reply fails leaves without being overtaken. */
  lemma Departs(s: State, fd: nat, name: string) returns (s': State)
    requires Reachable(Step, START, s) && At(s, fd) == Welcoming && fd in s.table.byFd && s.table.byFd[fd] == name
    requires name in s.table.byName && s.table.byName[name] == User(name, fd, ACTIVE)
    ensures Reachable(Step, START, s') && s' == Go(Drop(s, name), fd, Idle)
  {
    hide Reachable, Run, Drop;
    var m := Move(fd, None, false, []);
    s' := Then(Step, START, s, m);
    s' := Then(Step, START, s', m);
    var own := Own(name, |s.history|);
    assert s'.places == s.places[fd := Sizing(Some(own))];
    s' := NobodyFails(s', m, Some(own));
    s' := Then(Step, START, s', m);
    assert s' == Go(s, fd, Removing(own));
    s' := Then(Step, START, s', m);
    DropThenGo(s, fd, name, Removing(own), Idle);
  }

  lemma DropThenGo(s: State, fd: int, name: string, a: Place, b: Place)
    ensures Go(Drop(Go(s, fd, a), name), fd, b) == Go(Drop(s, name), fd, b)
  {
  }

  // ------------------------------------------------------------ the array of failed descriptors

  /** The writes and the scan stay in the array exactly if no more sends fail than the size read. */
  lemma InBoundsExactly(size: nat, failed: seq<int>)
    requires forall i :: 0 <= i < |failed| ==> failed[i] >= 0
    ensures InBounds(size, failed) <==> |failed| <= size
  {
    if |failed| <= size {
      assert Cells(size, failed)[|failed|] == -1;
    } else if |failed| == size + 1 {
      assert Cells(size, failed) == failed;
    }
  }

  /** Distinct elements of a set are no more than it has. */
  lemma {:induction false} DistinctFit(xs: seq<int>, all: set<int>)
    requires forall i, j :: 0 <= i < j < |xs| ==> xs[i] != xs[j]
    requires forall i :: 0 <= i < |xs| ==> xs[i] in all
    ensures |xs| <= |all|
    decreases xs
  {
    if xs == [] {
    } else {
      DistinctFit(xs[1..], all - {xs[0]});
    }
  }

  lemma {:induction false} ListedOnce<A>(all: set<A>) returns (xs: seq<A>)
    ensures |xs| == |all| && forall i :: 0 <= i < |xs| ==> xs[i] in all
    ensures forall i, j :: 0 <= i < j < |xs| ==> xs[i] != xs[j]
    decreases all
  {
    xs := [];
    if x :| x in all {
      var rest := ListedOnce(all - {x});
      xs := [x] + rest;
    } else {
      assert all == {};
    }
  }

  /** The descriptors a thread's broadcast visits and sends to. */
  function Others(t: T.Table, fd: int): set<int> {
    t.byFd.Keys - {fd}
  }

  ghost predicate MayOverrun(s: State, fd: nat) {
    exists failed :: Overruns(s, fd, failed)
  }

  ghost predicate Overruns(s: State, fd: nat, failed: seq<int>) {
    At(Step(s, Move(fd, None, true, failed)), fd) == Overrun
  }

  /** A broadcast leaves its array exactly if more of its sends fail than the table had users when the
      size was read; so it can happen exactly if there are now more others than that. */
  lemma OverrunExactly(s: State, fd: nat)
    requires At(s, fd).Telling? && Accepted(s.table)
    ensures forall failed :: Overruns(s, fd, failed) <==> CanFail(s, fd, failed) && |failed| > At(s, fd).size
    ensures MayOverrun(s, fd) <==> |Others(s.table, fd)| > At(s, fd).size
  {
    forall failed
      ensures Overruns(s, fd, failed) <==> CanFail(s, fd, failed) && |failed| > At(s, fd).size
    {
      if CanFail(s, fd, failed) {
        InBoundsExactly(At(s, fd).size, failed);
      }
    }
    hide Overruns;
    if failed :| Overruns(s, fd, failed) {
      DistinctFit(failed, Others(s.table, fd));
    }
    if |Others(s.table, fd)| > At(s, fd).size {
      var failed := ListedOnce(Others(s.table, fd));
      assert Overruns(s, fd, failed);
    }
  }

  /** It takes users who were added after the size was read: without at least one more addition than
      removals since then, and two if the thread's own user is still in the table, all stays in bounds. */
  lemma OverrunNeedsNewcomers(moves: seq<Move>, fd: nat)
    requires At(Run(Step, START, moves), fd).Telling? && MayOverrun(Run(Step, START, moves), fd)
    ensures At(Run(Step, START, moves), fd).asOf <= |Run(Step, START, moves).history|
    ensures var s := Run(Step, START, moves);
            Count(s.history) - Count(s.history[..At(s, fd).asOf]) >= if fd in s.table.byFd then 2 else 1
  {
    StartSafe();
    EveryInterleavingIsSafe(START, moves);
    var s := Run(Step, START, moves);
    OverrunExactly(s, fd);
    SafeAt(s, fd);
    OthersCount(s.table, fd);
    hide Run, Count, MayOverrun, T.Inverse, Recorded, Exclusive, Tracked, Absent, Others;
  }

  lemma OthersCount(t: T.Table, fd: int)
    requires T.Inverse(t)
    ensures |Others(t, fd)| == |t.byName| - if fd in t.byFd then 1 else 0
  {
    SameSize(t);
    hide T.Inverse;
    var all := t.byFd.Keys;
    assert fd in all ==> all == Others(t, fd) + {fd};
    assert fd !in all ==> all == Others(t, fd);
  }

  lemma SameSize(t: T.Table)
    requires T.Inverse(t)
    ensures |t.byFd.Keys| == |t.byName|
  {
    var fds := map n | n in t.byName :: t.byName[n].fd;
    forall a, b | a in fds && b in fds && fds[a] == fds[b]
      ensures a == b
    {
      assert t.byFd[t.byName[a].fd] == a && t.byFd[t.byName[b].fd] == b;
    }
    ImageSize(fds, t.byName.Keys);
    forall d: int
      ensures d in t.byFd.Keys <==> d in Image(fds, t.byName.Keys)
    {
      if d in t.byFd {
        assert fds[t.byFd[d]] == d;
      }
    }
    assert Image(fds, t.byName.Keys) == t.byFd.Keys;
  }

  ghost function Image<A, B>(m: map<A, B>, keys: set<A>): set<B>
    requires keys <= m.Keys
  {
    set a | a in keys :: m[a]
  }

  lemma {:induction false} ImageSize<A, B>(m: map<A, B>, keys: set<A>)
    requires keys <= m.Keys && forall a, b :: a in m && b in m && m[a] == m[b] ==> a == b
    ensures |Image(m, keys)| == |keys|
    decreases keys
  {
    if a :| a in keys {
      ImageSize(m, keys - {a});
      assert Image(m, keys) == Image(m, keys - {a}) + {m[a]};
      assert m[a] !in Image(m, keys - {a});
    } else {
      assert keys == {};
    }
  }

  /** It does happen: of a client alone in the table, overtaken by two who come in before it tells them. */
  lemma OverrunHappens(fd: nat, first: nat, second: nat, name: string, name1: string, name2: string)
    returns (s: State)
    requires fd != first && fd != second && first != second
    requires name != name1 && name != name2 && name1 != name2
    requires UsernameOk(name) && UsernameOk(name1) && UsernameOk(name2)
    ensures Reachable(Step, START, s) && At(s, fd) == Overrun
  {
    hide Reachable, Run;
    s := AloneAndCounted(fd, name);
    s := Arrives(s, first, name1);
    s := Arrives(s, second, name2);
    InBoundsExactly(1, [first, second]);
    hide InBounds;
    assert CanFail(s, fd, [first, second]);
    s := Then(Step, START, s, Move(fd, None, true, [first, second]));
  }

  lemma AloneAndCounted(fd: nat, name: string) returns (s: State)
    requires UsernameOk(name)
    ensures Reachable(Step, START, s)
    ensures s.table == T.Add(T.EMPTY, name, fd).0 && s.places == map[fd := Telling(1, 1, None)]
  {
    hide Reachable, Run;
    assert Reachable(Step, START, START) by {
      StartReachable(Step, START);
    }
    s := Arrives(START, fd, name);
    s := Then(Step, START, s, Move(fd, None, true, []));
    assert |s.table.byName| == 1 by {
      assert s.table.byName.Keys == {name};
    }
    s := Then(Step, START, s, Move(fd, None, true, []));
  }
}
