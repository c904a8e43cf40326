/** How people come into rooms, over whole runs. */
module Provenance {
  import opened Base
  import opened Messages
  import P = Protocol
  import N = NameServer
  import R = Refinement
  import E = Effects
  import opened Runs

  /** The user who sent input `i`. */
  ghost function Sender(e: P.Env, run: seq<P.Input>, i: nat): Option<string>
    requires P.Iterates(e) && P.Admissible(run) && i < |run|
  {
    N.Holder(After(e, run, i).users, run[i].fd)
  }

  /** Input `i` is `name` opening the room. */
  ghost predicate Founded(e: P.Env, run: seq<P.Input>, i: nat, room: string, name: string)
    requires P.Iterates(e) && P.Admissible(run) && i < |run|
  {
    Sender(e, run, i) == Some(name) && run[i].msg.Some? && E.Founds(After(e, run, i), run[i].msg.value, name, room)
  }

  /** Input `i` is `host`, a member of the room, inviting `name`, who is not in it. */
  ghost predicate Invited(e: P.Env, run: seq<P.Input>, i: nat, room: string, host: string, name: string)
    requires P.Iterates(e) && P.Admissible(run) && i < |run|
  {
    && Sender(e, run, i) == Some(host) && run[i].msg.Some?
    && E.Invites(After(e, run, i), run[i].msg.value, host, room, name)
  }

  /** Input `i` is `name`, a guest of the room, joining it. */
  ghost predicate Joined(e: P.Env, run: seq<P.Input>, i: nat, room: string, name: string)
    requires P.Iterates(e) && P.Admissible(run) && i < |run|
  {
    Sender(e, run, i) == Some(name) && run[i].msg.Some? && E.Joins(After(e, run, i), run[i].msg.value, name, room)
  }

  ghost predicate GuestThroughout(e: P.Env, run: seq<P.Input>, from: nat, k: nat, room: string, name: string)
    requires P.Iterates(e) && P.Admissible(run) && k <= |run|
  {
    forall t :: from <= t <= k ==> room in After(e, run, t).rooms && name in After(e, run, t).rooms[room].guests
  }

  ghost predicate MemberThroughout(e: P.Env, run: seq<P.Input>, from: nat, k: nat, room: string, name: string)
    requires P.Iterates(e) && P.Admissible(run) && k <= |run|
  {
    forall t :: from <= t <= k ==> room in After(e, run, t).rooms && name in After(e, run, t).rooms[room].members
  }

  /** `name` was invited after input `birth` by somebody who was then a warranted member, and has
      been a guest ever since. */
  ghost predicate GuestWarrant(e: P.Env, run: seq<P.Input>, birth: nat, k: nat, room: string, name: string)
    requires P.Iterates(e) && P.Admissible(run) && k <= |run|
    decreases k, 0
  {
    exists i, host :: birth < i < k
      && Invited(e, run, i, room, host, name)
      && MemberWarrant(e, run, birth, i, room, host)
      && GuestThroughout(e, run, i + 1, k, room, name)
  }

  /** `name` founded the room at input `birth`, or sent its own JOIN_ROOM as a warranted guest; and
      has been a member ever since. */
  ghost predicate MemberWarrant(e: P.Env, run: seq<P.Input>, birth: nat, k: nat, room: string, name: string)
    requires P.Iterates(e) && P.Admissible(run) && k <= |run|
    decreases k, 0
  {
    || (birth < k && Founded(e, run, birth, room, name) && MemberThroughout(e, run, birth + 1, k, room, name))
    || (exists j :: birth < j < k
         && Joined(e, run, j, room, name)
         && GuestWarrant(e, run, birth, j, room, name)
         && MemberThroughout(e, run, j + 1, k, room, name))
  }

  /** The room has existed without a break since input `birth` created it. */
  ghost predicate Lifetime(e: P.Env, run: seq<P.Input>, birth: nat, k: nat, room: string)
    requires P.Iterates(e) && P.Admissible(run) && k <= |run|
  {
    birth < k && room !in After(e, run, birth).rooms
    && forall t :: birth < t <= k ==> room in After(e, run, t).rooms
  }

  /** Nobody is in the room without a warrant from the lifetime that began at `birth`. */
  ghost predicate AllWarranted(e: P.Env, run: seq<P.Input>, birth: nat, k: nat, room: string)
    requires P.Iterates(e) && P.Admissible(run) && k <= |run| && room in After(e, run, k).rooms
  {
    && (forall n :: n in After(e, run, k).rooms[room].guests ==> GuestWarrant(e, run, birth, k, room, n))
    && (forall n :: n in After(e, run, k).rooms[room].members ==> MemberWarrant(e, run, birth, k, room, n))
  }

  lemma LongerGuest(e: P.Env, run: seq<P.Input>, birth: nat, i: nat, k: nat, room: string, name: string)
    requires P.Iterates(e) && P.Admissible(run) && k == i + 1 <= |run|
    requires GuestWarrant(e, run, birth, i, room, name)
    requires room in After(e, run, k).rooms && name in After(e, run, k).rooms[room].guests
    ensures GuestWarrant(e, run, birth, k, room, name)
  {
    hide After, Invited, MemberWarrant, P.Admissible, P.Iterates;
    var t, host :| birth < t < i && Invited(e, run, t, room, host, name)
      && MemberWarrant(e, run, birth, t, room, host) && GuestThroughout(e, run, t + 1, i, room, name);
    assert GuestThroughout(e, run, t + 1, k, room, name);
  }

  lemma LongerMember(e: P.Env, run: seq<P.Input>, birth: nat, i: nat, k: nat, room: string, name: string)
    requires P.Iterates(e) && P.Admissible(run) && k == i + 1 <= |run|
    requires MemberWarrant(e, run, birth, i, room, name)
    requires room in After(e, run, k).rooms && name in After(e, run, k).rooms[room].members
    ensures MemberWarrant(e, run, birth, k, room, name)
  {
    hide After, Founded, Joined, GuestWarrant, P.Admissible, P.Iterates;
    if birth < i && Founded(e, run, birth, room, name) && MemberThroughout(e, run, birth + 1, i, room, name) {
      assert MemberThroughout(e, run, birth + 1, k, room, name);
    } else {
      var j :| birth < j < i && Joined(e, run, j, room, name)
        && GuestWarrant(e, run, birth, j, room, name) && MemberThroughout(e, run, j + 1, i, room, name);
      assert MemberThroughout(e, run, j + 1, k, room, name);
    }
  }

  /** One input of a run, as seen from a room that exists after it. */
  lemma InputExplained(e: P.Env, run: seq<P.Input>, i: nat, k: nat, room: string)
    requires P.Iterates(e) && P.Admissible(run) && k == i + 1 <= |run| && room in After(e, run, k).rooms
    ensures if run[i].msg.Some? && Sender(e, run, i).Some? then
              E.Explained(After(e, run, i), run[i].msg.value, Sender(e, run, i).value, After(e, run, k), room)
            else
              E.Shrinks(After(e, run, i).rooms, After(e, run, k).rooms)
  {
    E.StepExplained(After(e, run, i), e, run[i].msg, run[i].fd, room);
  }

  /** Nobody is in a room without a warrant from its current lifetime: guests and members lead back
      to its founder through finitely many invitations, each by a then-member, and every member who
      is not the founder sent its own JOIN_ROOM.  Invitations from before `birth` play no part. */
  lemma {:induction false} EveryoneIsWarranted(e: P.Env, run: seq<P.Input>, birth: nat, k: nat, room: string)
    requires P.Iterates(e) && P.Admissible(run) && k <= |run| && Lifetime(e, run, birth, k, room)
    ensures AllWarranted(e, run, birth, k, room)
    decreases k
  {
    var i := k - 1;
    if i == birth {
      FoundersStep(e, run, birth, k, room);
    } else {
      assert Lifetime(e, run, birth, i, room);
      EveryoneIsWarranted(e, run, birth, i, room);
      GuestsStep(e, run, birth, i, k, room);
      MembersStep(e, run, birth, i, k, room);
    }
  }

  lemma FoundersStep(e: P.Env, run: seq<P.Input>, birth: nat, k: nat, room: string)
    requires P.Iterates(e) && P.Admissible(run) && k == birth + 1 <= |run|
    requires room !in After(e, run, birth).rooms && room in After(e, run, k).rooms
    ensures AllWarranted(e, run, birth, k, room)
    ensures exists founder :: Founded(e, run, birth, room, founder)
  {
    InputExplained(e, run, birth, k, room);
    hide After, GuestWarrant, MemberWarrant, P.Admissible, P.Iterates;
    var me := Sender(e, run, birth).value;
    assert Founded(e, run, birth, room, me);
    if me in After(e, run, k).rooms[room].members {
      NewFounder(e, run, birth, k, room, me);
    }
  }

  lemma NewFounder(e: P.Env, run: seq<P.Input>, birth: nat, k: nat, room: string, n: string)
    requires P.Iterates(e) && P.Admissible(run) && k == birth + 1 <= |run|
    requires Founded(e, run, birth, room, n)
    requires room in After(e, run, k).rooms && n in After(e, run, k).rooms[room].members
    ensures MemberWarrant(e, run, birth, k, room, n)
  {
    hide After, Founded, GuestWarrant, P.Admissible, P.Iterates;
    assert MemberThroughout(e, run, birth + 1, k, room, n);
  }

  lemma GuestsStep(e: P.Env, run: seq<P.Input>, birth: nat, i: nat, k: nat, room: string)
    requires P.Iterates(e) && P.Admissible(run) && birth < i && k == i + 1 <= |run|
    requires room in After(e, run, i).rooms && room in After(e, run, k).rooms
    requires AllWarranted(e, run, birth, i, room)
    ensures forall n :: n in After(e, run, k).rooms[room].guests ==> GuestWarrant(e, run, birth, k, room, n)
  {
    InputExplained(e, run, i, k, room);
    hide After, GuestWarrant, MemberWarrant, N.Valid, P.Admissible, P.Iterates;
    forall n | n in After(e, run, k).rooms[room].guests
      ensures GuestWarrant(e, run, birth, k, room, n)
    {
      if n in After(e, run, i).rooms[room].guests {
        LongerGuest(e, run, birth, i, k, room, n);
      } else {
        NewGuest(e, run, birth, i, k, room, Sender(e, run, i).value, n);
      }
    }
  }

  lemma NewGuest(e: P.Env, run: seq<P.Input>, birth: nat, i: nat, k: nat, room: string, host: string, n: string)
    requires P.Iterates(e) && P.Admissible(run) && birth < i && k == i + 1 <= |run|
    requires Invited(e, run, i, room, host, n) && MemberWarrant(e, run, birth, i, room, host)
    requires room in After(e, run, k).rooms && n in After(e, run, k).rooms[room].guests
    ensures GuestWarrant(e, run, birth, k, room, n)
  {
    hide After, Invited, MemberWarrant, P.Admissible, P.Iterates;
    assert GuestThroughout(e, run, i + 1, k, room, n);
  }

  lemma MembersStep(e: P.Env, run: seq<P.Input>, birth: nat, i: nat, k: nat, room: string)
    requires P.Iterates(e) && P.Admissible(run) && birth < i && k == i + 1 <= |run|
    requires room in After(e, run, i).rooms && room in After(e, run, k).rooms
    requires AllWarranted(e, run, birth, i, room)
    ensures forall n :: n in After(e, run, k).rooms[room].members ==> MemberWarrant(e, run, birth, k, room, n)
  {
    InputExplained(e, run, i, k, room);
    hide After, GuestWarrant, MemberWarrant, N.Valid, P.Admissible, P.Iterates;
    forall n | n in After(e, run, k).rooms[room].members
      ensures MemberWarrant(e, run, birth, k, room, n)
    {
      if n in After(e, run, i).rooms[room].members {
        LongerMember(e, run, birth, i, k, room, n);
      } else {
        NewMember(e, run, birth, i, k, room, n);
      }
    }
  }

  lemma NewMember(e: P.Env, run: seq<P.Input>, birth: nat, i: nat, k: nat, room: string, n: string)
    requires P.Iterates(e) && P.Admissible(run) && birth < i && k == i + 1 <= |run|
    requires Joined(e, run, i, room, n) && GuestWarrant(e, run, birth, i, room, n)
    requires room in After(e, run, k).rooms && n in After(e, run, k).rooms[room].members
    ensures MemberWarrant(e, run, birth, k, room, n)
  {
    hide After, Joined, GuestWarrant, P.Admissible, P.Iterates;
    assert MemberThroughout(e, run, i + 1, k, room, n);
  }

  /** Every room of every reachable state has a current lifetime, begun by one NEW_ROOM. */
  lemma {:induction false} RoomsHaveLifetimes(e: P.Env, run: seq<P.Input>, k: nat, room: string) returns (birth: nat)
    requires P.Iterates(e) && P.Admissible(run) && k <= |run| && room in After(e, run, k).rooms
    ensures birth < k && Lifetime(e, run, birth, k, room)
    ensures exists founder :: Founded(e, run, birth, room, founder)
    decreases k
  {
    hide After, Lifetime, Founded, P.Admissible, P.Iterates;
    NoRoomsYet(e, run);
    RoomsStep(e, run, k - 1, k, room);
    birth := k - 1;
    if room in After(e, run, k - 1).rooms {
      birth := RoomsHaveLifetimes(e, run, k - 1, room);
      StillAlive(e, run, birth, k - 1, k, room);
    }
  }

  lemma NoRoomsYet(e: P.Env, run: seq<P.Input>)
    requires P.Iterates(e) && P.Admissible(run)
    ensures After(e, run, 0).rooms == map[]
  {
  }

  lemma StillAlive(e: P.Env, run: seq<P.Input>, birth: nat, i: nat, k: nat, room: string)
    requires P.Iterates(e) && P.Admissible(run) && k == i + 1 <= |run|
    requires Lifetime(e, run, birth, i, room) && room in After(e, run, k).rooms
    ensures Lifetime(e, run, birth, k, room)
  {
    hide After, P.Admissible, P.Iterates;
  }

  lemma RoomsStep(e: P.Env, run: seq<P.Input>, i: nat, k: nat, room: string)
    requires P.Iterates(e) && P.Admissible(run) && k == i + 1 <= |run| && room in After(e, run, k).rooms
    ensures room !in After(e, run, i).rooms ==>
              Lifetime(e, run, i, k, room) && exists founder :: Founded(e, run, i, room, founder)
  {
    hide After, AllWarranted, Founded, P.Admissible, P.Iterates;
    if room !in After(e, run, i).rooms {
      FoundersStep(e, run, i, k, room);
    }
  }

  // -------------------------------------------------------------------- the chain written out

  /** `name` sent its own JOIN_ROOM, as a guest, between these two inputs. */
  ghost predicate JoinedBetween(e: P.Env, run: seq<P.Input>, from: nat, to: nat, room: string, name: string)
    requires P.Iterates(e) && P.Admissible(run) && to <= |run|
  {
    exists j :: from < j < to && Joined(e, run, j, room, name)
  }

  /** The hosts lead from the founder to `name`: each invited the next, at later and later inputs, and
      each but the founder had joined in between. */
  ghost predicate Chain(
    e: P.Env, run: seq<P.Input>, birth: nat, room: string, names: seq<string>, times: seq<nat>, k: nat, name: string)
    requires P.Iterates(e) && P.Admissible(run) && k <= |run| && birth < |run|
  {
    && |names| == |times| > 0 && names[|names| - 1] == name
    && times[0] == birth && Founded(e, run, birth, room, names[0])
    && (forall i :: 0 < i < |names| ==>
         times[i - 1] < times[i] < k && Invited(e, run, times[i], room, names[i - 1], names[i]))
    && (forall i :: 1 < i < |names| ==> JoinedBetween(e, run, times[i - 1], times[i], room, names[i - 1]))
  }

  lemma {:induction false} MemberHasChain(e: P.Env, run: seq<P.Input>, birth: nat, k: nat, room: string, name: string)
    returns (names: seq<string>, times: seq<nat>)
    requires P.Iterates(e) && P.Admissible(run) && k <= |run| && birth < |run|
    requires MemberWarrant(e, run, birth, k, room, name)
    ensures Chain(e, run, birth, room, names, times, k, name) && times[|times| - 1] < k
    ensures |names| == 1 || JoinedBetween(e, run, times[|times| - 1], k, room, name)
    decreases k, 0
  {
    hide After, Founded, Joined, Invited, GuestWarrant, MemberThroughout, P.Admissible, P.Iterates;
    if birth < k && Founded(e, run, birth, room, name) && MemberThroughout(e, run, birth + 1, k, room, name) {
      names, times := [name], [birth];
    } else {
      var j :| birth < j < k && Joined(e, run, j, room, name)
        && GuestWarrant(e, run, birth, j, room, name) && MemberThroughout(e, run, j + 1, k, room, name);
      names, times := GuestHasChain(e, run, birth, j, room, name);
    }
  }

  /** A finite chain of invitations joins every guest to the founder. */
  lemma {:induction false} GuestHasChain(e: P.Env, run: seq<P.Input>, birth: nat, k: nat, room: string, name: string)
    returns (names: seq<string>, times: seq<nat>)
    requires P.Iterates(e) && P.Admissible(run) && k <= |run| && birth < |run|
    requires GuestWarrant(e, run, birth, k, room, name)
    ensures Chain(e, run, birth, room, names, times, k, name) && times[|times| - 1] < k
    decreases k, 0
  {
    hide After, Founded, Invited, MemberWarrant, GuestThroughout, JoinedBetween, P.Admissible, P.Iterates;
    var i, host :| birth < i < k && Invited(e, run, i, room, host, name)
      && MemberWarrant(e, run, birth, i, room, host) && GuestThroughout(e, run, i + 1, k, room, name);
    var ns, ts := MemberHasChain(e, run, birth, i, room, host);
    names, times := ns + [name], ts + [i];
  }

  /** The same for the server with copies: everyone it keeps in a room is joined to the founder of
      the room's current lifetime. */
  lemma CopiedEntriesHaveChains(e: P.Env, run: seq<P.Input>, k: nat, room: string, name: string)
    returns (birth: nat, names: seq<string>, times: seq<nat>)
    requires P.Iterates(e) && P.Admissible(run) && k <= |run| && room in P.After(e, run, k).rooms
    requires var r := P.After(e, run, k).rooms[room]; name in r.members.byName || name in r.guests.byName
    ensures birth < k && Lifetime(e, run, birth, k, room)
    ensures Chain(e, run, birth, room, names, times, k, name)
    ensures name in P.After(e, run, k).rooms[room].members.byName ==>
              |names| == 1 || JoinedBetween(e, run, times[|times| - 1], k, room, name)
  {
    RunRefines(e, run, k);
    birth := RoomsHaveLifetimes(e, run, k, room);
    EveryoneIsWarranted(e, run, birth, k, room);
    if name in After(e, run, k).rooms[room].members {
      names, times := MemberHasChain(e, run, birth, k, room, name);
    } else {
      names, times := GuestHasChain(e, run, birth, k, room, name);
    }
  }
}
