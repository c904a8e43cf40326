/** What the log of a whole run holds. */
module Delivery {
  import opened Base
  import opened Messages
  import P = Protocol
  import N = NameServer
  import R = Refinement
  import E = Effects
  import opened Runs

  function RoomTextFrom(room: string, from: string, text: string): Message {
    BLANK.(kind := ROOM_TEXT_FROM, roomname := Some(room), username := Some(from), text := Some(text))
  }

  /** Input `i` is `from`, a member of the room, sending a text to it. */
  ghost predicate SendsText(e: P.Env, run: seq<P.Input>, i: nat, room: string, from: string, text: string)
    requires P.Iterates(e) && P.Admissible(run) && i < |run|
  {
    var s := After(e, run, i);
    && run[i].msg.Some? && run[i].msg.value.kind == ROOM_TEXT
    && run[i].msg.value.roomname == Some(room) && run[i].msg.value.text == Some(text)
    && N.Holder(s.users, run[i].fd) == Some(from)
    && room in s.rooms && from in s.rooms[room].members
  }

  /** The log only grows, and what input `i` appends. */
  lemma LogStep(e: P.Env, run: seq<P.Input>, i: nat, k: nat)
    requires P.Iterates(e) && P.Admissible(run) && k == i + 1 <= |run|
    ensures E.Appends(e, After(e, run, i).log, After(e, run, k).log, E.IsRoomText(run[i].msg))
  {
    E.StepAppends(After(e, run, i), e, run[i].msg, run[i].fd);
  }

  lemma SameLog(e: P.Env, run: seq<P.Input>, k: nat)
    requires P.Iterates(e) && P.Admissible(run) && k <= |run|
    ensures P.After(e, run, k).log == After(e, run, k).log
  {
    RunRefines(e, run, k);
  }

  /** What holds of every entry of every log. */
  ghost predicate EntryOk(e: P.Env, event: P.Event, index: nat) {
    event.Sent? ==> Transmissible(event.msg) && event.ok == e.delivers(index)
  }

  lemma AppendedEntry(e: P.Env, log: seq<P.Event>, log': seq<P.Event>, texts: bool, index: nat)
    requires E.Appends(e, log, log', texts) && index < |log'|
    ensures index < |log| ==> log'[index] == log[index]
    ensures index >= |log| ==> EntryOk(e, log'[index], index)
  {
  }

  lemma StartsEmpty(e: P.Env, run: seq<P.Input>)
    requires P.Iterates(e) && P.Admissible(run)
    ensures After(e, run, 0).log == []
  {
  }

  /** The input that made an entry of the log. */
  lemma {:induction false} Origin(e: P.Env, run: seq<P.Input>, k: nat, index: nat) returns (i: nat)
    requires P.Iterates(e) && P.Admissible(run) && k <= |run| && index < |After(e, run, k).log|
    ensures i < k && |After(e, run, i).log| <= index < |After(e, run, i + 1).log|
    ensures After(e, run, i + 1).log[index] == After(e, run, k).log[index]
    ensures EntryOk(e, After(e, run, k).log[index], index)
    decreases k
  {
    hide *;
    if k == 0 {
      StartsEmpty(e, run);
      assert false;
    }
    LogStep(e, run, k - 1, k);
    AppendedEntry(e, After(e, run, k - 1).log, After(e, run, k).log, E.IsRoomText(run[k - 1].msg), index);
    if index < |After(e, run, k - 1).log| {
      i := Origin(e, run, k - 1, index);
    } else {
      i := k - 1;
    }
  }

  /** Every message the server ever sends survives its encoding: the client decodes what was meant.
      The outcome recorded is the environment's. */
  lemma EverySendIsDecodable(e: P.Env, run: seq<P.Input>, k: nat, index: nat)
    requires P.Iterates(e) && P.Admissible(run) && k <= |run| && index < |P.After(e, run, k).log|
    requires P.After(e, run, k).log[index].Sent?
    ensures var event := P.After(e, run, k).log[index];
            Decode(Encode(event.msg)) == Some(event.msg) && event.ok == e.delivers(index)
  {
    SameLog(e, run, k);
    var _ := Origin(e, run, k, index);
    assert EntryOk(e, P.After(e, run, k).log[index], index);
    hide *;
    RoundTrip(P.After(e, run, k).log[index].msg);
  }

  /** A text of a member: one send to every other member and nothing else. */
  lemma TextStep(s: N.State, e: P.Env, m: Message, fd: int, room: string, from: string)
    requires P.Iterates(e) && N.Valid(s) && P.Dispatchable(m)
    requires m.kind == ROOM_TEXT && m.roomname == Some(room) && m.text.Some?
    requires N.Holder(s.users, fd) == Some(from) && room in s.rooms && from in s.rooms[room].members
    ensures var names := N.Others(e.order(|s.log|, s.rooms[room].members), from);
            && NoDuplicates(names) && (forall n :: n in names <==> n in s.rooms[room].members - {from})
            && N.Process(s, e, m, fd).0.log
               == s.log + E.Attempts(|s.log|, e, s.users, names, RoomTextFrom(room, from, m.text.value))
  {
    var order := e.order(|s.log|, s.rooms[room].members);
    N.OthersAreListed(order, from);
    R.OthersDistinct(order, from);
    E.DeliverAttempts(s.log, e, s.users, N.Others(order, from), RoomTextFrom(room, from, m.text.value));
  }

  ghost predicate IsText(event: P.Event) {
    event.Sent? && event.msg.kind == ROOM_TEXT_FROM
  }

  lemma OnlyWithTexts(e: P.Env, log: seq<P.Event>, log': seq<P.Event>, texts: bool, index: nat)
    requires E.Appends(e, log, log', texts) && |log| <= index < |log'| && IsText(log'[index])
    ensures texts
  {
  }

  /** A room text that is refused sends no text. */
  lemma RefusedText(s: N.State, e: P.Env, m: Message, me: string)
    requires P.Iterates(e) && N.Valid(s) && me in s.users
    requires m.roomname.Some? && m.text.Some? && m.roomname.value in s.rooms ==>
               me !in s.rooms[m.roomname.value].members
    ensures E.Appends(e, s.log, N.RoomText(s, e, m, me).0.log, false)
  {
    if m.roomname.Some? {
      E.ReplyAppends(s, e, me, P.Response("ROOM_TEXT", "NO_SUCH_ROOM", m.roomname));
      E.ReplyAppends(s, e, me, P.Response("ROOM_TEXT", "NOT_JOINED", m.roomname));
    }
  }

  /** Nor does one from somebody who is not a user. */
  lemma StrangersText(s: N.State, e: P.Env, m: Message, fd: int)
    requires P.Iterates(e) && N.Valid(s) && P.Dispatchable(m) && m.kind == ROOM_TEXT
    ensures N.Holder(s.users, fd).None? ==> E.Appends(e, s.log, N.Process(s, e, m, fd).0.log, false)
    ensures N.Holder(s.users, fd).Some? ==>
              N.Process(s, e, m, fd) == N.RoomText(s, e, m, N.Holder(s.users, fd).value)
  {
  }

  /** Room texts come from nothing but a member's ROOM_TEXT. */
  lemma OnlyTextsText(s: N.State, e: P.Env, m: Message, fd: int, index: nat)
    requires P.Iterates(e) && N.Valid(s) && P.Dispatchable(m)
    requires |s.log| <= index < |N.Process(s, e, m, fd).0.log| && IsText(N.Process(s, e, m, fd).0.log[index])
    ensures m.kind == ROOM_TEXT && m.roomname.Some? && m.text.Some? && N.Holder(s.users, fd).Some?
    ensures m.roomname.value in s.rooms && N.Holder(s.users, fd).value in s.rooms[m.roomname.value].members
  {
    var log := N.Process(s, e, m, fd).0.log;
    hide N.Process, N.RoomText, N.Valid, P.Dispatchable, P.Iterates, E.Appends, IsText;
    E.ProcessAppends(s, e, m, fd);
    OnlyWithTexts(e, s.log, log, m.kind == ROOM_TEXT, index);
    StrangersText(s, e, m, fd);
    if N.Holder(s.users, fd).None? {
      OnlyWithTexts(e, s.log, log, false, index);
    } else {
      var me := N.Holder(s.users, fd).value;
      if m.roomname.Some? && m.text.Some? && m.roomname.value in s.rooms && me in s.rooms[m.roomname.value].members {
      } else {
        RefusedText(s, e, m, me);
        OnlyWithTexts(e, s.log, log, false, index);
      }
    }
  }

  lemma AttemptEntry(
    log: seq<P.Event>, log': seq<P.Event>, e: P.Env, users: map<string, User>, names: seq<string>, m: Message,
        index: nat)
    returns (to: string)
    requires forall n :: n in names ==> n in users
    requires log' == log + E.Attempts(|log|, e, users, names, m) && |log| <= index < |log'|
    ensures to in names && log'[index] == P.Sent(users[to].fd, m, e.delivers(index))
  {
    to := names[index - |log|];
  }

  lemma MembersAreUsers(s: N.State, room: string)
    requires N.Valid(s) && room in s.rooms
    ensures forall n :: n in s.rooms[room].members ==> n in s.users && n !in s.rooms[room].guests
  {
  }

  /** One entry of the attempts of a text. */
  lemma TextEntry(s: N.State, e: P.Env, m: Message, fd: int, index: nat)
      returns (room: string, from: string, to: string)
    requires P.Iterates(e) && N.Valid(s) && P.Dispatchable(m)
    requires |s.log| <= index < |N.Process(s, e, m, fd).0.log| && IsText(N.Process(s, e, m, fd).0.log[index])
    ensures m.kind == ROOM_TEXT && m.roomname == Some(room) && m.text.Some?
    ensures N.Holder(s.users, fd) == Some(from) && to in s.users && to != from
    ensures room in s.rooms && {from, to} <= s.rooms[room].members && to !in s.rooms[room].guests
    ensures N.Process(s, e, m, fd).0.log[index]
            == P.Sent(s.users[to].fd, RoomTextFrom(room, from, m.text.value), e.delivers(index))
  {
    hide *;
    OnlyTextsText(s, e, m, fd, index);
    room := m.roomname.value;
    from := N.Holder(s.users, fd).value;
    MembersAreUsers(s, room);
    TextStep(s, e, m, fd, room, from);
    var names := N.Others(e.order(|s.log|, s.rooms[room].members), from);
    var text := RoomTextFrom(room, from, m.text.value);
    to := AttemptEntry(s.log, N.Process(s, e, m, fd).0.log, e, s.users, names, text, index);
  }

  /** Every ROOM_TEXT_FROM of a run came from a member, went to another member of the room at that
      moment, and so never to somebody who was only a guest. */
  lemma DeliveredToMembers(e: P.Env, run: seq<P.Input>, k: nat, index: nat)
    returns (i: nat, room: string, from: string, to: string, text: string)
    requires P.Iterates(e) && P.Admissible(run) && k <= |run| && index < |P.After(e, run, k).log|
    requires IsText(P.After(e, run, k).log[index])
    ensures i < k && SendsText(e, run, i, room, from, text)
    ensures to in After(e, run, i).users && to != from
    ensures to in After(e, run, i).rooms[room].members && to !in After(e, run, i).rooms[room].guests
    ensures P.After(e, run, k).log[index]
            == P.Sent(After(e, run, i).users[to].fd, RoomTextFrom(room, from, text), e.delivers(index))
  {
    SameLog(e, run, k);
    i := Origin(e, run, k, index);
    AfterNext(e, run, i, i + 1);
    hide After, P.After, P.Admissible, P.Iterates, N.Step, N.Process, N.Valid, IsText;
    NoTextIfRefused(After(e, run, i), e, run[i].msg, run[i].fd, index);
    room, from, to := TextEntry(After(e, run, i), e, run[i].msg.value, run[i].fd, index);
    text := run[i].msg.value.text.value;
  }

  lemma AfterNext(e: P.Env, run: seq<P.Input>, i: nat, k: nat)
    requires P.Iterates(e) && P.Admissible(run) && k == i + 1 <= |run|
    ensures After(e, run, k) == N.Step(After(e, run, i), e, run[i].msg, run[i].fd).0
  {
  }

  /** An entry with a text comes from a message. */
  lemma NoTextIfRefused(s: N.State, e: P.Env, msg: Option<Message>, fd: int, index: nat)
    requires P.Iterates(e) && N.Valid(s) && P.Handleable(msg)
    requires |s.log| <= index < |N.Step(s, e, msg, fd).0.log| && IsText(N.Step(s, e, msg, fd).0.log[index])
    ensures msg.Some? && N.Step(s, e, msg, fd) == N.Process(s, e, msg.value, fd)
  {
    hide E.Appends, IsText, N.Valid;
    E.StepAppends(s, e, msg, fd);
    OnlyWithTexts(e, s.log, N.Step(s, e, msg, fd).0.log, E.IsRoomText(msg), index);
  }

  /** A member's text is sent exactly once to each other member, and to nobody else. */
  lemma EachOtherMemberOnce(e: P.Env, run: seq<P.Input>, i: nat, room: string, from: string, text: string)
    returns (names: seq<string>)
    requires P.Iterates(e) && P.Admissible(run) && i < |run| && SendsText(e, run, i, room, from, text)
    ensures NoDuplicates(names)
    ensures forall n :: n in names <==> n in After(e, run, i).rooms[room].members && n != from
    ensures forall n :: n in names ==> n in After(e, run, i).users
    ensures P.After(e, run, i + 1).log == P.After(e, run, i).log
              + E.Attempts(|P.After(e, run, i).log|, e, After(e, run, i).users, names, RoomTextFrom(room, from, text))
  {
    RunRefines(e, run, i);
    RunRefines(e, run, i + 1);
    var s := After(e, run, i);
    TextStep(s, e, run[i].msg.value, run[i].fd, room, from);
    names := N.Others(e.order(|s.log|, s.rooms[room].members), from);
  }

  /** When all sends succeed a text changes neither users nor rooms. */
  lemma TextKeepsRooms(e: P.Env, run: seq<P.Input>, i: nat, room: string, from: string, text: string)
    requires P.Iterates(e) && P.Admissible(run) && i < |run| && SendsText(e, run, i, room, from, text)
    requires forall n :: e.delivers(n)
    ensures P.After(e, run, i + 1).rooms == P.After(e, run, i).rooms
    ensures P.After(e, run, i + 1).users == P.After(e, run, i).users
  {
    RunRefines(e, run, i);
    RunRefines(e, run, i + 1);
    AfterNext(e, run, i, i + 1);
    hide After, P.After;
    TextStepKeeps(After(e, run, i), e, run[i].msg.value, run[i].fd, room, from);
  }

  lemma TextStepKeeps(s: N.State, e: P.Env, m: Message, fd: int, room: string, from: string)
    requires P.Iterates(e) && N.Valid(s) && P.Dispatchable(m)
    requires m.kind == ROOM_TEXT && m.roomname == Some(room) && m.text.Some?
    requires N.Holder(s.users, fd) == Some(from) && room in s.rooms && from in s.rooms[room].members
    requires forall n :: e.delivers(n)
    ensures N.Process(s, e, m, fd).0.(log := s.log) == s
  {
    var order := e.order(|s.log|, s.rooms[room].members);
    var text := RoomTextFrom(room, from, m.text.value);
    N.OthersAreListed(order, from);
    NobodyLost(s.log, e, s.users, N.Others(order, from), text);
    R.DropNobody(s.(log := N.Deliver(s.log, e, s.users, N.Others(order, from), text).0));
    assert N.Elements([]) == {};
  }

  lemma {:induction false} NobodyLost(
    log: seq<P.Event>, e: P.Env, users: map<string, User>, names: seq<string>, m: Message)
    requires (forall n :: n in names ==> n in users) && forall n :: e.delivers(n)
    ensures N.Deliver(log, e, users, names, m).1 == []
    decreases names
  {
    if names == [] {
    } else {
      assert e.delivers(|log|);
      NobodyLost(log + [P.Sent(users[names[0]].fd, m, true)], e, users, names[1..], m);
    }
  }
}
