/** Every entry of the log of a run, traced back to the input that made it: every answer answers its input,
    and every other message is what that input has to say to its receiver. */
module Answers {
  import opened Base
  import opened Messages
  import P = Protocol
  import N = NameServer
  import D = Delivery
  import H = Handlers
  import opened Outcomes
  import opened Runs

  // -------------------------------------------------------------------------------- answers

  ghost predicate IsText(text: string) {
    text == "ACTIVE" || text == "AWAY" || text == "BUSY"
  }

  /** The operation, result and extra of the answer to a command on a room. */
  ghost predicate RoomAnswer(s: N.State, m: Message, me: string, operation: string, result: string,
      extra: Option<string>) {
    && m.roomname.Some? && extra == m.roomname
    && var room := m.roomname.value;
       match m.kind
       case INVITE =>
         && operation == "INVITE" && m.usernames.Some?
         && result == "NO_SUCH_ROOM" && room !in s.rooms
       case JOIN_ROOM =>
         && operation == "JOIN_ROOM"
         && if room !in s.rooms then result == "NO_SUCH_ROOM"
            else if me in s.rooms[room].members then false
            else if me !in s.rooms[room].guests then result == "NOT_INVITED"
            else result == "SUCCESS"
       case ROOM_USERS => operation == "ROOM_USERS" && MembersOnly(s, room, me, result)
       case ROOM_TEXT => operation == "ROOM_TEXT" && m.text.Some? && MembersOnly(s, room, me, result)
       case LEAVE_ROOM => operation == "LEAVE_ROOM" && MembersOnly(s, room, me, result)
       case _ => false
  }

  ghost predicate MembersOnly(s: N.State, room: string, me: string, result: string) {
    if room !in s.rooms then result == "NO_SUCH_ROOM" else me !in s.rooms[room].members && result == "NOT_JOINED"
  }

  ghost predicate NewRoomAnswer(s: N.State, m: Message, operation: string, result: string, extra: Option<string>) {
    && operation == "NEW_ROOM" && m.roomname.Some? && extra.Some? && Cut(extra.value, m.roomname.value, 16)
    && if m.roomname.value in s.rooms then result == "ROOM_ALREADY_EXISTS"
       else extra.value != "" && extra.value !in s.rooms && result == "SUCCESS"
  }

  /** The first of the listed names that is unknown, if the inviting user is a member of the room. */
  ghost predicate UnknownInvitee(s: N.State, m: Message, me: string, extra: Option<string>) {
    && m.roomname.Some? && m.roomname.value in s.rooms && me in s.rooms[m.roomname.value].members
    && m.usernames.Some? && extra.Some?
    && exists i :: FirstUnknownListed(s, m.usernames.value, i, extra.value)
  }

  ghost predicate FirstUnknownListed(s: N.State, usernames: seq<Option<string>>, i: nat, name: string) {
    && i < |usernames| && usernames[i] == Some(name) && name !in s.users
    && forall j :: 0 <= j < i ==> usernames[j].Some? && usernames[j].value in s.users
  }

  /** What makes a user's message invalid: another name, no status, or an invitation into a room it is not
      a member of. */
  ghost predicate IsInvalid(s: N.State, m: Message, me: string) {
    match m.kind
    case IDENTIFY => m.username.Some? && exists name :: Cut(name, m.username.value, 8) && name != me
    case STATUS => m.status.Some? && !IsText(m.status.value)
    case INVITE =>
      && m.roomname.Some? && m.usernames.Some? && m.roomname.value in s.rooms
      && me !in s.rooms[m.roomname.value].members
    case _ => false
  }

  /** This is the answer to a user's message. */
  ghost predicate UserExpects(s: N.State, m: Message, me: string, operation: string, result: string,
      extra: Option<string>) {
    || (operation == "INVALID" && result == "INVALID" && extra == None && IsInvalid(s, m, me))
    || (m.kind == TEXT && operation == "TEXT" && result == "NO_SUCH_USER" && m.username.Some? && extra == m.username
        && m.username.value !in s.users)
    || (m.kind == NEW_ROOM && NewRoomAnswer(s, m, operation, result, extra))
    || (m.kind == INVITE && operation == "INVITE" && result == "NO_SUCH_USER" && UnknownInvitee(s, m, me, extra))
    || RoomAnswer(s, m, me, operation, result, extra)
  }

  /** This is the answer to somebody who is not a user. */
  ghost predicate StrangerExpects(s: N.State, m: Message, operation: string, result: string, extra: Option<string>) {
    if m.kind == IDENTIFY then
      && operation == "IDENTIFY" && m.username.Some? && extra.Some? && Cut(extra.value, m.username.value, 8)
      && if extra.value in s.users then result == "USER_ALREADY_EXISTS" else extra.value != "" && result == "SUCCESS"
    else
      m.kind != UNKNOWN && m.kind != DISCONNECT && operation == "INVALID" && result == "NOT_IDENTIFIED" && extra == None
  }

  /** This is the answer to the line. */
  ghost predicate Expects(s: N.State, msg: Option<Message>, fd: int, operation: string, result: string,
                          extra: Option<string>) {
    if msg.None? then operation == "INVALID" && result == "INVALID" && extra == None
    else
      match N.Holder(s.users, fd)
      case None => StrangerExpects(s, msg.value, operation, result, extra)
      case Some(me) => UserExpects(s, msg.value, me, operation, result, extra)
  }

  // ----------------------------------------------------------------------------- other messages

  ghost predicate OtherMember(s: N.State, m: Message, me: string, to: string) {
    && m.roomname.Some? && m.roomname.value in s.rooms
    && to in s.rooms[m.roomname.value].members && to != me
  }

  /** A user's message `m` says this to the user `to`. */
  ghost predicate Says(s: N.State, m: Message, me: string, news: Message, to: string) {
    match m.kind
    case TEXT => m.username == Some(to) && to != me && news == Letter(TEXT_FROM, me, None, m.text, None)
    case PUBLIC_TEXT => to != me && news == Letter(PUBLIC_TEXT_FROM, me, None, m.text, None)
    case STATUS =>
      && to != me && m.status.Some? && IsText(m.status.value) && me in s.users
      && m.status.value != StatusText(s.users[me].status) && news == Letter(NEW_STATUS, me, m.status, None, None)
    case INVITE =>
      && m.roomname.Some? && m.roomname.value in s.rooms && me in s.rooms[m.roomname.value].members
      && m.usernames.Some? && Some(to) in m.usernames.value
      && to !in s.rooms[m.roomname.value].members && to !in s.rooms[m.roomname.value].guests
      && news == Letter(INVITATION, me, None, None, m.roomname)
    case JOIN_ROOM =>
      && OtherMember(s, m, me, to) && me in s.rooms[m.roomname.value].guests
      && news == Letter(JOINED_ROOM, me, None, None, m.roomname)
    case ROOM_TEXT =>
      && OtherMember(s, m, me, to) && me in s.rooms[m.roomname.value].members
      && news == Letter(ROOM_TEXT_FROM, me, None, m.text, m.roomname)
    case LEAVE_ROOM =>
      && OtherMember(s, m, me, to) && me in s.rooms[m.roomname.value].members
      && news == Letter(LEFT_ROOM, me, None, None, m.roomname)
    case USERS =>
      && to == me && news.users.Some? && ListsUsers(news.users.value, s.users, s.users.Keys)
      && news == Message(USER_LIST, None, None, None, None, None, news.users, None, None, None)
    case ROOM_USERS =>
      && to == me && m.roomname.Some? && m.roomname.value in s.rooms && me in s.rooms[m.roomname.value].members
      && news.users.Some? && ListsUsers(news.users.value, s.users, s.rooms[m.roomname.value].members)
      && news == Message(ROOM_USER_LIST, None, None, None, None, None, news.users, None, m.roomname, None)
    case _ => false
  }

  /** Somebody other than `to` is gone: the sender itself, or a user whom its INVITE did not reach. */
  ghost predicate TellsOfLoss(msg: Option<Message>, me: string, news: Message, to: string) {
    exists gone :: gone != to && news == Letter(DISCONNECTED, gone, None, None, None) &&
      (gone == me || (msg.Some? && msg.value.kind == INVITE && msg.value.usernames.Some?
                      && Some(gone) in msg.value.usernames.value))
  }

  /** What an IDENTIFY of somebody new says to every user: that it is there, or, if the answer did not
      reach it, that it is gone. */
  ghost predicate NewcomerSays(s: N.State, m: Message, news: Message) {
    && m.kind == IDENTIFY && m.username.Some?
    && exists name :: Cut(name, m.username.value, 8) && name != "" && name !in s.users &&
         (news == Letter(NEW_USER, name, None, None, None) || news == Letter(DISCONNECTED, name, None, None, None))
  }

  ghost predicate SaysTo(s: N.State, msg: Option<Message>, fd: int, news: Message, to: string) {
    match N.Holder(s.users, fd)
    case None => msg.Some? && NewcomerSays(s, msg.value, news)
    case Some(me) => (msg.Some? && Says(s, msg.value, me, news, to)) || TellsOfLoss(msg, me, news, to)
  }

  /** What an entry of the log has to do with the line that made it.  An answer is the first entry, and it
      goes to the sender of the line; every other message goes to a user to whom the line says it. */
  ghost predicate Fits(s: N.State, msg: Option<Message>, fd: int, event: P.Event, first: bool) {
    || event.Closed?
    || (first && event.fd == fd && IsExpected(s, msg, fd, event.msg))
    || (exists to :: GoesTo(s, msg, fd, event, to))
  }

  ghost predicate IsExpected(s: N.State, msg: Option<Message>, fd: int, m: Message) {
    m.operation.Some? && m.result.Some? && m == Answer(m.operation.value, m.result.value, m.extra)
    && Expects(s, msg, fd, m.operation.value, m.result.value, m.extra)
  }

  ghost predicate GoesTo(s: N.State, msg: Option<Message>, fd: int, event: P.Event, to: string) {
    event.Sent? && to in s.users && event.fd == s.users[to].fd && SaysTo(s, msg, fd, event.msg, to)
  }

  /** All that was appended fits. */
  ghost predicate AllFit(s: N.State, msg: Option<Message>, fd: int, log: seq<P.Event>, log': seq<P.Event>) {
    && log <= log'
    && (forall i :: |log| <= i < |log'| ==> Fits(s, msg, fd, log'[i], i == |s.log|))
  }

  lemma NothingAdded(s: N.State, msg: Option<Message>, fd: int, log: seq<P.Event>)
    ensures AllFit(s, msg, fd, log, log)
  {
  }

  lemma OneMore(s: N.State, msg: Option<Message>, fd: int, log: seq<P.Event>, event: P.Event)
    requires Fits(s, msg, fd, event, |log| == |s.log|)
    ensures AllFit(s, msg, fd, log, log + [event])
  {
    hide Fits;
  }

  lemma Together(s: N.State, msg: Option<Message>, fd: int, a: seq<P.Event>, b: seq<P.Event>, c: seq<P.Event>)
    requires AllFit(s, msg, fd, a, b) && AllFit(s, msg, fd, b, c)
    ensures AllFit(s, msg, fd, a, c)
  {
    hide Fits;
  }

  /** The audience is told something that the line says to each of them. */
  lemma ToldFits(s: N.State, e: P.Env, msg: Option<Message>, fd: int, users: map<string, User>, audience: set<string>,
                 m: Message, log: seq<P.Event>, log': seq<P.Event>, lost: set<string>)
    requires Told(e, users, audience, m, log, log', lost)
    requires forall n :: n in audience ==> n in s.users && users[n].fd == s.users[n].fd && SaysTo(s, msg, fd, m, n)
    ensures AllFit(s, msg, fd, log, log')
  {
    hide SaysTo, IsExpected;
    var names :| ToldInOrder(e, users, audience, m, log, log', lost, names);
    forall i | |log| <= i < |log'|
      ensures Fits(s, msg, fd, log'[i], i == |s.log|)
    {
      var n := names[i - |log|];
      assert log'[|log| + (i - |log|)] == P.Sent(users[n].fd, m, e.delivers(i));
      assert GoesTo(s, msg, fd, log'[i], n);
    }
  }

  lemma NewsFits(s: N.State, e: P.Env, msg: Option<Message>, fd: int, s1: N.State, me: string, m: Message, s': N.State)
    requires NewsForAll(s1, e, me, m, s')
    requires forall n :: n in s1.users.Keys - {me} ==>
               n in s.users && s1.users[n].fd == s.users[n].fd && SaysTo(s, msg, fd, m, n)
    ensures AllFit(s, msg, fd, s1.log, s'.log)
  {
    hide Told, SaysTo, AllFit;
    var lost :| NewsForAllBut(s1, e, me, m, s', lost);
    ToldFits(s, e, msg, fd, s1.users, s1.users.Keys - {me}, m, s1.log, s'.log, lost);
  }

  lemma RoomNewsFits(s: N.State, e: P.Env, msg: Option<Message>, fd: int, s1: N.State, room: string, me: string,
                     m: Message, s': N.State)
    requires room in s1.rooms && NewsForRoom(s1, e, room, me, m, s') && s1.users == s.users
    requires forall n :: n in s1.rooms[room].members - {me} ==> n in s.users && SaysTo(s, msg, fd, m, n)
    ensures AllFit(s, msg, fd, s1.log, s'.log)
  {
    hide Told, SaysTo, AllFit;
    var lost :| NewsForRoomBut(s1, e, room, me, m, s', lost);
    ToldFits(s, e, msg, fd, s1.users, s1.rooms[room].members - {me}, m, s1.log, s'.log, lost);
  }

  lemma LossFits(s: N.State, e: P.Env, msg: Option<Message>, fd: int, s1: N.State, gone: string, s': N.State)
    requires gone in s1.users && Disconnected(s1, e, gone, s')
    requires forall n :: n in s1.users.Keys - {gone} ==> n in s.users && s1.users[n].fd == s.users[n].fd
    requires forall n :: n in s1.users.Keys - {gone} ==>
               SaysTo(s, msg, fd, Letter(DISCONNECTED, gone, None, None, None), n)
    ensures AllFit(s, msg, fd, s1.log, s'.log)
  {
    hide NewsForAll, SaysTo;
    var s2 :| DisconnectedVia(s1, e, gone, s', s2);
    NewsFits(s, e, msg, fd, s1, gone, Letter(DISCONNECTED, gone, None, None, None), s2);
    OneMore(s, msg, fd, s2.log, P.Closed(s1.users[gone].fd));
    hide AllFit;
    Together(s, msg, fd, s1.log, s2.log, s'.log);
  }

  /** The sender of the line is a user, and is disconnected. */
  lemma SenderLossFits(s: N.State, e: P.Env, msg: Option<Message>, fd: int, s1: N.State, me: string, s': N.State)
    requires N.Holder(s.users, fd) == Some(me) && me in s1.users && Disconnected(s1, e, me, s')
    requires s1.users.Keys == s.users.Keys && forall n :: n in s.users ==> s1.users[n].fd == s.users[n].fd
    ensures AllFit(s, msg, fd, s1.log, s'.log)
  {
    var news := Letter(DISCONNECTED, me, None, None, None);
    hide Disconnected, Says, AllFit;
    forall n | n in s1.users.Keys - {me}
      ensures SaysTo(s, msg, fd, news, n)
    {
      assert TellsOfLoss(msg, me, news, n);
    }
    hide SaysTo;
    LossFits(s, e, msg, fd, s1, me, s');
  }

  /** The sender is sent something, which fits, and is disconnected if it does not arrive. */
  lemma SentOrGoneFits(s: N.State, e: P.Env, msg: Option<Message>, fd: int, s1: N.State, me: string, m: Message,
      s': N.State)
    requires N.Holder(s.users, fd) == Some(me) && s1.users == s.users && s1.log == s.log && me in s1.users
    requires SentOrGone(s1, e, me, m, s')
    requires Fits(s, msg, fd, P.Sent(fd, m, e.delivers(|s.log|)), true)
    ensures AllFit(s, msg, fd, s.log, s'.log)
  {
    hide Fits, Disconnected;
    var event := P.Sent(fd, m, e.delivers(|s.log|));
    OneMore(s, msg, fd, s.log, event);
    if !e.delivers(|s.log|) {
      SenderLossFits(s, e, msg, fd, After1(s1, e, fd, m), me, s');
      hide AllFit;
      Together(s, msg, fd, s.log, s.log + [event], s'.log);
    }
  }

  lemma AnswerFits(s: N.State, msg: Option<Message>, fd: int, operation: string, result: string,
      extra: Option<string>, ok: bool)
    requires Expects(s, msg, fd, operation, result, extra)
    ensures Fits(s, msg, fd, P.Sent(fd, Answer(operation, result, extra), ok), true)
  {
    hide Expects;
  }

  lemma AnsweredFits(s: N.State, e: P.Env, msg: Option<Message>, fd: int, s1: N.State, me: string,
                     operation: string, result: string, extra: string, s': N.State)
    requires N.Holder(s.users, fd) == Some(me) && s1.users == s.users && s1.log == s.log && me in s1.users
    requires Answered(s1, e, me, operation, result, extra, s')
    requires Expects(s, msg, fd, operation, result, Some(extra))
    ensures AllFit(s, msg, fd, s.log, s'.log)
  {
    hide Expects, Fits, SentOrGone, AllFit;
    AnswerFits(s, msg, fd, operation, result, Some(extra), e.delivers(|s.log|));
    SentOrGoneFits(s, e, msg, fd, s1, me, Answer(operation, result, Some(extra)), s');
  }

  lemma RefusedFits(s: N.State, e: P.Env, msg: Option<Message>, fd: int, me: string, s': N.State)
    requires N.Holder(s.users, fd) == Some(me) && Refused(s, e, me, s')
    requires Expects(s, msg, fd, "INVALID", "INVALID", None)
    ensures AllFit(s, msg, fd, s.log, s'.log)
  {
    hide Expects, Fits, Disconnected;
    var m := Answer("INVALID", "INVALID", None);
    AnswerFits(s, msg, fd, "INVALID", "INVALID", None, e.delivers(|s.log|));
    OneMore(s, msg, fd, s.log, P.Sent(fd, m, e.delivers(|s.log|)));
    SenderLossFits(s, e, msg, fd, After1(s, e, fd, m), me, s');
    hide AllFit;
    Together(s, msg, fd, s.log, After1(s, e, fd, m).log, s'.log);
  }

  // -------------------------------------------------------------------------------- commands

  lemma NewcomerFits(s: N.State, e: P.Env, msg: Option<Message>, fd: int, name: string, s': N.State)
    requires msg.Some? && msg.value.kind == IDENTIFY && msg.value.username.Some?
    requires Cut(name, msg.value.username.value, 8) && name != "" && name !in s.users && N.Holder(s.users, fd).None?
    requires IdentifiesAs(s, e, name, fd, s')
    ensures AllFit(s, msg, fd, s.log, s'.log)
  {
    var news, loss := Letter(NEW_USER, name, None, None, None), Letter(DISCONNECTED, name, None, None, None);
    var welcome := Answer("IDENTIFY", "SUCCESS", Some(name));
    var s1 := After1(s.(users := s.users[name := User(name, fd, ACTIVE)]), e, fd, welcome);
    assert NewcomerSays(s, msg.value, news) && NewcomerSays(s, msg.value, loss);
    assert forall n :: SaysTo(s, msg, fd, news, n) && SaysTo(s, msg, fd, loss, n);
    AnswerFits(s, msg, fd, "IDENTIFY", "SUCCESS", Some(name), e.delivers(|s.log|));
    hide SaysTo, Fits, Cut, NewsForAll, Disconnected, Letter, Answer;
    OneMore(s, msg, fd, s.log, P.Sent(fd, welcome, e.delivers(|s.log|)));
    if e.delivers(|s.log|) {
      NewsFits(s, e, msg, fd, s1, name, news, s');
    } else {
      LossFits(s, e, msg, fd, s1, name, s');
    }
    hide AllFit;
    Together(s, msg, fd, s.log, s1.log, s'.log);
  }

  lemma IdentifyFits(s: N.State, e: P.Env, msg: Option<Message>, fd: int, s': N.State)
    requires msg.Some? && msg.value.kind == IDENTIFY && IdentifyDoes(s, e, msg.value.username, fd, s')
    ensures AllFit(s, msg, fd, s.log, s'.log)
  {
    hide AllFit, Refused, NewsForAll, Disconnected, Answer;
    NothingAdded(s, msg, fd, s.log);
    if msg.value.username.Some? {
      var name :| Cut(name, msg.value.username.value, 8) && IdentifiesAs(s, e, name, fd, s');
      match N.Holder(s.users, fd)
      case Some(me) =>
        if me != name {
          RefusedFits(s, e, msg, fd, me, s');
        }
      case None =>
        if name in s.users {
          TakenFits(s, e, msg, fd, name, s');
        } else if name != "" {
          NewcomerFits(s, e, msg, fd, name, s');
        }
    }
  }

  /** Somebody who is not a user is sent an answer, and its connection is closed. */
  lemma ClosedFits(s: N.State, e: P.Env, msg: Option<Message>, fd: int, operation: string, result: string,
                   extra: Option<string>)
    requires Expects(s, msg, fd, operation, result, extra)
    ensures AllFit(s, msg, fd, s.log, Closed(After1(s, e, fd, Answer(operation, result, extra)), fd).log)
  {
    hide Expects;
    var event := P.Sent(fd, Answer(operation, result, extra), e.delivers(|s.log|));
    AnswerFits(s, msg, fd, operation, result, extra, e.delivers(|s.log|));
    OneMore(s, msg, fd, s.log, event);
    OneMore(s, msg, fd, s.log + [event], P.Closed(fd));
    hide Fits, AllFit;
    Together(s, msg, fd, s.log, s.log + [event], s.log + [event] + [P.Closed(fd)]);
  }

  lemma TakenFits(s: N.State, e: P.Env, msg: Option<Message>, fd: int, name: string, s': N.State)
    requires msg.Some? && msg.value.kind == IDENTIFY && msg.value.username.Some?
    requires Cut(name, msg.value.username.value, 8) && name in s.users && N.Holder(s.users, fd).None?
    requires s' == Closed(After1(s, e, fd, Answer("IDENTIFY", "USER_ALREADY_EXISTS", Some(name))), fd)
    ensures AllFit(s, msg, fd, s.log, s'.log)
  {
    ClosedFits(s, e, msg, fd, "IDENTIFY", "USER_ALREADY_EXISTS", Some(name));
  }

  lemma StatusFits(s: N.State, e: P.Env, msg: Option<Message>, fd: int, me: string, s': N.State)
    requires msg.Some? && msg.value.kind == STATUS && N.Holder(s.users, fd) == Some(me)
    requires StatusDoes(s, e, msg.value.status, me, s')
    ensures AllFit(s, msg, fd, s.log, s'.log)
  {
    hide AllFit, Refused, NewsForAll;
    NothingAdded(s, msg, fd, s.log);
    var text := msg.value.status;
    if text.None? || text == Some(StatusText(s.users[me].status)) {
      StatusTextIsText(s.users[me].status);
    } else if !IsText(text.value) {
      RefusedFits(s, e, msg, fd, me, s');
    } else {
      var status :| text.value == StatusText(status) && TakesStatus(s, e, status, me, s');
      var s1 := s.(users := s.users[me := User(s.users[me].name, s.users[me].fd, status)]);
      var news := Letter(NEW_STATUS, me, text, None, None);
      assert forall n :: n != me ==> Says(s, msg.value, me, news, n);
      assert forall n :: n != me ==> SaysTo(s, msg, fd, news, n);
      hide SaysTo;
      NewsFits(s, e, msg, fd, s1, me, news, s');
    }
  }

  lemma StatusTextIsText(status: UserStatus)
    ensures IsText(StatusText(status))
  {
  }

  /** A message that fits its receiver. */
  lemma SaidFits(s: N.State, msg: Option<Message>, fd: int, me: string, m: Message, to: string, ok: bool, first: bool)
    requires msg.Some? && N.Holder(s.users, fd) == Some(me) && to in s.users && Says(s, msg.value, me, m, to)
    ensures Fits(s, msg, fd, P.Sent(s.users[to].fd, m, ok), first)
  {
    hide Says, IsExpected;
    assert GoesTo(s, msg, fd, P.Sent(s.users[to].fd, m, ok), to);
  }

  lemma UsersFits(s: N.State, e: P.Env, msg: Option<Message>, fd: int, me: string, s': N.State)
    requires msg.Some? && msg.value.kind == USERS && N.Holder(s.users, fd) == Some(me) && UsersDoes(s, e, me, s')
    ensures AllFit(s, msg, fd, s.log, s'.log)
  {
    hide AllFit, SentOrGone, ListsUsers, Fits;
    var list :| ListsUsers(list, s.users, s.users.Keys) &&
      SentOrGone(s, e, me, Message(USER_LIST, None, None, None, None, None, Some(list), None, None, None), s');
    var m := Message(USER_LIST, None, None, None, None, None, Some(list), None, None, None);
    SaidFits(s, msg, fd, me, m, me, e.delivers(|s.log|), true);
    SentOrGoneFits(s, e, msg, fd, s, me, m, s');
  }

  lemma TextFits(s: N.State, e: P.Env, msg: Option<Message>, fd: int, me: string, s': N.State)
    requires msg.Some? && msg.value.kind == TEXT && N.Holder(s.users, fd) == Some(me)
    requires msg.value.username.Some? && msg.value.text.Some?
    requires TextDoes(s, e, msg.value.username.value, msg.value.text.value, me, s')
    ensures AllFit(s, msg, fd, s.log, s'.log)
  {
    hide AllFit, Answered, Disconnected, Fits, IsText;
    var to := msg.value.username.value;
    NothingAdded(s, msg, fd, s.log);
    if to !in s.users {
      AnsweredFits(s, e, msg, fd, s, me, "TEXT", "NO_SUCH_USER", to, s');
    } else if to != me {
      var m := Letter(TEXT_FROM, me, None, msg.value.text, None);
      var s1 := After1(s, e, s.users[to].fd, m);
      SaidFits(s, msg, fd, me, m, to, e.delivers(|s.log|), true);
      OneMore(s, msg, fd, s.log, P.Sent(s.users[to].fd, m, e.delivers(|s.log|)));
      if !e.delivers(|s.log|) {
        SenderLossFits(s, e, msg, fd, s1, me, s');
        Together(s, msg, fd, s.log, s1.log, s'.log);
      }
    }
  }

  lemma PublicTextFits(s: N.State, e: P.Env, msg: Option<Message>, fd: int, me: string, s': N.State)
    requires msg.Some? && msg.value.kind == PUBLIC_TEXT && N.Holder(s.users, fd) == Some(me)
    requires NewsForAll(s, e, me, Letter(PUBLIC_TEXT_FROM, me, None, msg.value.text, None), s')
    ensures AllFit(s, msg, fd, s.log, s'.log)
  {
    hide AllFit, NewsForAll;
    var news := Letter(PUBLIC_TEXT_FROM, me, None, msg.value.text, None);
    assert forall n :: n != me ==> Says(s, msg.value, me, news, n);
    assert forall n :: n != me ==> SaysTo(s, msg, fd, news, n);
    hide SaysTo;
    NewsFits(s, e, msg, fd, s, me, news, s');
  }

  lemma NewRoomFits(s: N.State, e: P.Env, msg: Option<Message>, fd: int, me: string, s': N.State)
    requires msg.Some? && msg.value.kind == NEW_ROOM && N.Holder(s.users, fd) == Some(me)
    requires NewRoomDoes(s, e, msg.value.roomname, me, s')
    ensures AllFit(s, msg, fd, s.log, s'.log)
  {
    hide AllFit, Answered, Cut;
    NothingAdded(s, msg, fd, s.log);
    if msg.value.roomname.Some? {
      var whole := msg.value.roomname.value;
      var room :| Cut(room, whole, 16) && OpensAs(s, e, whole, room, me, s');
      if whole in s.rooms {
        AnsweredFits(s, e, msg, fd, s, me, "NEW_ROOM", "ROOM_ALREADY_EXISTS", room, s');
      } else if room != "" && room !in s.rooms {
        AnsweredFits(s, e, msg, fd, s.(rooms := s.rooms[room := N.Room({me}, {})]), me, "NEW_ROOM", "SUCCESS", room,
            s');
      }
    }
  }

  lemma JoinFits(s: N.State, e: P.Env, msg: Option<Message>, fd: int, me: string, s': N.State)
    requires N.Valid(s) && msg.Some? && msg.value.kind == JOIN_ROOM && N.Holder(s.users, fd) == Some(me)
    requires JoinDoes(s, e, msg.value.roomname, me, s')
    ensures AllFit(s, msg, fd, s.log, s'.log)
  {
    hide AllFit, Answered, Disconnected, NewsForRoom, N.Valid;
    NothingAdded(s, msg, fd, s.log);
    if msg.value.roomname.Some? {
      var room := msg.value.roomname.value;
      if room !in s.rooms {
        AnsweredFits(s, e, msg, fd, s, me, "JOIN_ROOM", "NO_SUCH_ROOM", room, s');
      } else if me !in s.rooms[room].members && me !in s.rooms[room].guests {
        AnsweredFits(s, e, msg, fd, s, me, "JOIN_ROOM", "NOT_INVITED", room, s');
      } else if me !in s.rooms[room].members {
        JoinedFits(s, e, msg, fd, me, room, s');
      }
    }
  }

  lemma JoinedFits(s: N.State, e: P.Env, msg: Option<Message>, fd: int, me: string, room: string, s': N.State)
    requires N.Valid(s) && msg.Some? && msg.value.kind == JOIN_ROOM && N.Holder(s.users, fd) == Some(me)
    requires msg.value.roomname == Some(room) && room in s.rooms
    requires me !in s.rooms[room].members && me in s.rooms[room].guests && JoinDoes(s, e, Some(room), me, s')
    ensures AllFit(s, msg, fd, s.log, s'.log)
  {
    D.MembersAreUsers(s, room);
    hide AllFit, Disconnected, NewsForRoom, N.Valid, Answered;
    var moved := N.Room(s.rooms[room].members + {me}, s.rooms[room].guests - {me});
    var welcome := Answer("JOIN_ROOM", "SUCCESS", Some(room));
    var s1 := After1(s.(rooms := s.rooms[room := moved]), e, fd, welcome);
    var news := Letter(JOINED_ROOM, me, None, None, Some(room));
    AnswerFits(s, msg, fd, "JOIN_ROOM", "SUCCESS", Some(room), e.delivers(|s.log|));
    OneMore(s, msg, fd, s.log, P.Sent(fd, welcome, e.delivers(|s.log|)));
    if e.delivers(|s.log|) {
      assert forall n :: n in s1.rooms[room].members - {me} ==> Says(s, msg.value, me, news, n);
      assert forall n :: n in s1.rooms[room].members - {me} ==> SaysTo(s, msg, fd, news, n);
      hide SaysTo, Fits;
      RoomNewsFits(s, e, msg, fd, s1, room, me, news, s');
    } else {
      SenderLossFits(s, e, msg, fd, s1, me, s');
    }
    Together(s, msg, fd, s.log, s1.log, s'.log);
  }

  lemma RoomUsersFits(s: N.State, e: P.Env, msg: Option<Message>, fd: int, me: string, s': N.State)
    requires msg.Some? && msg.value.kind == ROOM_USERS && N.Holder(s.users, fd) == Some(me)
    requires RoomUsersDoes(s, e, msg.value.roomname, me, s')
    ensures AllFit(s, msg, fd, s.log, s'.log)
  {
    hide AllFit, Answered, SentOrGone, ListsUsers, Fits;
    NothingAdded(s, msg, fd, s.log);
    if msg.value.roomname.Some? {
      var room := msg.value.roomname.value;
      if room !in s.rooms {
        AnsweredFits(s, e, msg, fd, s, me, "ROOM_USERS", "NO_SUCH_ROOM", room, s');
      } else if me !in s.rooms[room].members {
        AnsweredFits(s, e, msg, fd, s, me, "ROOM_USERS", "NOT_JOINED", room, s');
      } else {
        var list :| ListsUsers(list, s.users, s.rooms[room].members) &&
          SentOrGone(s, e, me, Message(ROOM_USER_LIST, None, None, None, None, None, Some(list), None, Some(room),
              None), s');
        var m := Message(ROOM_USER_LIST, None, None, None, None, None, Some(list), None, Some(room), None);
        SaidFits(s, msg, fd, me, m, me, e.delivers(|s.log|), true);
        SentOrGoneFits(s, e, msg, fd, s, me, m, s');
      }
    }
  }

  lemma RoomTextFits(s: N.State, e: P.Env, msg: Option<Message>, fd: int, me: string, s': N.State)
    requires N.Valid(s) && msg.Some? && msg.value.kind == ROOM_TEXT && N.Holder(s.users, fd) == Some(me)
    requires RoomTextDoes(s, e, msg.value.roomname, msg.value.text, me, s')
    ensures AllFit(s, msg, fd, s.log, s'.log)
  {
    NothingAdded(s, msg, fd, s.log);
    if msg.value.roomname.Some? && msg.value.text.Some? {
      var room := msg.value.roomname.value;
      if room in s.rooms {
        D.MembersAreUsers(s, room);
      }
      hide AllFit, Answered, NewsForRoom, N.Valid;
      if room !in s.rooms {
        AnsweredFits(s, e, msg, fd, s, me, "ROOM_TEXT", "NO_SUCH_ROOM", room, s');
      } else if me !in s.rooms[room].members {
        AnsweredFits(s, e, msg, fd, s, me, "ROOM_TEXT", "NOT_JOINED", room, s');
      } else {
        var news := Letter(ROOM_TEXT_FROM, me, None, msg.value.text, Some(room));
        assert forall n :: n in s.rooms[room].members - {me} ==> Says(s, msg.value, me, news, n);
        assert forall n :: n in s.rooms[room].members - {me} ==> SaysTo(s, msg, fd, news, n);
        hide SaysTo;
        RoomNewsFits(s, e, msg, fd, s, room, me, news, s');
      }
    }
  }

  lemma LeaveFits(s: N.State, e: P.Env, msg: Option<Message>, fd: int, me: string, s': N.State)
    requires N.Valid(s) && msg.Some? && msg.value.kind == LEAVE_ROOM && N.Holder(s.users, fd) == Some(me)
    requires LeaveDoes(s, e, msg.value.roomname, me, s')
    ensures AllFit(s, msg, fd, s.log, s'.log)
  {
    NothingAdded(s, msg, fd, s.log);
    if msg.value.roomname.Some? {
      var room := msg.value.roomname.value;
      if room in s.rooms {
        D.MembersAreUsers(s, room);
      }
      hide AllFit, Answered, NewsForRoom, N.Valid;
      if room !in s.rooms {
        AnsweredFits(s, e, msg, fd, s, me, "LEAVE_ROOM", "NO_SUCH_ROOM", room, s');
      } else if me !in s.rooms[room].members {
        AnsweredFits(s, e, msg, fd, s, me, "LEAVE_ROOM", "NOT_JOINED", room, s');
      } else if s.rooms[room].members != {me} {
        var left := N.Room(s.rooms[room].members - {me}, s.rooms[room].guests);
        var s1 := s.(rooms := s.rooms[room := left]);
        var news := Letter(LEFT_ROOM, me, None, None, Some(room));
        assert forall n :: n in left.members - {me} ==> Says(s, msg.value, me, news, n);
        assert forall n :: n in left.members - {me} ==> SaysTo(s, msg, fd, news, n);
        hide SaysTo;
        RoomNewsFits(s, e, msg, fd, s1, room, me, news, s');
      }
    }
  }

  // --------------------------------------------------------------------------------- INVITE

  /** The invitations sent so far. */
  lemma InvitedFits(s: N.State, e: P.Env, msg: Option<Message>, fd: int, me: string, room: string, names: seq<string>,
                    n: nat, s1: N.State)
    requires msg.Some? && msg.value.kind == INVITE && N.Holder(s.users, fd) == Some(me)
    requires msg.value.roomname == Some(room) && room in s.rooms && me in s.rooms[room].members
    requires msg.value.usernames.Some? && H.ListsNames(msg.value.usernames.value, names) && n <= |names|
    requires forall i :: 0 <= i < |names| ==> names[i] in s.users
    requires forall i :: 0 <= i < n ==> Enters(s.rooms[room], names, i)
    requires Invited(s, e, room, names, n, me, s1)
    ensures AllFit(s, msg, fd, s.log, s1.log)
  {
    var news := Letter(INVITATION, me, None, None, Some(room));
    forall i | |s.log| <= i < |s1.log|
      ensures Fits(s, msg, fd, s1.log[i], i == |s.log|)
    {
      var j := i - |s.log|;
      assert s1.log[|s.log| + j] == P.Sent(s.users[names[j]].fd, news, e.delivers(i));
      assert Enters(s.rooms[room], names, j) && msg.value.usernames.value[j] == Some(names[j]);
      hide Fits;
      SaidFits(s, msg, fd, me, news, names[j], e.delivers(i), i == |s.log|);
    }
  }

  lemma LostInviteeFits(s: N.State, e: P.Env, msg: Option<Message>, fd: int, me: string, s1: N.State, gone: string,
      s': N.State)
    requires msg.Some? && msg.value.kind == INVITE && N.Holder(s.users, fd) == Some(me) && msg.value.usernames.Some?
    requires Some(gone) in msg.value.usernames.value && s1.users == s.users && gone in s1.users
    requires Disconnected(s1, e, gone, s')
    ensures AllFit(s, msg, fd, s1.log, s'.log)
  {
    hide Disconnected, AllFit, Says;
    var loss := Letter(DISCONNECTED, gone, None, None, None);
    forall n | n in s1.users.Keys - {gone}
      ensures SaysTo(s, msg, fd, loss, n)
    {
      assert TellsOfLoss(msg, me, loss, n);
    }
    hide SaysTo;
    LossFits(s, e, msg, fd, s1, gone, s');
  }

  lemma InvitesFit(s: N.State, e: P.Env, msg: Option<Message>, fd: int, me: string, room: string, names: seq<string>,
                   n: nat, s': N.State)
    requires msg.Some? && msg.value.kind == INVITE && N.Holder(s.users, fd) == Some(me)
    requires msg.value.roomname == Some(room) && room in s.rooms && me in s.rooms[room].members
    requires msg.value.usernames.Some? && H.ListsNames(msg.value.usernames.value, names)
    requires forall i :: 0 <= i < |names| ==> names[i] in s.users
    requires InvitesUpTo(s, e, room, names, n, me, s')
    ensures AllFit(s, msg, fd, s.log, s'.log)
  {
    hide AllFit, Invited, Disconnected, Enters;
    if !Enters(s.rooms[room], names, n) {
      InvitedFits(s, e, msg, fd, me, room, names, n, s');
    } else {
      EntersListed(s.rooms[room], names, n);
      var s1 :| Invited(s, e, room, names, n + 1, me, s1) && names[n] in s1.users && Disconnected(s1, e, names[n], s');
      InvitedFits(s, e, msg, fd, me, room, names, n + 1, s1);
      InvitedUsers(s, e, room, names, n + 1, me, s1);
      assert msg.value.usernames.value[n] == Some(names[n]);
      LostInviteeFits(s, e, msg, fd, me, s1, names[n], s');
      Together(s, msg, fd, s.log, s1.log, s'.log);
    }
  }

  lemma EntersListed(room: N.Room, names: seq<string>, n: nat)
    requires Enters(room, names, n)
    ensures n < |names|
  {
  }

  lemma InvitedUsers(s: N.State, e: P.Env, room: string, names: seq<string>, n: nat, me: string, s1: N.State)
    requires room in s.rooms && n <= |names| && forall i :: 0 <= i < n ==> names[i] in s.users
    requires Invited(s, e, room, names, n, me, s1)
    ensures s1.users == s.users
  {
  }

  lemma UnknownFits(s: N.State, e: P.Env, msg: Option<Message>, fd: int, me: string, room: string, names: seq<string>,
                    i: nat, s': N.State)
    requires msg.Some? && msg.value.kind == INVITE && N.Holder(s.users, fd) == Some(me)
    requires msg.value.roomname == Some(room) && room in s.rooms && me in s.rooms[room].members
    requires msg.value.usernames.Some? && H.ListsNames(msg.value.usernames.value, names)
    requires FirstUnknownAt(s, names, i) && Answered(s, e, me, "INVITE", "NO_SUCH_USER", names[i], s')
    ensures AllFit(s, msg, fd, s.log, s'.log)
  {
    hide AllFit, Answered;
    assert FirstUnknownListed(s, msg.value.usernames.value, i, names[i]);
    assert UnknownInvitee(s, msg.value, me, Some(names[i]));
    AnsweredFits(s, e, msg, fd, s, me, "INVITE", "NO_SUCH_USER", names[i], s');
  }

  lemma InviteFits(s: N.State, e: P.Env, msg: Option<Message>, fd: int, me: string, s': N.State)
    requires msg.Some? && msg.value.kind == INVITE && N.Holder(s.users, fd) == Some(me)
    requires InviteDoes(s, e, msg.value.roomname, msg.value.usernames, me, s')
    ensures AllFit(s, msg, fd, s.log, s'.log)
  {
    hide AllFit, Answered, Refused, InvitesUpTo, H.ListsNames;
    NothingAdded(s, msg, fd, s.log);
    if msg.value.roomname.Some? && msg.value.usernames.Some? {
      var room := msg.value.roomname.value;
      if room !in s.rooms {
        AnsweredFits(s, e, msg, fd, s, me, "INVITE", "NO_SUCH_ROOM", room, s');
      } else if me !in s.rooms[room].members {
        RefusedFits(s, e, msg, fd, me, s');
      } else {
        var names :| H.ListsNames(msg.value.usernames.value, names) && InvitesListed(s, e, room, names, me, s');
        if forall i :: 0 <= i < |names| ==> names[i] in s.users {
          var n :| InvitesUpTo(s, e, room, names, n, me, s');
          InvitesFit(s, e, msg, fd, me, room, names, n, s');
        } else {
          var i: nat :| FirstUnknownAt(s, names, i) && Answered(s, e, me, "INVITE", "NO_SUCH_USER", names[i], s');
          UnknownFits(s, e, msg, fd, me, room, names, i, s');
        }
      }
    }
  }

  // ------------------------------------------------------------------------------- every input

  lemma UserFits(s: N.State, e: P.Env, msg: Option<Message>, fd: int, me: string, s': N.State)
    requires N.Valid(s) && msg.Some? && P.Dispatchable(msg.value) && N.Holder(s.users, fd) == Some(me)
    requires msg.value.kind != UNKNOWN && msg.value.kind != IDENTIFY && UserDoes(s, e, msg.value, me, s')
    ensures AllFit(s, msg, fd, s.log, s'.log)
  {
    hide AllFit, Disconnected, StatusDoes, UsersDoes, TextDoes, NewsForAll, NewRoomDoes, InviteDoes, JoinDoes,
      RoomUsersDoes, RoomTextDoes, LeaveDoes, N.Valid;
    NothingAdded(s, msg, fd, s.log);
    match msg.value.kind
    case DISCONNECT => SenderLossFits(s, e, msg, fd, s, me, s');
    case STATUS => StatusFits(s, e, msg, fd, me, s');
    case USERS => UsersFits(s, e, msg, fd, me, s');
    case TEXT => TextFits(s, e, msg, fd, me, s');
    case PUBLIC_TEXT => PublicTextFits(s, e, msg, fd, me, s');
    case NEW_ROOM => NewRoomFits(s, e, msg, fd, me, s');
    case INVITE => InviteFits(s, e, msg, fd, me, s');
    case JOIN_ROOM => JoinFits(s, e, msg, fd, me, s');
    case ROOM_USERS => RoomUsersFits(s, e, msg, fd, me, s');
    case ROOM_TEXT => RoomTextFits(s, e, msg, fd, me, s');
    case LEAVE_ROOM => LeaveFits(s, e, msg, fd, me, s');
    case _ =>
  }

  lemma JustClosedFits(s: N.State, msg: Option<Message>, fd: int)
    ensures AllFit(s, msg, fd, s.log, Closed(s, fd).log)
  {
    OneMore(s, msg, fd, s.log, P.Closed(fd));
  }

  lemma DoesFits(s: N.State, e: P.Env, msg: Option<Message>, fd: int, s': N.State)
    requires N.Valid(s) && P.Handleable(msg) && Does(s, e, msg, fd, s')
    ensures AllFit(s, msg, fd, s.log, s'.log)
  {
    hide AllFit, IdentifyDoes, UserDoes, Refused, N.Valid, P.Dispatchable, After1, Closed, Answer;
    NothingAdded(s, msg, fd, s.log);
    JustClosedFits(s, msg, fd);
    match N.Holder(s.users, fd)
    case None =>
      if msg.None? {
        ClosedFits(s, e, msg, fd, "INVALID", "INVALID", None);
      } else if msg.value.kind == IDENTIFY {
        IdentifyFits(s, e, msg, fd, s');
      } else if msg.value.kind != UNKNOWN && msg.value.kind != DISCONNECT {
        ClosedFits(s, e, msg, fd, "INVALID", "NOT_IDENTIFIED", None);
      }
    case Some(me) =>
      if msg.None? {
        RefusedFits(s, e, msg, fd, me, s');
      } else if msg.value.kind == IDENTIFY {
        IdentifyFits(s, e, msg, fd, s');
      } else if msg.value.kind != UNKNOWN {
        UserFits(s, e, msg, fd, me, s');
      }
  }

  // ------------------------------------------------------------- every expected answer is sent

  /** The first entry appended is this answer, to the sender of the line. */
  ghost predicate StartsWith(s: N.State, e: P.Env, fd: int, m: Message, s': N.State) {
    s.log + [P.Sent(fd, m, e.delivers(|s.log|))] <= s'.log
  }

  lemma DisconnectedGrows(s: N.State, e: P.Env, me: string, s': N.State)
    requires me in s.users && Disconnected(s, e, me, s')
    ensures s.log <= s'.log
  {
    var s1 :| DisconnectedVia(s, e, me, s', s1);
    var lost :| NewsForAllBut(s, e, me, Letter(DISCONNECTED, me, None, None, None), s1, lost);
  }

  lemma AnsweredStarts(s: N.State, e: P.Env, fd: int, me: string, operation: string, result: string, extra: string,
      s': N.State)
    requires me in s.users && s.users[me].fd == fd && Answered(s, e, me, operation, result, extra, s')
    ensures StartsWith(s, e, fd, Answer(operation, result, Some(extra)), s')
  {
    hide Disconnected;
    if !e.delivers(|s.log|) {
      DisconnectedGrows(After1(s, e, fd, Answer(operation, result, Some(extra))), e, me, s');
    }
  }

  lemma RefusedStarts(s: N.State, e: P.Env, fd: int, me: string, s': N.State)
    requires me in s.users && s.users[me].fd == fd && Refused(s, e, me, s')
    ensures StartsWith(s, e, fd, Answer("INVALID", "INVALID", None), s')
  {
    hide Disconnected;
    DisconnectedGrows(After1(s, e, fd, Answer("INVALID", "INVALID", None)), e, me, s');
  }

  lemma NewsGrows(s: N.State, e: P.Env, me: string, m: Message, s': N.State)
    requires NewsForAll(s, e, me, m, s')
    ensures s.log <= s'.log
  {
    var lost :| NewsForAllBut(s, e, me, m, s', lost);
  }

  lemma RoomNewsGrows(s: N.State, e: P.Env, room: string, me: string, m: Message, s': N.State)
    requires room in s.rooms && NewsForRoom(s, e, room, me, m, s')
    ensures s.log <= s'.log
  {
    var lost :| NewsForRoomBut(s, e, room, me, m, s', lost);
  }

  lemma OneCut(a: string, b: string, s: string, max: nat)
    requires Cut(a, s, max) && Cut(b, s, max)
    ensures a == b
  {
    assert a == s[..|a|] && b == s[..|b|];
  }

  lemma StrangerIsAnswered(s: N.State, e: P.Env, m: Message, fd: int, operation: string, result: string,
      extra: Option<string>, s': N.State)
    requires N.Holder(s.users, fd).None? && m.kind == IDENTIFY && IdentifyDoes(s, e, m.username, fd, s')
    requires StrangerExpects(s, m, operation, result, extra)
    ensures StartsWith(s, e, fd, Answer(operation, result, extra), s')
  {
    var name :| Cut(name, m.username.value, 8) && IdentifiesAs(s, e, name, fd, s');
    OneCut(name, extra.value, m.username.value, 8);
    hide NewsForAll, Disconnected, Cut;
    if name !in s.users {
      var s1 := After1(s.(users := s.users[name := User(name, fd, ACTIVE)]), e, fd, Answer("IDENTIFY", "SUCCESS",
          Some(name)));
      if e.delivers(|s.log|) {
        NewsGrows(s1, e, name, Letter(NEW_USER, name, None, None, None), s');
      } else {
        DisconnectedGrows(s1, e, name, s');
      }
    }
  }

  lemma RoomIsAnswered(s: N.State, e: P.Env, m: Message, fd: int, me: string, operation: string, result: string,
                       extra: Option<string>, s': N.State)
    requires N.Holder(s.users, fd) == Some(me) && P.Dispatchable(m) && UserDoes(s, e, m, me, s')
    requires RoomAnswer(s, m, me, operation, result, extra)
    ensures StartsWith(s, e, fd, Answer(operation, result, extra), s')
  {
    var room := m.roomname.value;
    if m.kind == JOIN_ROOM && result == "SUCCESS" {
      JoinIsAnswered(s, e, fd, me, room, s');
    } else {
      RoomRefusal(s, e, m, fd, me, operation, result, room, s');
      hide Answered;
      AnsweredStarts(s, e, fd, me, operation, result, room, s');
    }
  }

  lemma RoomRefusal(s: N.State, e: P.Env, m: Message, fd: int, me: string, operation: string, result: string,
                    room: string, s': N.State)
    requires N.Holder(s.users, fd) == Some(me) && P.Dispatchable(m) && UserDoes(s, e, m, me, s')
    requires RoomAnswer(s, m, me, operation, result, Some(room)) && result != "SUCCESS"
    ensures Answered(s, e, me, operation, result, room, s')
  {
    hide Answered, Refused, Disconnected, NewsForRoom;
  }

  lemma JoinIsAnswered(s: N.State, e: P.Env, fd: int, me: string, room: string, s': N.State)
    requires N.Holder(s.users, fd) == Some(me) && JoinDoes(s, e, Some(room), me, s')
    requires room in s.rooms && me !in s.rooms[room].members && me in s.rooms[room].guests
    ensures StartsWith(s, e, fd, Answer("JOIN_ROOM", "SUCCESS", Some(room)), s')
  {
    hide Disconnected, NewsForRoom;
    var moved := N.Room(s.rooms[room].members + {me}, s.rooms[room].guests - {me});
    var s1 := After1(s.(rooms := s.rooms[room := moved]), e, fd, Answer("JOIN_ROOM", "SUCCESS", Some(room)));
    if e.delivers(|s.log|) {
      RoomNewsGrows(s1, e, room, me, Letter(JOINED_ROOM, me, None, None, Some(room)), s');
    } else {
      DisconnectedGrows(s1, e, me, s');
    }
  }

  lemma InviteIsAnswered(s: N.State, e: P.Env, m: Message, fd: int, me: string, extra: Option<string>, s': N.State)
    requires N.Holder(s.users, fd) == Some(me) && m.kind == INVITE && InviteDoes(s, e, m.roomname, m.usernames, me, s')
    requires UnknownInvitee(s, m, me, extra)
    ensures StartsWith(s, e, fd, Answer("INVITE", "NO_SUCH_USER", extra), s')
  {
    hide Answered, InvitesUpTo, FirstUnknownListed, FirstUnknownAt, H.ListsNames, StartsWith, InvitesListed, Answer;
    var room := m.roomname.value;
    var i: nat :| FirstUnknownListed(s, m.usernames.value, i, extra.value);
    var names :| H.ListsNames(m.usernames.value, names) && InvitesListed(s, e, room, names, me, s');
    SameFirst(s, m.usernames.value, names, i, extra.value);
    UnknownIsAnswered(s, e, fd, me, room, names, i, s');
  }

  lemma SameFirst(s: N.State, usernames: seq<Option<string>>, names: seq<string>, i: nat, name: string)
    requires H.ListsNames(usernames, names) && FirstUnknownListed(s, usernames, i, name)
    ensures FirstUnknownAt(s, names, i) && names[i] == name
  {
    assert usernames[i] == Some(names[i]);
    forall j | 0 <= j < i
      ensures names[j] in s.users
    {
      assert usernames[j] == Some(names[j]);
    }
  }

  lemma UnknownIsAnswered(s: N.State, e: P.Env, fd: int, me: string, room: string, names: seq<string>, i: nat,
      s': N.State)
    requires N.Holder(s.users, fd) == Some(me) && room in s.rooms
    requires FirstUnknownAt(s, names, i) && InvitesListed(s, e, room, names, me, s')
    ensures StartsWith(s, e, fd, Answer("INVITE", "NO_SUCH_USER", Some(names[i])), s')
  {
    hide Answered, InvitesUpTo, StartsWith;
    var j: nat :| FirstUnknownAt(s, names, j) && Answered(s, e, me, "INVITE", "NO_SUCH_USER", names[j], s');
    assert i == j;
    AnsweredStarts(s, e, fd, me, "INVITE", "NO_SUCH_USER", names[j], s');
  }

  lemma InvalidIsRefused(s: N.State, e: P.Env, m: Message, fd: int, me: string, s': N.State)
    requires N.Holder(s.users, fd) == Some(me) && P.Dispatchable(m) && Does(s, e, Some(m), fd, s')
    requires IsInvalid(s, m, me)
    ensures Refused(s, e, me, s')
  {
    hide Refused;
    if m.kind == IDENTIFY {
      var name :| Cut(name, m.username.value, 8) && IdentifiesAs(s, e, name, fd, s');
      var other :| Cut(other, m.username.value, 8) && other != me;
      OneCut(name, other, m.username.value, 8);
    }
  }

  lemma NewRoomIsAnswered(s: N.State, e: P.Env, m: Message, fd: int, me: string, operation: string, result: string,
                          extra: Option<string>, s': N.State)
    requires N.Holder(s.users, fd) == Some(me) && NewRoomDoes(s, e, m.roomname, me, s')
    requires NewRoomAnswer(s, m, operation, result, extra)
    ensures StartsWith(s, e, fd, Answer(operation, result, extra), s')
  {
    hide Answered;
    var whole := m.roomname.value;
    var room :| Cut(room, whole, 16) && OpensAs(s, e, whole, room, me, s');
    OneCut(room, extra.value, whole, 16);
    if whole in s.rooms {
      AnsweredStarts(s, e, fd, me, operation, result, room, s');
    } else {
      AnsweredStarts(s.(rooms := s.rooms[room := N.Room({me}, {})]), e, fd, me, operation, result, room, s');
    }
  }

  lemma UserIsAnswered(s: N.State, e: P.Env, m: Message, fd: int, me: string, operation: string, result: string,
                       extra: Option<string>, s': N.State)
    requires N.Holder(s.users, fd) == Some(me) && P.Dispatchable(m) && Does(s, e, Some(m), fd, s')
    requires m.kind != UNKNOWN && UserExpects(s, m, me, operation, result, extra)
    ensures StartsWith(s, e, fd, Answer(operation, result, extra), s')
  {
    hide IdentifyDoes, Refused, NewRoomDoes, InviteDoes, NewRoomAnswer, UnknownInvitee, RoomAnswer, IsInvalid,
        StartsWith;
    if operation == "INVALID" && result == "INVALID" && extra == None && IsInvalid(s, m, me) {
      InvalidIsRefused(s, e, m, fd, me, s');
      RefusedStarts(s, e, fd, me, s');
    } else if m.kind == NEW_ROOM && NewRoomAnswer(s, m, operation, result, extra) {
      NewRoomIsAnswered(s, e, m, fd, me, operation, result, extra, s');
    } else if m.kind == INVITE && operation == "INVITE" && result == "NO_SUCH_USER" && UnknownInvitee(s, m, me, extra) {
      InviteIsAnswered(s, e, m, fd, me, extra, s');
    } else if RoomAnswer(s, m, me, operation, result, extra) {
      IsRoomCommand(s, m, me, operation, result, extra);
      RoomIsAnswered(s, e, m, fd, me, operation, result, extra, s');
    } else {
      AnsweredStarts(s, e, fd, me, operation, result, m.username.value, s');
    }
  }

  lemma IsRoomCommand(s: N.State, m: Message, me: string, operation: string, result: string, extra: Option<string>)
    requires RoomAnswer(s, m, me, operation, result, extra)
    ensures m.kind != IDENTIFY
  {
  }

  lemma ExpectedIsSent(s: N.State, e: P.Env, msg: Option<Message>, fd: int, operation: string, result: string,
                       extra: Option<string>, s': N.State)
    requires P.Handleable(msg) && Does(s, e, msg, fd, s') && Expects(s, msg, fd, operation, result, extra)
    requires msg.Some? ==> msg.value.kind != UNKNOWN
    ensures StartsWith(s, e, fd, Answer(operation, result, extra), s')
  {
    hide IdentifyDoes, UserDoes, Refused, UserExpects;
    match N.Holder(s.users, fd)
    case None =>
      if msg.Some? && msg.value.kind == IDENTIFY {
        StrangerIsAnswered(s, e, msg.value, fd, operation, result, extra, s');
      }
    case Some(me) =>
      if msg.None? {
        RefusedStarts(s, e, fd, me, s');
      } else {
        UserIsAnswered(s, e, msg.value, fd, me, operation, result, extra, s');
      }
  }

  lemma UnknownExpectsNothing(s: N.State, msg: Option<Message>, fd: int, operation: string, result: string,
      extra: Option<string>)
    requires msg.Some? && msg.value.kind == UNKNOWN
    ensures !Expects(s, msg, fd, operation, result, extra)
  {
  }

  /** The first entry appended is an answer exactly if the line expects that answer. */
  lemma AnsweredExactly(s: N.State, e: P.Env, msg: Option<Message>, fd: int, operation: string, result: string,
                        extra: Option<string>, s': N.State)
    requires N.Valid(s) && P.Handleable(msg) && Does(s, e, msg, fd, s')
    ensures s.log <= s'.log
    ensures Expects(s, msg, fd, operation, result, extra)
            <==> StartsWith(s, e, fd, Answer(operation, result, extra), s')
  {
    DoesFits(s, e, msg, fd, s');
    hide Does, Expects, N.Valid;
    var answer := Answer(operation, result, extra);
    if Expects(s, msg, fd, operation, result, extra) {
      if msg.Some? && msg.value.kind == UNKNOWN {
        UnknownExpectsNothing(s, msg, fd, operation, result, extra);
      } else {
        ExpectedIsSent(s, e, msg, fd, operation, result, extra, s');
      }
    }
    if StartsWith(s, e, fd, answer, s') {
      assert s'.log[|s.log|] == P.Sent(fd, answer, e.delivers(|s.log|));
      OnlyExpected(s, msg, fd, s'.log[|s.log|], operation, result, extra);
    }
  }

  lemma OnlyExpected(s: N.State, msg: Option<Message>, fd: int, event: P.Event, operation: string, result: string,
                     extra: Option<string>)
    requires Fits(s, msg, fd, event, true) && event.Sent? && event.msg == Answer(operation, result, extra)
    ensures Expects(s, msg, fd, operation, result, extra)
  {
    hide Expects;
    if to :| GoesTo(s, msg, fd, event, to) {
      NewsIsNoAnswer(s, msg, fd, event.msg, to);
      assert false;
    }
  }

  lemma NewsIsNoAnswer(s: N.State, msg: Option<Message>, fd: int, news: Message, to: string)
    requires SaysTo(s, msg, fd, news, to)
    ensures news.kind != RESPONSE
  {
    hide ListsUsers, Cut;
  }

  // -------------------------------------------------------------------------------- whole runs

  /** Every entry of the log of a run has its place in what one input does: an answer is the first thing the
      input leads to, it goes to the input's descriptor, and it is the one expected; any other message goes
      to a user to whom that input says it. */
  lemma EveryEntryFits(e: P.Env, run: seq<P.Input>, k: nat, index: nat) returns (i: nat)
    requires P.Iterates(e) && P.Admissible(run) && k <= |run| && index < |P.After(e, run, k).log|
    ensures i < k && |P.After(e, run, i).log| <= index
    ensures var event := P.After(e, run, k).log[index];
            Fits(Names(P.After(e, run, i)), run[i].msg, run[i].fd, event, index == |P.After(e, run, i).log|)
  {
    i := OriginIn(e, run, k, index);
    StepFits(e, run, i);
    hide P.After, Fits, P.Admissible, P.Iterates, Names;
    var log, log' := P.After(e, run, i).log, P.After(e, run, i + 1).log;
    assert |log| <= index < |log'|;
    NamesLog(P.After(e, run, i));
  }

  lemma StartsEmpty(e: P.Env, run: seq<P.Input>)
    requires P.Admissible(run)
    ensures P.After(e, run, 0).log == []
  {
  }

  lemma LogGrows(e: P.Env, run: seq<P.Input>, i: nat, k: nat)
    requires P.Iterates(e) && P.Admissible(run) && k == i + 1 <= |run|
    ensures P.After(e, run, i).log <= P.After(e, run, k).log
  {
    StepFits(e, run, i);
    hide P.After, Fits, Names, P.Admissible, P.Iterates;
  }

  /** The input that made an entry. */
  lemma {:induction false} OriginIn(e: P.Env, run: seq<P.Input>, k: nat, index: nat) returns (i: nat)
    requires P.Iterates(e) && P.Admissible(run) && k <= |run| && index < |P.After(e, run, k).log|
    ensures i < k && |P.After(e, run, i).log| <= index < |P.After(e, run, i + 1).log|
    ensures P.After(e, run, i + 1).log[index] == P.After(e, run, k).log[index]
    decreases k
  {
    hide *;
    if k == 0 {
      StartsEmpty(e, run);
      assert false;
    }
    LogGrows(e, run, k - 1, k);
    if index < |P.After(e, run, k - 1).log| {
      i := OriginIn(e, run, k - 1, index);
    } else {
      i := k - 1;
    }
  }

  lemma StepFits(e: P.Env, run: seq<P.Input>, i: nat)
    requires P.Iterates(e) && P.Admissible(run) && i < |run|
    ensures AllFit(Names(P.After(e, run, i)), run[i].msg, run[i].fd, P.After(e, run, i).log, P.After(e, run, i + 1).log)
  {
    ValidNames(e, run, i);
    RunDoes(e, run, i);
    hide P.After, Does, AllFit, N.Valid, P.Admissible, P.Iterates, Names;
    NamesLog(P.After(e, run, i));
    NamesLog(P.After(e, run, i + 1));
    DoesFits(Names(P.After(e, run, i)), e, run[i].msg, run[i].fd, Names(P.After(e, run, i + 1)));
  }

  lemma ValidNames(e: P.Env, run: seq<P.Input>, k: nat)
    requires P.Iterates(e) && P.Admissible(run) && k <= |run|
    ensures N.Valid(Names(P.After(e, run, k)))
  {
    ReachableIsConsistent(e, run, k);
    ConsistentMeansCopies(P.After(e, run, k));
  }

  lemma NamesLog(c: P.State)
    ensures Names(c).log == c.log
  {
  }

  /** Every RESPONSE of a run answers the input that made it, and is the first thing it led to. */
  lemma EveryAnswerIsExpected(e: P.Env, run: seq<P.Input>, k: nat, index: nat) returns (i: nat)
    requires P.Iterates(e) && P.Admissible(run) && k <= |run| && index < |P.After(e, run, k).log|
    requires P.After(e, run, k).log[index].Sent? && P.After(e, run, k).log[index].msg.kind == RESPONSE
    ensures i < k && index == |P.After(e, run, i).log|
    ensures var event := P.After(e, run, k).log[index];
            && event.fd == run[i].fd
            && event.msg.operation.Some? && event.msg.result.Some?
            && event.msg == Answer(event.msg.operation.value, event.msg.result.value, event.msg.extra)
            && Expects(Names(P.After(e, run, i)), run[i].msg, run[i].fd, event.msg.operation.value,
                       event.msg.result.value, event.msg.extra)
  {
    i := EveryEntryFits(e, run, k, index);
    hide P.After, After, Expects, N.Valid, P.Admissible, P.Iterates, Names;
    var event := P.After(e, run, k).log[index];
    var s := Names(P.After(e, run, i));
    if to :| GoesTo(s, run[i].msg, run[i].fd, event, to) {
      NewsIsNoAnswer(s, run[i].msg, run[i].fd, event.msg, to);
      assert false;
    }
  }

  /** And every input whose state before it expects an answer gets exactly that one, first. */
  lemma EveryInputIsAnswered(e: P.Env, run: seq<P.Input>, i: nat, operation: string, result: string,
      extra: Option<string>)
    requires P.Iterates(e) && P.Admissible(run) && i < |run|
    ensures Expects(Names(P.After(e, run, i)), run[i].msg, run[i].fd, operation, result, extra)
            <==> P.After(e, run, i).log
                 + [P.Sent(run[i].fd, Answer(operation, result, extra), e.delivers(|P.After(e, run, i).log|))]
                 <= P.After(e, run, i + 1).log
  {
    ValidNames(e, run, i);
    RunDoes(e, run, i);
    hide P.After, Expects, Does, N.Valid, P.Admissible, P.Iterates;
    AnsweredExactly(Names(P.After(e, run, i)), e, run[i].msg, run[i].fd, operation, result, extra,
                    Names(P.After(e, run, i + 1)));
  }

  /** Every TEXT_FROM of a run comes from a TEXT of another user; it went to the descriptor of the user that
      input named, and carries the sender's own name and that input's text. */
  lemma EveryTextIsAddressed(e: P.Env, run: seq<P.Input>, k: nat, index: nat) returns (i: nat, me: string, to: string)
    requires P.Iterates(e) && P.Admissible(run) && k <= |run| && index < |P.After(e, run, k).log|
    requires P.After(e, run, k).log[index].Sent? && P.After(e, run, k).log[index].msg.kind == TEXT_FROM
    ensures i < k && |P.After(e, run, i).log| <= index
    ensures run[i].msg.Some? && run[i].msg.value.kind == TEXT && run[i].msg.value.username == Some(to)
    ensures var users := P.After(e, run, i).users.byName;
            && me in users && to in users && me != to && users[me].fd == run[i].fd
            && P.After(e, run, k).log[index].fd == users[to].fd
            && P.After(e, run, k).log[index].msg == Letter(TEXT_FROM, me, None, run[i].msg.value.text, None)
  {
    i := EveryEntryFits(e, run, k, index);
    var c := P.After(e, run, i);
    hide P.After, After, Expects, P.Admissible, P.Iterates;
    var event := P.After(e, run, k).log[index];
    to :| GoesTo(Names(c), run[i].msg, run[i].fd, event, to);
    me := SaidByUser(Names(c), run[i].msg, run[i].fd, event.msg, to);
  }

  lemma SaidByUser(s: N.State, msg: Option<Message>, fd: int, news: Message, to: string) returns (me: string)
    requires SaysTo(s, msg, fd, news, to) && news.kind == TEXT_FROM
    ensures N.Holder(s.users, fd) == Some(me) && msg.Some? && msg.value.kind == TEXT && Says(s, msg.value, me, news, to)
  {
    hide ListsUsers, Cut;
    me := N.Holder(s.users, fd).value;
  }
}
