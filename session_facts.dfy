/** What the session transitions of `Handler` guarantee, stage by stage and
    command by command, and over whole runs. */
module HandlerFacts {
  import opened Text
  import opened Envelope
  import opened Identity
  import opened Shutdown
  import opened Hub
  import opened Handler

  /** The active stage reads a frame as the command its trimmed content
      classifies to. */
  lemma ActiveDispatch(h: HubState, s: Session, m: Incoming, o: Oracle)
    requires s.stage == Active && ValidDraws(o.draws)
    ensures Step(h, s, Received(m), o) == Perform(h, s, Classify(TrimSpace(m.content)), o)
  {
  }

  /** Input that starts with `/close` is read by its number of fields. */
  lemma ClassifyClose(input: string)
    requires "/close" <= input
    ensures Classify(input) == if |Fields(input)| == 1 then CloseStatus
      else if |Fields(input)| == 2 then CloseSet(Fields(input)[1])
      else CloseIgnored
  {
  }

  /** Password stage: the session moves on exactly when the lower-cased,
      trimmed answer is non-empty and equals the lower-cased, trimmed
      password; a blank or a wrong answer re-prompts and leaves the session
      as it was; the shared state is never touched. */
  lemma PasswordAdvancesIff(h: HubState, s: Session, m: Incoming, o: Oracle)
    requires s.stage == AwaitingPassword && ValidDraws(o.draws)
    ensures var r := Step(h, s, Received(m), o);
      var pwd := TrimSpace(ToLower(m.content));
      && r.hub == h
      && (r.session.stage == AwaitingIdentity <==> pwd != [] && pwd == TrimSpace(ToLower(h.password)))
      && (r.session.stage != AwaitingIdentity ==> r.session == s && |r.replies| == 1 && r.replies[0].kind == Password)
      && (pwd == [] ==> r.replies == [EmptyPassword])
      && (r.session.stage == AwaitingIdentity ==> r.replies == [PasswordAccepted, IdPrompt])
  {
  }

  /** A read failure before the session is active ends it without touching
      the registry or the broadcast queue. */
  lemma ReadFailureBeforeActive(h: HubState, s: Session, o: Oracle)
    requires s.stage == AwaitingPassword || s.stage == AwaitingIdentity
    requires ValidDraws(o.draws)
    ensures var r := Step(h, s, Broken, o);
      r.hub == h && r.session.stage == Closed && r.replies == []
  {
  }

  /** Identity stage: the one frame registers this connection under a
      well-formed user ID (the trimmed answer without line breaks, or a
      generated ID for a blank answer) and a colour from the palette; the
      registry grows by one for a fresh connection; exactly one join
      envelope is broadcast when the welcome is written, none otherwise,
      and in that case the client stays registered after the session ends. */
  lemma IdentityRegisters(h: HubState, s: Session, m: Incoming, o: Oracle)
    requires s.stage == AwaitingIdentity && ValidDraws(o.draws)
    ensures var r := Step(h, s, Received(m), o);
      var id := r.session.userId;
      var custom := TrimSpace(m.content);
      && s.conn in r.hub.clients
      && r.hub.clients[s.conn] == Client(id, s.ip, s.region, r.session.color)
      && r.session.color in Colors
      && id != [] && '\n' !in id && '\r' !in id
      && (custom == [] ==> id == RandomID(o.draws))
      && (custom != [] && '\n' !in custom && '\r' !in custom ==> id == custom)
      && |r.hub.clients| == (if s.conn in h.clients then |h.clients| else |h.clients| + 1)
      && (o.welcomeSent ==>
            && r.session.stage == Active && |r.hub.queue| == |h.queue| + 1
            && r.hub.queue[..|h.queue|] == h.queue
            && r.hub.queue[|h.queue|] == Announcement(Join, r.session, JoinWording))
      && (!o.welcomeSent ==> r.session.stage == Closed && r.hub.queue == h.queue)
      && r.replies == [WelcomeReply(|r.hub.clients|, r.session)]
  {
    IdentityEntry(h, s, m, o);
    IdentityAnnounced(h, s, m, o);
  }

  /** The registry side of the identity stage. */
  lemma IdentityEntry(h: HubState, s: Session, m: Incoming, o: Oracle)
    requires s.stage == AwaitingIdentity && ValidDraws(o.draws)
    ensures var r := Step(h, s, Received(m), o);
      var id := r.session.userId;
      var custom := TrimSpace(m.content);
      && s.conn in r.hub.clients
      && r.hub.clients[s.conn] == Client(id, s.ip, s.region, r.session.color)
      && r.session.color in Colors
      && id != [] && '\n' !in id && '\r' !in id
      && (custom == [] ==> id == RandomID(o.draws))
      && (custom != [] && '\n' !in custom && '\r' !in custom ==> id == custom)
      && |r.hub.clients| == (if s.conn in h.clients then |h.clients| else |h.clients| + 1)
  {
    UserIDWellFormed(m.content, o.draws);
  }

  /** The messages of the identity stage: the welcome with the count of
      registered clients, and the join broadcast once it is written. */
  lemma IdentityAnnounced(h: HubState, s: Session, m: Incoming, o: Oracle)
    requires s.stage == AwaitingIdentity && ValidDraws(o.draws)
    ensures var r := Step(h, s, Received(m), o);
      && (o.welcomeSent ==>
            && r.session.stage == Active && |r.hub.queue| == |h.queue| + 1
            && r.hub.queue[..|h.queue|] == h.queue
            && r.hub.queue[|h.queue|] == Announcement(Join, r.session, JoinWording))
      && (!o.welcomeSent ==> r.session.stage == Closed && r.hub.queue == h.queue)
      && r.replies == [WelcomeReply(|r.hub.clients|, r.session)]
  {
  }

  /** A plain message is broadcast as a chat envelope whose content is the
      trimmed input and whose sender fields are the session's own. */
  lemma ChatIsStamped(h: HubState, s: Session, m: Incoming, o: Oracle)
    requires s.stage == Active && ValidDraws(o.draws)
    requires Classify(TrimSpace(m.content)).Say?
    ensures var r := Step(h, s, Received(m), o);
      var input := TrimSpace(m.content);
      && r.hub.queue == h.queue + [Message(Chat, input, s.userId, s.masked, s.region, s.color)]
      && r.hub.clients == h.clients && r.hub.plan == h.plan
      && r.session == s && r.replies == []
      && input != [] && !("/close" <= input)
  {
    var input := TrimSpace(m.content);
    ActiveDispatch(h, s, m, o);
    assert Classify(input) == Say(input);
  }

  /** Whatever type, user ID, address, region, time or colour the client
      claims in its frame, only the content matters. */
  lemma ChatIgnoresClaims(h: HubState, s: Session, m1: Incoming, m2: Incoming, o: Oracle)
    requires ValidDraws(o.draws)
    requires m1.content == m2.content
    ensures Step(h, s, Received(m1), o) == Step(h, s, Received(m2), o)
  {
  }

  /** `/exit` and `/quit` remove the connection and broadcast exactly one
      leave envelope, worded as a voluntary exit. */
  lemma QuitLeaves(h: HubState, s: Session, m: Incoming, o: Oracle)
    requires s.stage == Active && ValidDraws(o.draws)
    requires TrimSpace(m.content) == "/exit" || TrimSpace(m.content) == "/quit"
    ensures var r := Step(h, s, Received(m), o);
      && s.conn !in r.hub.clients
      && (forall c :: c != s.conn ==> (c in r.hub.clients <==> c in h.clients))
      && |r.hub.queue| == |h.queue| + 1 && r.hub.queue[..|h.queue|] == h.queue
      && r.hub.queue[|h.queue|] == Announcement(Leave, s, QuitWording)
      && r.session.stage == Closed && r.replies == []
  {
  }

  /** A read failure while active removes the connection if it is still
      registered and broadcasts exactly one leave envelope, worded as an
      abnormal departure. */
  lemma ReadFailureWhileActive(h: HubState, s: Session, o: Oracle)
    requires s.stage == Active && ValidDraws(o.draws)
    ensures var r := Step(h, s, Broken, o);
      && r.hub.clients == Unregister(h, s.conn).clients
      && |r.hub.queue| == |h.queue| + 1 && r.hub.queue[..|h.queue|] == h.queue
      && r.hub.queue[|h.queue|] == Announcement(Leave, s, LostWording)
      && r.session.stage == Closed && r.replies == []
  {
  }

  /** `/online` and `/help` change nothing and only reply privately; the
      `/online` reply lists every registered client. */
  lemma ListingsArePrivate(h: HubState, s: Session, m: Incoming, o: Oracle)
    requires s.stage == Active && ValidDraws(o.draws)
    requires TrimSpace(m.content) == "/online" || TrimSpace(m.content) == "/help"
    ensures var r := Step(h, s, Received(m), o);
      && r.hub == h && r.session == s && |r.replies| == 1
      && (TrimSpace(m.content) == "/help" ==> r.replies[0] == HelpReply)
      && (TrimSpace(m.content) == "/online" ==>
            && r.replies[0] == OnlineReply(h)
            && forall c :: c in h.clients ==> OnlineRow(h.clients[c]) in OnlineRows(h.clients))
  {
    var input := TrimSpace(m.content);
    ActiveDispatch(h, s, m, o);
    if input == "/online" {
      assert Classify(input) == ListOnline;
    } else {
      assert Classify(input) == ShowHelp;
    }
    forall c | c in h.clients
      ensures OnlineRow(h.clients[c]) in OnlineRows(h.clients)
    {
      OnlineListsEveryone(h.clients, c);
    }
  }

  /** `/color` broadcasts nothing: it picks a colour from the palette for
      the session's later envelopes and, if the client is still registered,
      for its registry entry, and changes nothing else. */
  lemma RecolorIsPrivate(h: HubState, s: Session, m: Incoming, o: Oracle)
    requires s.stage == Active && ValidDraws(o.draws)
    requires TrimSpace(m.content) == "/color"
    ensures var r := Step(h, s, Received(m), o);
      && r.hub.queue == h.queue && r.hub.plan == h.plan
      && r.hub.clients.Keys == h.clients.Keys
      && r.session == s.(color := r.session.color) && r.session.color in Colors
      && (s.conn in h.clients ==> r.hub.clients[s.conn] == h.clients[s.conn].(color := r.session.color))
      && (forall c :: c in h.clients && c != s.conn ==> r.hub.clients[c] == h.clients[c])
      && r.replies == [ColorReply]
  {
  }

  /** Blank content does nothing at all. */
  lemma BlankDoesNothing(h: HubState, s: Session, m: Incoming, o: Oracle)
    requires s.stage == Active && ValidDraws(o.draws)
    requires TrimSpace(m.content) == []
    ensures Step(h, s, Received(m), o) == Outcome(h, s, [])
  {
  }

  /** `/close` with one field (which includes `/closeX` and the like)
      reports the status privately and changes nothing: "not set" while no
      shutdown is set, else the remaining minutes. */
  lemma CloseStatusOnly(h: HubState, s: Session, m: Incoming, o: Oracle)
    requires s.stage == Active && ValidDraws(o.draws)
    requires "/close" <= TrimSpace(m.content) && |Fields(TrimSpace(m.content))| == 1
    ensures var r := Step(h, s, Received(m), o);
      && r.hub == h && r.session == s && |r.replies| == 1
      && (h.plan.minutes <= 0 ==> r.replies[0].content == "【系统通知】服务器未设置关闭时间")
      && (h.plan.minutes > 0 ==> r.replies[0] == ScheduledNotice(Remaining(h.plan, o.now).value))
  {
    ActiveDispatch(h, s, m, o);
    ClassifyClose(TrimSpace(m.content));
    var r := Step(h, s, Received(m), o);
    assert r == Outcome(h, s, [StatusNotice(h.plan, o.now)]);
    StatusNoticeText(h.plan, o.now);
  }

  /** `/close` directly followed by anything without white space is a
      status query. */
  lemma CloseSuffixIsStatus(t: string)
    requires NoneOf(t, IsSpace)
    ensures Classify("/close" + t) == CloseStatus
  {
    var input := "/close" + t;
    SolidSingleField(t);
    assert input[..6] == "/close";
    ClassifyClose(input);
  }

  /** `/close` followed by text without white space is one field. */
  lemma SolidSingleField(t: string)
    requires NoneOf(t, IsSpace)
    ensures |Fields("/close" + t)| == 1
  {
    var input := "/close" + t;
    assert NoneOf("/close", IsSpace);
    NoneOfConcat("/close", t, IsSpace);
    FieldsSingle(input, IsSpace);
  }

  /** An argument that `Atoi` rejects, or a count that is not positive, is
      refused privately: the shutdown time, its start and the timer list
      all stay as they were. */
  lemma CloseRejected(h: HubState, s: Session, m: Incoming, o: Oracle)
    requires s.stage == Active && ValidDraws(o.draws)
    requires "/close" <= TrimSpace(m.content) && |Fields(TrimSpace(m.content))| == 2
    requires ParseMinutesAsWritten(Fields(TrimSpace(m.content))[1]).None?
    ensures var r := Step(h, s, Received(m), o);
      r.hub == h && r.session == s && r.replies == [InvalidMinutes]
  {
    ActiveDispatch(h, s, m, o);
    ClassifyClose(TrimSpace(m.content));
  }

  /** Any positive count `Atoi` accepts, however large, leads to
      `ScheduleShutdown` and nothing else: no private reply, the session
      unchanged. What the new plan holds is `Hub.ScheduledAlarms`. */
  lemma CloseAccepted(h: HubState, s: Session, m: Incoming, o: Oracle, minutes: int)
    requires s.stage == Active && ValidDraws(o.draws)
    requires "/close" <= TrimSpace(m.content) && |Fields(TrimSpace(m.content))| == 2
    requires ParseMinutesAsWritten(Fields(TrimSpace(m.content))[1]) == Some(minutes)
    ensures minutes > 0
    ensures Step(h, s, Received(m), o) == Outcome(ScheduleShutdown(h, minutes, o.now), s, [])
  {
    ActiveDispatch(h, s, m, o);
    ClassifyClose(TrimSpace(m.content));
  }

  /** `/close 153722868` is accepted by the handler: the shutdown is
      scheduled and announced for 153722868 minutes, but the power-off
      timer it arms has a negative delay, so it goes off at once. */
  lemma CloseOverflow(h: HubState, s: Session, m: Incoming, o: Oracle, n: nat)
    requires s.stage == Active && ValidDraws(o.draws)
    requires n == MaxMinutes + 1
    requires TrimSpace(m.content) == "/close " + NatToString(n)
    ensures var r := Step(h, s, Received(m), o);
      && r == Outcome(ScheduleShutdown(h, n, o.now), s, [])
      && Timer(n, PowerOff) in r.hub.plan.timers
      && Delay(n) < 0
  {
    CloseWithArgument(TrimSpace(m.content), NatToString(n));
    PowerOffOverflow();
    CloseAccepted(h, s, m, o, n);
    assert ScheduleShutdown(h, n, o.now).plan.timers == Arm(n);
  }

  /** `/close <digits>` has exactly two fields, the second being the digits. */
  lemma CloseWithArgument(input: string, digits: string)
    requires digits != [] && IsDigits(digits)
    requires input == "/close " + digits
    ensures "/close" <= input && Fields(input) == ["/close", digits]
  {
    assert NoneOf(digits, IsSpace);
    assert NoneOf("/close", IsSpace);
    assert input == "/close" + ([' '] + digits);
    FieldsPair(input, "/close", digits, IsSpace, ' ');
    assert input[..6] == "/close";
  }

  /** `/close` with three or more fields does nothing at all. */
  lemma CloseTooManyFields(h: HubState, s: Session, m: Incoming, o: Oracle)
    requires s.stage == Active && ValidDraws(o.draws)
    requires "/close" <= TrimSpace(m.content) && |Fields(TrimSpace(m.content))| >= 3
    ensures Step(h, s, Received(m), o) == Outcome(h, s, [])
  {
    ActiveDispatch(h, s, m, o);
    ClassifyClose(TrimSpace(m.content));
  }

  /** A closed session ignores whatever follows. */
  lemma {:induction false} ClosedStaysClosed(h: HubState, s: Session, events: seq<Event>)
    requires s.stage == Closed && ValidEvents(events)
    ensures Run(h, s, events) == Outcome(h, s, [])
    decreases |events|
  {
    if events != [] {
      ClosedStaysClosed(h, s, events[1..]);
    }
  }

  /** Every event is a frame whose answer is blank or wrong. */
  predicate WrongAnswers(events: seq<Event>, password: string) {
    forall k :: 0 <= k < |events| ==>
      && events[k].frame.Received?
      && PasswordVerdict(events[k].frame.msg.content, password) != Accepted
  }

  /** Every reply is a password prompt. */
  predicate Prompts(replies: seq<Message>) {
    forall k :: 0 <= k < |replies| ==> replies[k].kind == Password
  }

  /** Any number of blank or wrong password answers leaves the shared state
      and the session as they were, with one re-prompt per answer. */
  lemma {:induction false} WrongPasswordsChangeNothing(h: HubState, s: Session, events: seq<Event>)
    requires s.stage == AwaitingPassword && ValidEvents(events)
    requires WrongAnswers(events, h.password)
    ensures var r := Run(h, s, events);
      r.hub == h && r.session == s && |r.replies| == |events| && Prompts(r.replies)
    decreases |events|
  {
    if events != [] {
      var first := Step(h, s, events[0].frame, events[0].oracle);
      WrongPasswordRetries(h, s, events[0].frame.msg, events[0].oracle);
      EventsTail(events, h.password);
      WrongPasswordsChangeNothing(h, s, events[1..]);
      var rest := Run(h, s, events[1..]);
      RunCons(h, s, events);
      PromptsAppend(first.replies, rest.replies);
    }
  }

  /** One blank or wrong password answer: the re-prompt, and nothing else. */
  lemma WrongPasswordRetries(h: HubState, s: Session, m: Incoming, o: Oracle)
    requires s.stage == AwaitingPassword && ValidDraws(o.draws)
    requires PasswordVerdict(m.content, h.password) != Accepted
    ensures var r := Step(h, s, Received(m), o);
      r.hub == h && r.session == s && |r.replies| == 1 && r.replies[0].kind == Password
  {
  }

  /** What holds of every event holds of the later ones. */
  lemma EventsTail(events: seq<Event>, password: string)
    requires events != [] && ValidEvents(events) && WrongAnswers(events, password)
    ensures ValidEvents(events[1..]) && WrongAnswers(events[1..], password)
    ensures events[0].frame.Received? && PasswordVerdict(events[0].frame.msg.content, password) != Accepted
  {
    assert forall k :: 0 <= k < |events| - 1 ==> events[1..][k] == events[k + 1];
  }

  /** A run is its first step followed by the run of the rest. */
  lemma RunCons(h: HubState, s: Session, events: seq<Event>)
    requires ValidEvents(events) && events != []
    ensures var first := Step(h, s, events[0].frame, events[0].oracle);
      var rest := Run(first.hub, first.session, events[1..]);
      Run(h, s, events) == Outcome(rest.hub, rest.session, first.replies + rest.replies)
  {
  }

  /** Two runs of password prompts make one. */
  lemma PromptsAppend(a: seq<Message>, b: seq<Message>)
    requires Prompts(a) && Prompts(b)
    ensures Prompts(a + b)
  {
  }

  /** No command of the active stage changes the password or another
      connection's registry entry; it can only remove its own. */
  lemma PerformKeepsOthers(h: HubState, s: Session, cmd: Command, o: Oracle, c: Conn)
    requires ValidDraws(o.draws) && c != s.conn
    ensures var r := Perform(h, s, cmd, o);
      && r.hub.password == h.password && r.session.conn == s.conn
      && (c in r.hub.clients ==> c in h.clients && r.hub.clients[c] == h.clients[c])
  {
    if cmd.CloseSet? && ParseMinutesAsWritten(cmd.arg).Some? {
      var minutes := ParseMinutesAsWritten(cmd.arg).value;
      assert Perform(h, s, cmd, o).hub == ScheduleShutdown(h, minutes, o.now);
    }
  }

  /** Stepping never changes the password or the session's connection, and
      never touches another connection's registry entry except to remove it. */
  lemma StepKeepsOthers(h: HubState, s: Session, f: Frame, o: Oracle, c: Conn)
    requires ValidDraws(o.draws) && c != s.conn
    ensures var r := Step(h, s, f, o);
      && r.hub.password == h.password && r.session.conn == s.conn
      && (c in r.hub.clients ==> c in h.clients && r.hub.clients[c] == h.clients[c])
  {
    if s.stage == Active && f.Received? {
      ActiveDispatch(h, s, f.msg, o);
      PerformKeepsOthers(h, s, Classify(TrimSpace(f.msg.content)), o, c);
    }
  }

  /** Over a whole run, the password is fixed and the entries of other
      connections are never changed, only ever removed. */
  lemma {:induction false} RunKeepsOthers(h: HubState, s: Session, events: seq<Event>, c: Conn)
    requires ValidEvents(events) && c != s.conn
    ensures var r := Run(h, s, events);
      && r.hub.password == h.password
      && r.session.conn == s.conn
      && (c in r.hub.clients ==> c in h.clients && r.hub.clients[c] == h.clients[c])
    decreases |events|
  {
    if events != [] {
      var first := Step(h, s, events[0].frame, events[0].oracle);
      StepKeepsOthers(h, s, events[0].frame, events[0].oracle, c);
      RunKeepsOthers(first.hub, first.session, events[1..], c);
    }
  }
}
