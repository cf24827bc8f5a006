/** `HandleClient` as a transition function: one connection's session
    moves through the password stage, the identity stage and the active
    stage, one inbound frame at a time, updating the shared `HubState` and
    writing private replies to its own connection. Randomness, the clock
    and the outcome of the welcome write come with each frame as an
    `Oracle`. */
module Handler {
  import opened Text
  import opened Envelope
  import opened Address
  import opened Identity
  import opened Shutdown
  import opened Hub

  /** Where the handler's loop is. */
  datatype Stage = AwaitingPassword | AwaitingIdentity | Active | Closed

  /** How far along the handler's code a stage is. */
  function Rank(st: Stage): nat
  {
    match st
    case AwaitingPassword => 0
    case AwaitingIdentity => 1
    case Active => 2
    case Closed => 3
  }

  /** The handler's locals: its connection, the extracted and masked
      address, the region, and (from the identity stage on) the user ID and
      the colour, which `/color` changes. */
  datatype Session = Session(stage: Stage, conn: Conn, ip: string, masked: string, region: string, userId: string, color: string)

  /** What the handler does not compute itself, for one frame: the values
      `rand.Intn` returns, whether the welcome write succeeds, and the
      clock in seconds. */
  datatype Oracle = Oracle(draws: Draws, welcomeSent: bool, now: int)

  /** One step's result: the new shared state, the new session, and the
      envelopes written to this connection alone, in order. */
  datatype Outcome = Outcome(hub: HubState, session: Session, replies: seq<Message>)

  const PasswordPrompt: Message := Notice(Password, "=== 终端聊天室-登录验证 ===\n请输入固定登录密码：")
  const EmptyPassword: Message := Notice(Password, "❌ 密码不能为空！请重新输入：")
  const PasswordAccepted: Message := Notice(Password, "✅ 密码验证成功！进入用户ID设置环节...")
  const WrongPassword: Message := Notice(Password, "❌ 密码错误！请重新输入固定登录密码：")
  const IdPrompt: Message := Notice(SetId, "=== 终端聊天室-用户ID设置 ===\n请输入自定义ID（直接回车则使用随机ID）：")
  const HelpReply: Message := Notice(Help, "=== 终端聊天室-可用命令 ===\n/online - 查看在线用户列表（IP | 归属地 | 用户ID）\n/help   - 显示当前帮助信息\n/exit   - 主动退出聊天室\n/color  - 随机更换自己输入内容的颜色\n/close [分钟] 设置服务器关闭时间\n直接输入 - 发送群聊消息（所有在线用户可见）")
  const ColorReply: Message := Notice(Recolored, "你已变色！")
  const InvalidMinutes: Message := Notice(System, "【系统通知】请输入有效的分钟数")

  /** A new connection: the host is taken from `RemoteAddr`, its region
      resolved (the lookup's outcome is a parameter) and masked for
      display, and the password prompt is written. Nothing is registered. */
  function Connect(conn: Conn, remoteAddr: string, lookup: Lookup): (r: (Session, Message))
    ensures r.0.stage == AwaitingPassword && r.0.conn == conn && r.1 == PasswordPrompt
    ensures r.0.ip == ClientHost(remoteAddr) && r.0.masked == MaskIP(r.0.ip)
    ensures IsLocalAddress(r.0.ip) ==> r.0.region == LocalRegion
    ensures !IsLocalAddress(r.0.ip) ==> r.0.region == LookupRegion(lookup)
    ensures r.0.region != []
  {
    var ip := ClientHost(remoteAddr);
    (Session(AwaitingPassword, conn, ip, MaskIP(ip), RegionOf(ip, lookup), "", ""), PasswordPrompt)
  }

  /** The comparison form of a password: lower-cased, then trimmed. */
  function Normalize(s: string): string
  {
    TrimSpace(ToLower(s))
  }

  /** How the password stage answers a frame's content. */
  datatype Verdict = Blank | Accepted | Rejected

  function PasswordVerdict(answer: string, secret: string): (v: Verdict)
    ensures v == Blank <==> Normalize(answer) == []
    ensures v == Accepted <==> Normalize(answer) != [] && Normalize(answer) == Normalize(secret)
  {
    var pwd := Normalize(answer);
    if pwd == "" then Blank
    else if pwd == Normalize(secret) then Accepted
    else Rejected
  }

  /** The password stage: a read failure ends the session; a blank or wrong
      answer re-prompts; the right one moves on and prompts for an ID. */
  function PasswordStep(h: HubState, s: Session, f: Frame): (r: Outcome)
    requires s.stage == AwaitingPassword
    ensures r.hub == h
    ensures r.session.stage == Closed <==> f.Broken?
    ensures r.session.(stage := s.stage) == s
    ensures f.Received? ==> |r.replies| >= 1 && forall k :: 0 <= k < |r.replies| ==> r.replies[k].kind in {Password, SetId}
  {
    match f
    case Broken => Outcome(h, s.(stage := Closed), [])
    case Received(m) =>
      match PasswordVerdict(m.content, h.password)
      case Blank => Outcome(h, s, [EmptyPassword])
      case Rejected => Outcome(h, s, [WrongPassword])
      case Accepted => Outcome(h, s.(stage := AwaitingIdentity), [PasswordAccepted, IdPrompt])
  }

  /** How the welcome and the announcements show a user: masked address,
      region and user ID. */
  function Badge(s: Session): string
  {
    s.masked + " | " + s.region + " | " + s.userId
  }

  const WelcomeLead: string := "=== 终端聊天室 v2.0 ===\n✅ 登录成功！当前在线："
  const WelcomeHint: string := "\n📌 帮助命令：/help(帮助)"

  /** The private welcome: the online count read right after registering,
      then the user's own badge. */
  function WelcomeReply(online: nat, s: Session): (m: Message)
    ensures m.kind == Welcome && m.userId == []
    ensures WelcomeLead + NatToString(online) + " " <= m.content
    ensures HasSuffix(m.content, "\n你的信息：" + Badge(s) + WelcomeHint)
  {
    var shown := " 人\n你的信息：" + Badge(s) + WelcomeHint;
    var m := Notice(Welcome, WelcomeLead + NatToString(online) + shown);
    assert m.content == WelcomeLead + NatToString(online) + " " + shown[1..];
    m
  }

  /** The welcome tells the count it was built with. */
  lemma WelcomeShowsCount(a: nat, b: nat, s1: Session, s2: Session)
    requires WelcomeReply(a, s1).content == WelcomeReply(b, s2).content
    ensures a == b
  {
    ReadNumber(WelcomeReply(a, s1).content, WelcomeLead, a, b, ' ', ' ');
  }

  /** What a join or leave announcement says after the user's badge. */
  const JoinWording: string := " 加入聊天室"
  const QuitWording: string := " 主动退出聊天室"
  const LostWording: string := " 异常离开聊天室"

  /** A broadcast about this session's user, stamped with its identity:
      the badge, then what happened. */
  function Announcement(kind: Kind, s: Session, what: string): (m: Message)
    ensures m.kind == kind && m.userId == s.userId && m.ip == s.masked
    ensures m.region == s.region && m.color == s.color
    ensures "【系统】" + Badge(s) <= m.content && HasSuffix(m.content, what)
  {
    var m := Message(kind, "【系统】" + Badge(s) + what, s.userId, s.masked, s.region, s.color);
    assert m.content[|m.content| - |what|..] == what;
    m
  }

  /** A voluntary leave and a lost connection are announced differently. */
  lemma LeaveWordingsDiffer(s: Session)
    ensures Announcement(Leave, s, QuitWording) != Announcement(Leave, s, LostWording)
  {
    var quit, lost := Announcement(Leave, s, QuitWording), Announcement(Leave, s, LostWording);
    assert HasSuffix(quit.content, QuitWording) && HasSuffix(lost.content, LostWording);
    assert QuitWording[1] != LostWording[1];
  }

  /** The identity stage: exactly one frame. The user ID and a colour are
      chosen, the client is registered and welcomed; when the welcome is
      written, the join is broadcast and the session becomes active,
      otherwise the handler returns and leaves the client registered. */
  function IdentityStep(h: HubState, s: Session, f: Frame, o: Oracle): (r: Outcome)
    requires s.stage == AwaitingIdentity && ValidDraws(o.draws)
    ensures f.Broken? ==> r == Outcome(h, s.(stage := Closed), [])
    ensures f.Received? ==> s.conn in r.hub.clients && |r.replies| == 1
    ensures f.Received? ==> (r.session.stage == Active <==> o.welcomeSent)
    ensures r.session.stage == Active || r.session.stage == Closed
    ensures r.hub.password == h.password && r.session.conn == s.conn
  {
    match f
    case Broken => Outcome(h, s.(stage := Closed), [])
    case Received(m) =>
      var named := s.(userId := UserID(m.content, o.draws), color := RandomColor(o.draws));
      var registered := Register(h, s.conn, Client(named.userId, s.ip, s.region, named.color));
      var welcome := WelcomeReply(|registered.clients|, named);
      if o.welcomeSent then
        Outcome(Publish(registered, Announcement(Join, named, JoinWording)), named.(stage := Active), [welcome])
      else
        Outcome(registered, named.(stage := Closed), [welcome])
  }

  /** What the active stage makes of a trimmed input. */
  datatype Command =
    | Quit | ListOnline | ShowHelp | ChangeColor
    | CloseStatus | CloseSet(arg: string) | CloseIgnored
    | Say(text: string) | Nothing

  /** The active stage's dispatch: exact matches for `/exit`, `/quit`,
      `/online`, `/help` and `/color`; a prefix match for `/close`, whose
      whitespace-separated fields decide between the status query (one
      field), setting the time (two) and nothing (more); otherwise a chat
      message unless the input is empty. */
  function Classify(input: string): (cmd: Command)
    ensures cmd == Quit <==> input == "/exit" || input == "/quit"
    ensures cmd == ListOnline <==> input == "/online"
    ensures cmd == ShowHelp <==> input == "/help"
    ensures cmd == ChangeColor <==> input == "/color"
    ensures (cmd.CloseStatus? || cmd.CloseSet? || cmd.CloseIgnored?) <==> "/close" <= input
    ensures cmd.CloseStatus? ==> |Fields(input)| == 1
    ensures cmd.CloseSet? ==> |Fields(input)| == 2 && cmd.arg == Fields(input)[1]
    ensures cmd.CloseIgnored? ==> |Fields(input)| != 1 && |Fields(input)| != 2
    ensures cmd == Nothing <==> input == []
    ensures cmd.Say? ==> cmd.text == input
  {
    if input == "/exit" || input == "/quit" then Quit
    else if input == "/online" then
      assert "/online"[1] != "/close"[1];
      ListOnline
    else if input == "/help" then ShowHelp
    else if input == "/color" then
      assert "/color"[3] != "/close"[3];
      ChangeColor
    else if "/close" <= input then
      var parts := Fields(input);
      if |parts| == 1 then CloseStatus
      else if |parts| == 2 then CloseSet(parts[1])
      else CloseIgnored
    else if input != "" then Say(input)
    else Nothing
  }

  /** A plain chat message: the client's envelope with its type, content
      and every identity field overwritten by the session's own. */
  function Stamp(text: string, s: Session): Message
  {
    Message(Chat, text, s.userId, s.masked, s.region, s.color)
  }

  /** `order` lists every element of `keys` exactly once. */
  ghost predicate EachOnce(order: seq<Conn>, keys: set<Conn>) {
    && |order| == |keys|
    && (forall c :: c in order <==> c in keys)
    && (forall i, j :: 0 <= i < j < |order| ==> order[i] != order[j])
  }

  /** Every element of a finite set exactly once, in some fixed order: Go's
      map iteration order is unspecified, and so is this one. */
  ghost function Enumerate(keys: set<Conn>): (r: seq<Conn>)
    ensures EachOnce(r, keys)
    decreases |keys|
  {
    if keys == {} then []
    else
      var c :| c in keys;
      var rest := Enumerate(keys - {c});
      assert forall j :: 0 <= j < |rest| ==> rest[j] != c;
      [c] + rest
  }

  /** One line of the `/online` table: masked address padded to 15 code
      points, region padded to 28, then the user ID. */
  function OnlineRow(c: Client): string
  {
    PadRight(MaskIP(c.ip), 15) + " | " + PadRight(c.region, 28) + " | " + c.userId + "\n"
  }

  /** The column titles and the rule under them. */
  const OnlineColumns: string := "）===\nIP地址         | 城市                    | 用户ID\n----------------|-------------------------|------------------------\n"

  const OnlineLead: string := "=== 在线用户列表（"

  /** The `/online` header: the number of registered clients, then the
      column titles. */
  function OnlineHeader(n: nat): (t: string)
    ensures OnlineLead + NatToString(n) + "人" <= t
    ensures HasSuffix(t, OnlineColumns)
  {
    var t := OnlineLead + NatToString(n) + "人" + OnlineColumns;
    assert t[|t| - |OnlineColumns|..] == OnlineColumns;
    t
  }

  /** `rows` are the table rows of the clients `order` names, in that order. */
  ghost predicate RowsOf(rows: seq<string>, order: seq<Conn>, clients: map<Conn, Client>) {
    && |rows| == |order|
    && forall i :: 0 <= i < |order| ==> order[i] in clients && rows[i] == OnlineRow(clients[order[i]])
  }

  /** The table rows, one per registered client, in map iteration order:
      the rows of some listing of the registry that names every client
      exactly once. */
  ghost function OnlineRows(clients: map<Conn, Client>): (rows: seq<string>)
    ensures |rows| == |clients|
    ensures exists order :: EachOnce(order, clients.Keys) && RowsOf(rows, order, clients)
  {
    var order := Enumerate(clients.Keys);
    var rows := seq(|order|, i requires 0 <= i < |order| => OnlineRow(clients[order[i]]));
    assert RowsOf(rows, order, clients);
    rows
  }

  /** Every row of the `/online` table belongs to a registered client. */
  lemma OnlineRowsOnlyClients(clients: map<Conn, Client>, i: int)
    requires 0 <= i < |OnlineRows(clients)|
    ensures exists c :: c in clients && OnlineRows(clients)[i] == OnlineRow(clients[c])
  {
    var order :| EachOnce(order, clients.Keys) && RowsOf(OnlineRows(clients), order, clients);
    assert OnlineRows(clients)[i] == OnlineRow(clients[order[i]]);
  }

  /** The `/online` reply lists every registered client. */
  lemma OnlineListsEveryone(clients: map<Conn, Client>, c: Conn)
    requires c in clients
    ensures OnlineRow(clients[c]) in OnlineRows(clients)
  {
    var order := Enumerate(clients.Keys);
    var i :| 0 <= i < |order| && order[i] == c;
    assert OnlineRows(clients)[i] == OnlineRow(clients[c]);
  }

  /** The private `/online` reply: the header with the number of
      registered clients, then one row per client. */
  ghost function OnlineReply(h: HubState): (m: Message)
    ensures m.kind == Online && m.userId == []
    ensures OnlineHeader(|h.clients|) <= m.content
    ensures OnlineLead + NatToString(|h.clients|) + "人" <= m.content
    ensures m.content == OnlineHeader(|h.clients|) + Concat(OnlineRows(h.clients))
  {
    var header, lead := OnlineHeader(|h.clients|), OnlineLead + NatToString(|h.clients|) + "人";
    var content := header + Concat(OnlineRows(h.clients));
    PrefixOfAppend(header, Concat(OnlineRows(h.clients)));
    PrefixTransitive(lead, header, content);
    Notice(Online, content)
  }

  /** The `/online` reply tells how many clients were registered. */
  lemma OnlineShowsCount(h1: HubState, h2: HubState)
    requires OnlineReply(h1).content == OnlineReply(h2).content
    ensures |h1.clients| == |h2.clients|
  {
    ReadNumber(OnlineReply(h1).content, OnlineLead, |h1.clients|, |h2.clients|, '人', '人');
  }

  /** What one command of the active stage does. */
  ghost function Perform(h: HubState, s: Session, cmd: Command, o: Oracle): (r: Outcome)
    requires ValidDraws(o.draws)
    ensures r.hub.password == h.password && r.session.conn == s.conn
    ensures r.session.stage == if cmd == Quit then Closed else s.stage
    ensures cmd == Quit ==> s.conn !in r.hub.clients
    ensures cmd != Quit ==> r.hub.clients.Keys == h.clients.Keys
  {
    match cmd
    case Quit =>
      Outcome(Publish(Unregister(h, s.conn), Announcement(Leave, s, QuitWording)), s.(stage := Closed), [])
    case ListOnline => Outcome(h, s, [OnlineReply(h)])
    case ShowHelp => Outcome(h, s, [HelpReply])
    case ChangeColor =>
      var color := RandomColor(o.draws);
      Outcome(Recolor(h, s.conn, color), s.(color := color), [ColorReply])
    case CloseStatus => Outcome(h, s, [StatusNotice(h.plan, o.now)])
    case CloseSet(arg) =>
      (match ParseMinutesAsWritten(arg)
       case None => Outcome(h, s, [InvalidMinutes])
       case Some(minutes) => Outcome(ScheduleShutdown(h, minutes, o.now), s, []))
    case CloseIgnored => Outcome(h, s, [])
    case Say(text) => Outcome(Publish(h, Stamp(text, s)), s, [])
    case Nothing => Outcome(h, s, [])
  }

  /** The active stage: a read failure removes the client (if still
      registered) and broadcasts that it left abnormally. */
  ghost function ActiveStep(h: HubState, s: Session, f: Frame, o: Oracle): (r: Outcome)
    requires s.stage == Active && ValidDraws(o.draws)
    ensures r.hub.password == h.password && r.session.conn == s.conn
    ensures r.session.stage == Active || r.session.stage == Closed
    ensures r.session.stage == Closed ==> s.conn !in r.hub.clients && |r.hub.queue| == |h.queue| + 1
  {
    match f
    case Broken =>
      Outcome(Publish(Unregister(h, s.conn), Announcement(Leave, s, LostWording)), s.(stage := Closed), [])
    case Received(m) => Perform(h, s, Classify(TrimSpace(m.content)), o)
  }

  /** One inbound frame, whatever the stage; a closed session ignores it. */
  ghost function Step(h: HubState, s: Session, f: Frame, o: Oracle): (r: Outcome)
    requires ValidDraws(o.draws)
    ensures r.hub.password == h.password && r.session.conn == s.conn
    ensures Rank(s.stage) <= Rank(r.session.stage)
    ensures r.session.stage == Closed || Rank(r.session.stage) <= Rank(s.stage) + 1
    ensures s.stage == Closed ==> r == Outcome(h, s, [])
  {
    if s.stage == Closed then Outcome(h, s, []) else LiveStep(h, s, f, o)
  }

  /** One inbound frame while the handler's loop still runs. */
  ghost function LiveStep(h: HubState, s: Session, f: Frame, o: Oracle): (r: Outcome)
    requires s.stage != Closed && ValidDraws(o.draws)
    ensures r.hub.password == h.password && r.session.conn == s.conn
    ensures Rank(s.stage) <= Rank(r.session.stage)
    ensures r.session.stage == Closed || Rank(r.session.stage) <= Rank(s.stage) + 1
  {
    match s.stage
    case AwaitingPassword => PasswordStep(h, s, f)
    case AwaitingIdentity => IdentityStep(h, s, f, o)
    case Active => ActiveStep(h, s, f, o)
  }

  /** A frame together with what the environment decided while handling it. */
  datatype Event = Event(frame: Frame, oracle: Oracle)

  predicate ValidEvents(events: seq<Event>) {
    forall k :: 0 <= k < |events| ==> ValidDraws(events[k].oracle.draws)
  }

  /** The session run over a sequence of frames; replies accumulate. */
  ghost function Run(h: HubState, s: Session, events: seq<Event>): (r: Outcome)
    requires ValidEvents(events)
    ensures r.hub.password == h.password && r.session.conn == s.conn
    ensures Rank(s.stage) <= Rank(r.session.stage)
    decreases |events|
  {
    if events == [] then Outcome(h, s, [])
    else
      var first := Step(h, s, events[0].frame, events[0].oracle);
      var rest := Run(first.hub, first.session, events[1..]);
      Outcome(rest.hub, rest.session, first.replies + rest.replies)
  }
}
