/** `ChatServer` as the object the Go code updates in place: the registry
    map, the broadcast queue and the shutdown fields are fields, and each
    method's new state is the `Hub` operation applied to the old one. */
module Server {
  import opened Envelope
  import opened Shutdown
  import opened Hub

  class ChatServer {
    var clients: map<Conn, Client>
    var queue: seq<Message>
    const password: string
    var shutdownTime: int
    var shutdownStart: int
    var timers: seq<Timer>

    /** The server's fields as a `HubState` value. */
    function State(): (h: HubState)
      reads this
      ensures h.clients == clients && h.queue == queue && h.password == password
    {
      HubState(clients, queue, password, Plan(shutdownTime, shutdownStart, timers))
    }

    /** `NewChatServer(fixedPassword)` with `main`'s timer initialisation. */
    constructor (fixedPassword: string)
      ensures State() == Init(fixedPassword)
    {
      clients := map[];
      queue := [];
      password := fixedPassword;
      shutdownTime := 0;
      shutdownStart := 0;
      timers := [];
    }

    /** Registers a client and returns `len(s.clients)` read under the same lock. */
    method Register(c: Conn, client: Client) returns (online: nat)
      modifies this
      ensures State() == Hub.Register(old(State()), c, client)
      ensures online == |clients| && online >= 1
    {
      clients := clients[c := client];
      online := |clients|;
    }

    /** `delete(s.clients, conn)`, returning the new count. */
    method Unregister(c: Conn) returns (online: nat)
      modifies this
      ensures State() == Hub.Unregister(old(State()), c)
      ensures online == |clients|
    {
      clients := clients - {c};
      online := |clients|;
    }

    /** `len(s.clients)`. */
    method Count() returns (n: nat)
      ensures n == |clients|
      ensures n == 0 <==> clients == map[]
    {
      n := |clients|;
      if n == 0 {
        assert clients == map[];
      } else {
        var c :| c in clients;
      }
    }

    /** `s.broadcast <- msg`. */
    method Publish(m: Message)
      modifies this
      ensures State() == Hub.Publish(old(State()), m)
    {
      queue := queue + [m];
    }

    /** `client.Color = newColor`. */
    method Recolor(c: Conn, color: string)
      modifies this
      ensures State() == Hub.Recolor(old(State()), c, color)
    {
      if c in clients {
        clients := clients[c := clients[c].(color := color)];
      }
    }

    /** The snapshot `Broadcaster` takes under the read lock: every
        registered connection exactly once, in the map's (unspecified)
        iteration order. */
    method Snapshot() returns (conns: seq<Conn>)
      ensures forall c :: c in conns <==> c in clients
      ensures forall i, j :: 0 <= i < j < |conns| ==> conns[i] != conns[j]
      ensures |conns| == |clients|
    {
      conns := [];
      var rest := clients.Keys;
      while rest != {}
        invariant rest <= clients.Keys
        invariant forall c :: c in conns <==> c in clients && c !in rest
        invariant forall i, j :: 0 <= i < j < |conns| ==> conns[i] != conns[j]
        invariant |conns| + |rest| == |clients|
        decreases |rest|
      {
        var c :| c in rest;
        conns := conns + [c];
        rest := rest - {c};
      }
    }

    /** One iteration of `Broadcaster`'s outer loop: take the head of the
        queue, snapshot the registry, write to each connection and delete
        those whose write fails. Returns the connections that received it. */
    method BroadcastNext(failing: set<Conn>) returns (delivered: set<Conn>)
      requires queue != []
      modifies this
      ensures (State(), delivered) == Deliver(old(State()), failing)
    {
      queue := queue[1..];
      var conns := Snapshot();
      ghost var before := clients;
      delivered := {};
      var i := 0;
      while i < |conns|
        invariant 0 <= i <= |conns|
        invariant forall c :: c in clients <==> c in before && !(c in failing && c in conns[..i])
        invariant forall c :: c in clients ==> clients[c] == before[c]
        invariant delivered == set c | c in conns[..i] && c !in failing
        invariant queue == old(queue)[1..] && timers == old(timers)
        invariant shutdownTime == old(shutdownTime) && shutdownStart == old(shutdownStart)
      {
        var c := conns[i];
        assert conns[..i + 1] == conns[..i] + [c];
        if c in failing {
          clients := clients - {c};
        } else {
          delivered := delivered + {c};
        }
        i := i + 1;
      }
      assert conns[..i] == conns;
      assert delivered == before.Keys - failing;
      assert clients == map c | c in before.Keys - failing :: before[c];
    }

    /** `Broadcaster`: keeps delivering queued envelopes, the k-th with
        `outcomes[k]` as its failing writes, until either runs out. */
    method Broadcaster(outcomes: seq<set<Conn>>) returns (log: seq<Delivery>)
      modifies this
      ensures (State(), log) == Drain(old(State()), outcomes)
    {
      log := [];
      var k := 0;
      ghost var start := State();
      assert outcomes[k..] == outcomes;
      assert log + Drain(start, outcomes).1 == Drain(start, outcomes).1;
      while k < |outcomes| && queue != []
        invariant 0 <= k <= |outcomes|
        invariant Drain(start, outcomes).0 == Drain(State(), outcomes[k..]).0
        invariant Drain(start, outcomes).1 == log + Drain(State(), outcomes[k..]).1
        decreases |outcomes| - k
      {
        ghost var h := State();
        var msg := queue[0];
        var delivered := BroadcastNext(outcomes[k]);
        ghost var rest := Drain(State(), outcomes[k + 1..]);
        assert outcomes[k..][0] == outcomes[k] && outcomes[k..][1..] == outcomes[k + 1..];
        assert Drain(h, outcomes[k..]) == (rest.0, [Delivery(msg, delivered)] + rest.1);
        assert log + ([Delivery(msg, delivered)] + rest.1) == (log + [Delivery(msg, delivered)]) + rest.1;
        log := log + [Delivery(msg, delivered)];
        k := k + 1;
      }
      assert Drain(State(), outcomes[k..]) == (State(), []);
      assert log + [] == log;
    }

    /** `/close <minutes>` accepted: stop and drop every timer, record the
        count and the start time, broadcast the notice, then arm the
        reminder (if any) and the power-off, in the Go code's order. */
    method ScheduleShutdown(minutes: int, now: int)
      requires minutes > 0
      modifies this
      ensures State() == Hub.ScheduleShutdown(old(State()), minutes, now)
    {
      timers := [];
      shutdownTime := minutes;
      shutdownStart := now;
      Publish(ScheduledNotice(minutes));
      if minutes > 5 {
        timers := timers + [Timer(minutes - 5, FiveMinuteWarning)];
      } else if minutes > 1 {
        timers := timers + [Timer(minutes - 1, OneMinuteWarning)];
      }
      timers := timers + [Timer(minutes, PowerOff)];
    }

    /** The reply to a bare `/close`. */
    method ShutdownStatus(now: int) returns (reply: Message)
      ensures reply.kind == System
      ensures shutdownTime <= 0 ==> reply.content == "【系统通知】服务器未设置关闭时间"
      ensures shutdownTime > 0 ==> reply == ScheduledNotice(Remaining(State().plan, now).value)
    {
      if shutdownTime > 0 {
        var left := shutdownTime - ElapsedMinutes(shutdownStart, now);
        if left < 0 {
          left := 0;
        }
        reply := ScheduledNotice(left);
      } else {
        reply := Notice(System, "【系统通知】服务器未设置关闭时间");
      }
    }

    /** A timer going off; returns the connections closed by the power-off. */
    method Fire(t: Timer) returns (closed: set<Conn>)
      requires t in timers
      modifies this
      ensures (State(), closed) == Hub.Fire(old(State()), t)
    {
      Publish(AlarmNotice(t.alarm));
      closed := {};
      if t.alarm == FiveMinuteWarning {
        timers := timers + [Timer(t.at + 4, OneMinuteWarning)];
      } else {
        assert Followers(t) == [];
        assert timers == timers + Followers(t);
        if t.alarm == PowerOff {
          closed := clients.Keys;
        }
      }
    }
  }
}
