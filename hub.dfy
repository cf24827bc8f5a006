/** The state the chat server shares between connections, as a value: the
    client registry, the broadcast channel as a FIFO queue of envelopes,
    the fixed password and the shutdown plan. Each operation here is the
    specification of a method of `Server.ChatServer`, and the session
    transitions in `Session` are written with them. */
module Hub {
  import opened Envelope
  import opened Shutdown

  /** The fields of `ChatServer` (the mutex left out). */
  datatype HubState = HubState(clients: map<Conn, Client>, queue: seq<Message>, password: string, plan: Plan)

  /** `NewChatServer` followed by the timer initialisation in `main`. */
  function Init(password: string): (h: HubState)
    ensures h.clients == map[] && h.queue == [] && h.password == password
    ensures h.plan.minutes == 0 && h.plan.timers == []
  {
    HubState(map[], [], password, Unset)
  }

  /** `s.clients[conn] = client`. */
  function Register(h: HubState, c: Conn, client: Client): (r: HubState)
    ensures c in r.clients && r.clients[c] == client
    ensures |r.clients| == if c in h.clients then |h.clients| else |h.clients| + 1
    ensures forall d :: d != c ==> (d in r.clients <==> d in h.clients)
    ensures forall d :: d != c && d in h.clients ==> r.clients[d] == h.clients[d]
    ensures r.queue == h.queue && r.password == h.password && r.plan == h.plan
  {
    h.(clients := h.clients[c := client])
  }

  /** `delete(s.clients, conn)`: a no-op for a connection that is not registered. */
  function Unregister(h: HubState, c: Conn): (r: HubState)
    ensures c !in r.clients
    ensures |r.clients| == if c in h.clients then |h.clients| - 1 else |h.clients|
    ensures forall d :: d != c ==> (d in r.clients <==> d in h.clients)
    ensures forall d :: d in r.clients ==> r.clients[d] == h.clients[d]
    ensures r.queue == h.queue && r.password == h.password && r.plan == h.plan
  {
    h.(clients := h.clients - {c})
  }

  /** Deleting twice is deleting once, and deleting an absent connection
      changes nothing. */
  lemma UnregisterIdempotent(h: HubState, c: Conn)
    ensures Unregister(Unregister(h, c), c) == Unregister(h, c)
    ensures c !in h.clients ==> Unregister(h, c) == h
  {
    RemoveTwice(h.clients, c);
    if c !in h.clients {
      RemoveAbsent(h.clients, c);
    }
  }

  /** Removing a key twice from a map is removing it once. */
  lemma RemoveTwice(m: map<Conn, Client>, c: Conn)
    ensures (m - {c}) - {c} == m - {c}
  {
  }

  /** Removing an absent key leaves a map as it is. */
  lemma RemoveAbsent(m: map<Conn, Client>, c: Conn)
    requires c !in m
    ensures m - {c} == m
  {
  }

  /** Registering a fresh connection and then removing it restores the registry. */
  lemma RegisterUnregister(h: HubState, c: Conn, client: Client)
    requires c !in h.clients
    ensures Unregister(Register(h, c, client), c) == h
  {
    assert h.clients[c := client] - {c} == h.clients;
  }

  /** `s.broadcast <- msg`: the envelope joins the back of the queue. */
  function Publish(h: HubState, m: Message): (r: HubState)
    ensures |r.queue| == |h.queue| + 1 && r.queue[..|h.queue|] == h.queue && r.queue[|h.queue|] == m
    ensures r.clients == h.clients && r.password == h.password && r.plan == h.plan
  {
    h.(queue := h.queue + [m])
  }

  /** `client.Color = newColor` through the `*Client` the registry shares:
      the entry changes only while the connection is still registered. */
  function Recolor(h: HubState, c: Conn, color: string): (r: HubState)
    ensures r.clients.Keys == h.clients.Keys
    ensures c in h.clients ==> r.clients[c] == h.clients[c].(color := color)
    ensures forall d :: d != c && d in h.clients ==> r.clients[d] == h.clients[d]
    ensures r.queue == h.queue && r.password == h.password && r.plan == h.plan
  {
    if c in h.clients then h.(clients := h.clients[c := h.clients[c].(color := color)]) else h
  }

  /** One pass of `Broadcaster` for the envelope at the head of the queue:
      every connection of the snapshot is written to; those in `failing`
      (the writes that returned an error) are deleted, the rest received
      the envelope. */
  function Deliver(h: HubState, failing: set<Conn>): (r: (HubState, set<Conn>))
    requires h.queue != []
    ensures r.1 == h.clients.Keys - failing
    ensures forall c :: c in r.0.clients <==> c in h.clients && c !in failing
    ensures forall c :: c in r.0.clients ==> r.0.clients[c] == h.clients[c]
    ensures r.0.queue == h.queue[1..] && r.0.password == h.password && r.0.plan == h.plan
  {
    var keep := h.clients.Keys - failing;
    (h.(clients := map c | c in keep :: h.clients[c], queue := h.queue[1..]), keep)
  }

  /** One envelope as `Broadcaster` delivered it, with its recipients. */
  datatype Delivery = Delivery(msg: Message, recipients: set<Conn>)

  /** `Broadcaster` run for as long as there are envelopes queued and
      delivery outcomes to use: the k-th pass uses `outcomes[k]` as its set
      of failing writes. */
  function Drain(h: HubState, outcomes: seq<set<Conn>>): (r: (HubState, seq<Delivery>))
    ensures |r.1| <= |outcomes| && |r.1| <= |h.queue|
    ensures r.0.queue == h.queue[|r.1|..]
    ensures r.0.clients.Keys <= h.clients.Keys
    ensures r.0.password == h.password && r.0.plan == h.plan
    decreases |outcomes|
  {
    if outcomes == [] || h.queue == [] then (h, [])
    else
      var (next, recipients) := Deliver(h, outcomes[0]);
      var (last, log) := Drain(next, outcomes[1..]);
      (last, [Delivery(h.queue[0], recipients)] + log)
  }

  /** The broadcast channel is first in, first out: the k-th delivery
      carries the k-th queued envelope, as many envelopes as there were
      passes are consumed and the rest stay queued in order, every recipient
      is registered before and after, and the registry only shrinks. */
  lemma {:induction false} DrainFifo(h: HubState, outcomes: seq<set<Conn>>)
    ensures var (last, log) := Drain(h, outcomes);
      && |log| == (if |outcomes| < |h.queue| then |outcomes| else |h.queue|)
      && (forall k :: 0 <= k < |log| ==> log[k].msg == h.queue[k])
      && last.queue == h.queue[|log|..]
      && (forall k :: 0 <= k < |log| ==> log[k].recipients * outcomes[k] == {})
      && (forall k, c :: 0 <= k < |log| && c in log[k].recipients ==> c in h.clients)
      && (forall c :: c in last.clients ==> c in h.clients && last.clients[c] == h.clients[c])
      && last.password == h.password && last.plan == h.plan
    decreases |outcomes|
  {
    if outcomes != [] && h.queue != [] {
      var (next, recipients) := Deliver(h, outcomes[0]);
      DrainFifo(next, outcomes[1..]);
      var (last, log) := Drain(next, outcomes[1..]);
      assert Drain(h, outcomes) == (last, [Delivery(h.queue[0], recipients)] + log);
      assert next.queue == h.queue[1..];
      forall k | 1 <= k < 1 + |log|
        ensures ([Delivery(h.queue[0], recipients)] + log)[k].msg == h.queue[k]
      {
        assert log[k - 1].msg == next.queue[k - 1];
      }
    }
  }

  /** A connection whose writes never fail stays registered and receives
      every envelope that is delivered. */
  lemma {:induction false} DrainReachesHealthy(h: HubState, outcomes: seq<set<Conn>>, c: Conn)
    requires c in h.clients
    requires forall k :: 0 <= k < |outcomes| ==> c !in outcomes[k]
    ensures var (last, log) := Drain(h, outcomes);
      c in last.clients && forall k :: 0 <= k < |log| ==> c in log[k].recipients
    decreases |outcomes|
  {
    if outcomes != [] && h.queue != [] {
      var (next, recipients) := Deliver(h, outcomes[0]);
      DrainReachesHealthy(next, outcomes[1..], c);
    }
  }

  /** `/close <minutes>` accepted: the plan is replaced and the notice is
      broadcast. */
  function ScheduleShutdown(h: HubState, minutes: int, now: int): (r: HubState)
    requires minutes > 0
    ensures r.plan == Schedule(minutes, now)
    ensures r.queue == h.queue + [ScheduledNotice(minutes)]
    ensures r.clients == h.clients && r.password == h.password
  {
    Publish(h.(plan := Schedule(minutes, now)), ScheduledNotice(minutes))
  }

  /** After scheduling, the alarms that will go off are exactly those of
      the new count: earlier timers are gone. */
  lemma ScheduledAlarms(h: HubState, minutes: int, now: int)
    requires minutes > 0
    ensures var fired := Expand(ScheduleShutdown(h, minutes, now).plan.timers);
      && (Timer(minutes - 5, FiveMinuteWarning) in fired <==> minutes > 5)
      && (Timer(minutes - 1, OneMinuteWarning) in fired <==> minutes > 1)
      && fired[|fired| - 1] == Timer(minutes, PowerOff)
      && (forall t :: t in fired ==> 0 < t.at <= minutes)
  {
    assert ScheduleShutdown(h, minutes, now).plan.timers == Arm(minutes);
    ArmedAlarms(minutes);
  }

  /** A timer going off: its notice is broadcast; the five-minute reminder
      appends the one-minute timer it arms; the power-off also closes every
      registered connection (returned) before the process exits. */
  function Fire(h: HubState, t: Timer): (r: (HubState, set<Conn>))
    requires t in h.plan.timers
    ensures r.0.queue == h.queue + [AlarmNotice(t.alarm)]
    ensures r.0.plan.timers == h.plan.timers + Followers(t)
    ensures r.0.plan.minutes == h.plan.minutes && r.0.plan.start == h.plan.start
    ensures r.0.clients == h.clients
    ensures r.1 == if t.alarm == PowerOff then h.clients.Keys else {}
  {
    var published := Publish(h, AlarmNotice(t.alarm));
    (published.(plan := published.plan.(timers := h.plan.timers + Followers(t))),
     if t.alarm == PowerOff then h.clients.Keys else {})
  }

  /** The timers `ts` can go off one after the other from `h`: each is
      armed in the plan when its turn comes. */
  predicate Fireable(h: HubState, ts: seq<Timer>)
    decreases |ts|
  {
    ts == [] || (ts[0] in h.plan.timers && Fireable(Fire(h, ts[0]).0, ts[1..]))
  }

  /** When every armed timer lies in `alarms` and `alarms` holds every
      timer its members arm, whatever goes off lies in `alarms`. */
  lemma {:induction false} FiredWithin(h: HubState, ts: seq<Timer>, alarms: seq<Timer>)
    requires forall t :: t in h.plan.timers ==> t in alarms
    requires forall t :: t in alarms ==> forall u :: u in Followers(t) ==> u in alarms
    requires Fireable(h, ts)
    ensures forall t :: t in ts ==> t in alarms
    decreases |ts|
  {
    if ts != [] {
      var next := Fire(h, ts[0]).0;
      assert ts[0] in alarms;
      FiredWithin(next, ts[1..], alarms);
      forall t | t in ts
        ensures t in alarms
      {
        if t != ts[0] {
          assert t in ts[1..];
        }
      }
    }
  }

  /** After `/close <minutes>`, whatever timers go off, in whatever order,
      are among the alarms of that count: no reminder or power-off of a
      replaced plan goes off any more. */
  lemma OnlyScheduledAlarmsFire(h: HubState, minutes: int, now: int, ts: seq<Timer>)
    requires minutes > 0
    requires Fireable(ScheduleShutdown(h, minutes, now), ts)
    ensures forall t :: t in ts ==> t in Expand(Arm(minutes))
  {
    var alarms := Expand(Arm(minutes));
    ArmedAlarms(minutes);
    assert ScheduleShutdown(h, minutes, now).plan.timers == Arm(minutes);
    forall t | t in alarms
      ensures forall u :: u in Followers(t) ==> u in alarms
    {
      if t.alarm == FiveMinuteWarning {
        assert Followers(t) == [Timer(minutes - 1, OneMinuteWarning)];
      }
    }
    FiredWithin(ScheduleShutdown(h, minutes, now), ts, alarms);
  }
}
