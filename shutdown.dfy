/** The `/close` shutdown plan: validating the argument, the timers armed
    for it, what each timer announces when it goes off, and the remaining
    time reported to a client. Time is counted in whole seconds of a clock
    passed in by the caller; timer offsets are minutes after scheduling. */
module Shutdown {
  import opened Text
  import opened Envelope

  /** The three kinds of timer `/close` arms. */
  datatype Alarm = FiveMinuteWarning | OneMinuteWarning | PowerOff

  /** An armed timer: it goes off `at` minutes after the shutdown was set. */
  datatype Timer = Timer(at: int, alarm: Alarm)

  /** The server's `shutdownTime` (0 while unset), `shutdownStartTime` (in
      seconds) and `shutdownTimers` fields. */
  datatype Plan = Plan(minutes: int, start: int, timers: seq<Timer>)

  /** The plan a fresh server starts with. */
  const Unset: Plan := Plan(0, 0, [])

  /** The timers armed when `/close <minutes>` is accepted: a reminder five
      minutes before the end when there is room for it, otherwise a reminder
      one minute before when there is room for that, then the power-off. */
  function Arm(minutes: int): (timers: seq<Timer>)
    requires minutes > 0
    ensures |timers| == if minutes > 1 then 2 else 1
    ensures timers[|timers| - 1] == Timer(minutes, PowerOff)
    ensures forall t :: t in timers ==> 0 < t.at <= minutes
    ensures forall t :: t in timers ==> (t.alarm == PowerOff <==> t.at == minutes)
  {
    (if minutes > 5 then [Timer(minutes - 5, FiveMinuteWarning)]
     else if minutes > 1 then [Timer(minutes - 1, OneMinuteWarning)]
     else [])
    + [Timer(minutes, PowerOff)]
  }

  /** The timers a timer arms when it goes off: the five-minute reminder
      arms the one-minute reminder four minutes later. */
  function Followers(t: Timer): (next: seq<Timer>)
    ensures next != [] <==> t.alarm == FiveMinuteWarning
    ensures forall u :: u in next ==> u == Timer(t.at + 4, OneMinuteWarning)
  {
    if t.alarm == FiveMinuteWarning then [Timer(t.at + 4, OneMinuteWarning)] else []
  }

  /** Every alarm that goes off for a list of armed timers, each followed by
      the timers it arms in turn. */
  function Expand(timers: seq<Timer>): (fired: seq<Timer>)
    ensures forall t :: t in timers ==> t in fired
    ensures forall u :: u in fired ==>
      u in timers || (u.alarm == OneMinuteWarning && Timer(u.at - 4, FiveMinuteWarning) in timers)
  {
    if timers == [] then []
    else
      var t := timers[0];
      assert forall u :: u in Followers(t) ==> Timer(u.at - 4, FiveMinuteWarning) == t;
      assert forall u :: u in timers[1..] ==> u in timers;
      [t] + Followers(t) + Expand(timers[1..])
  }

  /** The alarms of an accepted `/close <minutes>`, in the order they go
      off: the five-minute reminder at `minutes - 5` exactly when
      `minutes > 5`, the one-minute reminder at `minutes - 1` exactly when
      `minutes > 1` (armed by the five-minute one when there is one), and
      the power-off at `minutes`, always and last. */
  lemma {:induction false} ArmedAlarms(minutes: int)
    requires minutes > 0
    ensures var fired := Expand(Arm(minutes));
      && (Timer(minutes - 5, FiveMinuteWarning) in fired <==> minutes > 5)
      && (Timer(minutes - 1, OneMinuteWarning) in fired <==> minutes > 1)
      && fired[|fired| - 1] == Timer(minutes, PowerOff)
      && (forall t :: t in fired ==> 0 < t.at <= minutes)
      && (forall i, j :: 0 <= i < j < |fired| ==> fired[i].at < fired[j].at)
      && (forall t :: t in fired && t.alarm == FiveMinuteWarning ==> t.at == minutes - 5)
      && (forall t :: t in fired && t.alarm == OneMinuteWarning ==> t.at == minutes - 1)
      && (forall t :: t in fired && t.alarm == PowerOff ==> t.at == minutes)
  {
    AlarmsPresent(minutes);
    AlarmsTimed(minutes);
  }

  /** Which alarms of `/close <minutes>` go off, and that the power-off is last. */
  lemma AlarmsPresent(minutes: int)
    requires minutes > 0
    ensures var fired := Expand(Arm(minutes));
      && (Timer(minutes - 5, FiveMinuteWarning) in fired <==> minutes > 5)
      && (Timer(minutes - 1, OneMinuteWarning) in fired <==> minutes > 1)
      && fired[|fired| - 1] == Timer(minutes, PowerOff)
  {
    ExpandArm(minutes);
  }

  /** When the alarms of `/close <minutes>` go off. */
  lemma AlarmsTimed(minutes: int)
    requires minutes > 0
    ensures var fired := Expand(Arm(minutes));
      && (forall t :: t in fired ==> 0 < t.at <= minutes)
      && (forall i, j :: 0 <= i < j < |fired| ==> fired[i].at < fired[j].at)
      && (forall t :: t in fired && t.alarm == FiveMinuteWarning ==> t.at == minutes - 5)
      && (forall t :: t in fired && t.alarm == OneMinuteWarning ==> t.at == minutes - 1)
      && (forall t :: t in fired && t.alarm == PowerOff ==> t.at == minutes)
  {
    ExpandArm(minutes);
    var last := Timer(minutes, PowerOff);
    if minutes > 5 {
      TimedInOrder([Timer(minutes - 5, FiveMinuteWarning), Timer(minutes - 1, OneMinuteWarning), last], minutes);
    } else if minutes > 1 {
      TimedInOrder([Timer(minutes - 1, OneMinuteWarning), last], minutes);
    } else {
      TimedInOrder([last], minutes);
    }
  }

  /** A list of alarms whose offsets strictly ascend and end at `minutes`,
      with each reminder at its own distance from the end. */
  lemma TimedInOrder(fired: seq<Timer>, minutes: int)
    requires minutes > 0
    requires fired == [Timer(minutes, PowerOff)]
      || (minutes > 1 && fired == [Timer(minutes - 1, OneMinuteWarning), Timer(minutes, PowerOff)])
      || (minutes > 5 && fired == [Timer(minutes - 5, FiveMinuteWarning), Timer(minutes - 1, OneMinuteWarning), Timer(minutes, PowerOff)])
    ensures forall t :: t in fired ==> 0 < t.at <= minutes
    ensures forall i, j :: 0 <= i < j < |fired| ==> fired[i].at < fired[j].at
    ensures forall t :: t in fired && t.alarm == FiveMinuteWarning ==> t.at == minutes - 5
    ensures forall t :: t in fired && t.alarm == OneMinuteWarning ==> t.at == minutes - 1
    ensures forall t :: t in fired && t.alarm == PowerOff ==> t.at == minutes
  {
  }

  /** The alarms of `/close <minutes>` listed out, in the order they go off. */
  lemma ExpandArm(minutes: int)
    requires minutes > 0
    ensures Expand(Arm(minutes)) ==
      (if minutes > 5 then [Timer(minutes - 5, FiveMinuteWarning), Timer(minutes - 1, OneMinuteWarning)]
       else if minutes > 1 then [Timer(minutes - 1, OneMinuteWarning)]
       else [])
      + [Timer(minutes, PowerOff)]
  {
    var last := Timer(minutes, PowerOff);
    assert Expand([last]) == [last];
    if minutes > 5 {
      var five := Timer(minutes - 5, FiveMinuteWarning);
      assert Arm(minutes) == [five, last];
      assert Expand([five, last]) == [five] + Followers(five) + Expand([last]);
    } else if minutes > 1 {
      var one := Timer(minutes - 1, OneMinuteWarning);
      assert Arm(minutes) == [one, last];
      assert Expand([one, last]) == [one] + Expand([last]);
    } else {
      assert Arm(minutes) == [last];
    }
  }

  /** The system notice an alarm broadcasts when it goes off. */
  function AlarmNotice(a: Alarm): (m: Message)
    ensures m.kind == System && m.userId == []
  {
    match a
    case FiveMinuteWarning => Notice(System, "【系统通知】服务器将在5分钟后关闭，请做好准备！")
    case OneMinuteWarning => Notice(System, "【系统通知】服务器将在1分钟后关闭，请做好准备！")
    case PowerOff => Notice(System, "【系统通知】服务器已关闭，感谢使用！")
  }

  /** Nanoseconds in a minute (`time.Minute`). */
  const NanosPerMinute: int := 60_000_000_000

  /** The largest minute count whose `time.Duration` fits in 64 bits. */
  const MaxMinutes: int := MaxInt64 / NanosPerMinute

  /** Two's-complement wrap-around of a product into a signed 64-bit value,
      as Go's `time.Duration` arithmetic does. */
  function Wrap64(x: int): (r: int)
    ensures MinInt64 <= r <= MaxInt64
    ensures (x - r) % 0x1_0000_0000_0000_0000 == 0
    ensures MinInt64 <= x <= MaxInt64 ==> r == x
  {
    var m := x % 0x1_0000_0000_0000_0000;
    assert x - m == (x / 0x1_0000_0000_0000_0000) * 0x1_0000_0000_0000_0000;
    if m > MaxInt64 then
      assert x - (m - 0x1_0000_0000_0000_0000) == (x / 0x1_0000_0000_0000_0000 + 1) * 0x1_0000_0000_0000_0000;
      m - 0x1_0000_0000_0000_0000
    else m
  }

  /** `time.Duration(minutes) * time.Minute`: the delay handed to
      `time.AfterFunc`, which fires at once when it is not positive. */
  function Delay(minutes: int): (d: int)
    ensures MinInt64 <= d <= MaxInt64
    ensures 0 < minutes <= MaxMinutes ==> d == minutes * NanosPerMinute > 0
  {
    Wrap64(minutes * NanosPerMinute)
  }

  /** The `/close` argument check as written: `strconv.Atoi` succeeds and
      the value is positive. */
  function ParseMinutesAsWritten(arg: string): (r: Option<int>)
    ensures r.Some? ==> 0 < r.value <= MaxInt64
    ensures r.Some? <==> Atoi(arg).Some? && Atoi(arg).value > 0
  {
    match Atoi(arg)
    case None => None
    case Some(m) => if m > 0 then Some(m) else None
  }

  /** As written, `/close 153722868` is accepted, but its power-off delay
      wraps to a negative duration: the server announces a shutdown in
      153722868 minutes and powers off at once. */
  lemma PowerOffOverflow()
    ensures MaxMinutes == 153722867
    ensures ParseMinutesAsWritten(NatToString(MaxMinutes + 1)) == Some(MaxMinutes + 1)
    ensures Delay(Arm(MaxMinutes + 1)[1].at) < 0
    ensures Arm(MaxMinutes + 1)[1].alarm == PowerOff
  {
    AtoiNatToString(MaxMinutes + 1);
  }

  /** The `/close` argument check this model uses: as written, but also
      refusing a minute count whose delay would not fit in a duration. */
  function ParseMinutes(arg: string): (r: Option<int>)
    ensures r.Some? ==> 0 < r.value <= MaxMinutes
    ensures r.Some? <==> ParseMinutesAsWritten(arg).Some? && ParseMinutesAsWritten(arg).value <= MaxMinutes
    ensures r.Some? ==> r == ParseMinutesAsWritten(arg)
  {
    match ParseMinutesAsWritten(arg)
    case None => None
    case Some(m) => if m <= MaxMinutes then Some(m) else None
  }

  /** With the corrected check, every accepted count arms timers whose
      delays are exactly their offsets in nanoseconds and positive, so no
      alarm goes off before its announced time. */
  lemma DelaysExact(arg: string)
    requires ParseMinutes(arg).Some?
    ensures var minutes := ParseMinutes(arg).value;
      forall t :: t in Arm(minutes) ==> Delay(t.at) == t.at * NanosPerMinute > 0
  {
    var minutes := ParseMinutes(arg).value;
    forall t | t in Arm(minutes)
      ensures Delay(t.at) == t.at * NanosPerMinute > 0
    {
      assert 0 < t.at <= MaxMinutes;
      assert t.at * NanosPerMinute <= MaxMinutes * NanosPerMinute <= MaxInt64;
    }
  }

  /** Every count from 1 to `MaxMinutes`, written in decimal, is accepted
      by the corrected check. */
  lemma ParseMinutesSmall(n: nat)
    requires 0 < n <= MaxMinutes
    ensures ParseMinutes(NatToString(n)) == Some(n)
  {
    AtoiNatToString(n);
  }

  /** A new plan for an accepted count: every earlier timer is dropped. */
  function Schedule(minutes: int, now: int): (p: Plan)
    requires minutes > 0
    ensures p.minutes == minutes && p.start == now
    ensures forall t :: t in p.timers ==> 0 < t.at <= minutes
  {
    Plan(minutes, now, Arm(minutes))
  }

  const ScheduledLead: string := "【系统通知】服务器将在 "

  /** The notice broadcast when a shutdown is set (and the status reply
      while one runs): the minutes in decimal. */
  function ScheduledNotice(minutes: nat): (m: Message)
    ensures m.kind == System && m.userId == []
    ensures ScheduledLead + NatToString(minutes) + " " <= m.content
    ensures HasSuffix(m.content, " 分钟后关闭")
  {
    var m := Notice(System, ScheduledLead + NatToString(minutes) + " 分钟后关闭");
    assert m.content[|m.content| - |" 分钟后关闭"|..] == " 分钟后关闭";
    m
  }

  /** The notice tells the minutes it was built with. */
  lemma ScheduledNoticeShowsMinutes(a: nat, b: nat)
    requires ScheduledNotice(a).content == ScheduledNotice(b).content
    ensures a == b
  {
    ReadNumber(ScheduledNotice(a).content, ScheduledLead, a, b, ' ', ' ');
  }

  /** `int(time.Since(start).Minutes())`: the whole minutes between `start`
      and `now` (both in seconds), truncated toward zero. */
  function ElapsedMinutes(start: int, now: int): (e: int)
    ensures start <= now ==> 0 <= e && e * 60 <= now - start < (e + 1) * 60
  {
    var d := now - start;
    if d >= 0 then d / 60 else -((-d) / 60)
  }

  /** The remaining minutes of the `/close` status reply: none while no
      shutdown is set, otherwise the set minutes less the elapsed ones,
      floored at zero. */
  function Remaining(p: Plan, now: int): (r: Option<nat>)
    ensures r.None? <==> p.minutes <= 0
    ensures r.Some? && r.value > 0 ==> r.value == p.minutes - ElapsedMinutes(p.start, now)
    ensures r.Some? && r.value == 0 ==> ElapsedMinutes(p.start, now) >= p.minutes
  {
    if p.minutes <= 0 then None
    else
      var left := p.minutes - ElapsedMinutes(p.start, now);
      Some(if left < 0 then 0 else left)
  }

  /** The private reply to a bare `/close`. */
  function StatusNotice(p: Plan, now: int): (m: Message)
    ensures m.kind == System
  {
    match Remaining(p, now)
    case None => Notice(System, "【系统通知】服务器未设置关闭时间")
    case Some(left) => ScheduledNotice(left)
  }

  /** The status reply says "not set" while no shutdown is set, and the
      remaining minutes otherwise. */
  lemma StatusNoticeText(p: Plan, now: int)
    ensures p.minutes <= 0 ==> StatusNotice(p, now).content == "【系统通知】服务器未设置关闭时间"
    ensures p.minutes > 0 ==> StatusNotice(p, now) == ScheduledNotice(Remaining(p, now).value)
  {
  }

  /** Right after scheduling, the status reports the full count; from the
      set minute on, it reports zero. */
  lemma RemainingAfterSchedule(minutes: int, now: int, later: int)
    requires minutes > 0 && now <= later
    ensures Remaining(Schedule(minutes, now), now) == Some(minutes)
    ensures later - now >= minutes * 60 ==> Remaining(Schedule(minutes, now), later) == Some(0)
    ensures later - now < 60 ==> Remaining(Schedule(minutes, now), later) == Some(minutes)
  {
    var e := ElapsedMinutes(now, later);
    if later - now >= minutes * 60 {
      assert e * 60 > (minutes - 1) * 60;
    }
  }
}
