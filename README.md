# Terminal chat room server, modelled in Dafny

This project models the core of a WebSocket chat room server. Each connection
goes through three stages:

1. It answers a fixed password. The answer is compared lower-cased and trimmed.
2. It picks a user ID, or gets a random adjective–noun–number one. It also
   gets a random colour, and is then registered and welcomed.
3. It chats.

In the chat stage, a line is one of the following:

- a command: `/exit`, `/quit`, `/online`, `/help`, `/color`, or `/close [minutes]`;
- a chat message, which is stamped with the sender's masked address, region,
  ID and colour.

Every broadcast goes through one channel. A broadcaster goroutine delivers
each envelope to a snapshot of the registry, and deletes the connections
whose write fails. `/close <minutes>` arms at most two timers itself:

- one reminder: the five-minute reminder when more than five minutes are set,
  otherwise the one-minute reminder when more than one minute is set;
- the power-off, which broadcasts a last notice, closes every connection and
  exits.

When the five-minute reminder goes off, it arms the one-minute reminder four
minutes later. So up to three alarms can go off after one `/close`.

The modules are:

- `Text`: the parts of Go's `strings` and `strconv` that the server relies on.
  These are `TrimSpace`, `TrimFunc`, `ToLower`, `Count`, `Index`, `Split`,
  `Fields`, `ReplaceAll`, `%-Ns` padding, `%d` and `Atoi`.
- `Envelope`: the JSON envelope and the client record.
- `Address`: host extraction from `RemoteAddr`, `maskIP` and `getIPRegion`.
- `Identity`: the random ID and colour, and the user ID chosen at login.
- `Shutdown`: the `/close` argument check, the timers and the remaining-time
  reply.
- `Hub`: the shared server state as a value. It holds the registry, the
  broadcast queue, the password and the shutdown plan. It specifies
  registration, delivery by the broadcaster, scheduling and the alarms.
- `Server`: the `ChatServer` object as a class whose fields the methods update.
  Each method is proved to produce the `Hub` operation's result.
- `Handler`: one connection's handler as a state machine. Step functions take
  one inbound frame (or a read failure) each.
- `HandlerFacts`: what each stage and command does, and what whole runs
  preserve.

Randomness (`rand.Intn`), the clock, the outcome of each socket write and the
answer of the geolocation service are parameters.

## Model

| member | source | states |
|---|---|---|
| Text.TrimSpace | main.go:207 | `strings.TrimSpace`: never longer than the input, and what is kept neither starts nor ends with white space |
| Text.TrimFuncSlice | main.go:424 | `strings.TrimFunc`/`Trim` keep one contiguous slice of the input, starting where the longest trimmed prefix ends; every code point before it and after it is trimmed, and neither end of it is |
| Text.TrimFuncEnds | main.go:283 | neither end of what `strings.TrimFunc` keeps is a trimmed code point |
| Text.TrimFuncIdempotent | main.go:207 | trimming twice is trimming once |
| Text.ToLower | main.go:304 | `strings.ToLower` keeps the length and lower-cases each code point on its own |
| Text.Count | main.go:112-119 | `strings.Count` of a code point is at most the length, and zero exactly when the code point does not occur |
| Text.Index | main.go:269-270 | `strings.Index` of a code point is -1 exactly when it does not occur; otherwise it is the position of its first occurrence |
| Text.Split | main.go:113-115 | `strings.Split`: one more part than separators, no part holds the separator, and joining the parts gives back the input |
| Text.SplitHead | main.go:276-278 | the first part of a split is everything before the first separator, or the whole input when there is none |
| Text.SplitSecond | main.go:113-115 | the second part of a split is the text between the first and the second separator |
| Text.FieldsFunc | main.go:480 | `strings.Fields`: every field is non-empty and free of white space; the input is the fields in order, separated by runs of white space that are non-empty between two fields; the fields concatenated are the input with its white space removed |
| Text.FieldsSingle | main.go:480 | a non-empty input without white space is a single field, itself |
| Text.FieldsPair | main.go:480 | two words joined by one white-space code point are exactly two fields |
| Text.Remove | main.go:346 | `strings.ReplaceAll(s, c, "")`: `c` no longer occurs, the length drops by its count, every other code point is still present, and a one-code-point input is kept or dropped whole |
| Text.RemoveAppend | main.go:346 | removing a code point from a concatenation is removing it from each part |
| Text.PadRight | main.go:450 | `%-Ns`: the text followed by spaces up to the width, never truncated |
| Text.NatToString | main.go:146-147 | `%d` of a natural: non-empty decimal digits whose value is the number, with no leading zero unless the number is 0 |
| Text.Atoi | main.go:504 | `strconv.Atoi` succeeds only on an optional sign followed by at least one decimal digit and nothing else, and its value fits in int64; with `AtoiSigned` this decides every input |
| Text.AtoiSigned | main.go:504 | a sign (none, `+` or `-`) followed by digits is accepted exactly when its signed value fits in int64, and then gives that value |
| Text.AtoiReadsSign | main.go:504 | `+5` reads as 5, `-5` as −5, `15` as 15 |
| Text.AtoiRejectsNonDigits | main.go:504 | `5m`, `1a`, a bare `+` and the empty string are rejected |
| Text.AtoiNatToString | main.go:504 | `strconv.Atoi` reads back every decimal `%d` output up to the int64 maximum |
| Text.AtoiDigits | main.go:504 | `strconv.Atoi` on plain digits is their value when it fits in int64, and an error otherwise |
| Envelope.WireTypeInjective | main.go:50-58 | distinct envelope kinds have distinct `type` strings |
| Address.MaskIP | main.go:110-126 | an address with exactly three dots loses every dot and ends in ":*"; otherwise one with at least two colons ends in ":*"; any other address is unchanged |
| Address.MaskIPv4 | main.go:110-117 | an address with exactly three dots is shown as its first two octets joined by ':' and followed by ":*" |
| Address.MaskIPv6 | main.go:118-124 | otherwise, with at least two colons, it is shown as its first two colon segments followed by ":*" |
| Address.MaskIPOther | main.go:125 | any other address is shown unchanged |
| Address.HostPart | main.go:266-281 | without a bracket pair, an address with a colon yields a prefix of it free of colons, and one without a colon is kept whole; the result is never longer than the input |
| Address.ClientHost | main.go:264-283 | the extracted host is never longer than `RemoteAddr` and neither starts nor ends with a bracket |
| Address.ClientHostBracketed | main.go:266-273 | `[host]:port` yields the text between the first '[' and the first ']', bracket-trimmed, and exactly that text when it has no bracket at either end |
| Address.ClientHostReversedBrackets | main.go:267-273 | when both brackets occur but the first ']' comes before the first '[', the address is kept whole, colon and port included, and only bracket-trimmed |
| Address.ClientHostWithPort | main.go:274-280 | `host:port` with no bracket pair yields the text before the first colon, bracket-trimmed |
| Address.CityName | main.go:206-212 | the trimmed city is shown when it is neither empty nor "null"; otherwise "未知城市" is; the result is never empty and never "null" |
| Address.CityNameIdempotent | main.go:206-212 | applying the city fallback to a displayed city changes nothing |
| Address.LookupRegion | main.go:176-212 | a city answer gives the city fallback's text; every failure gives a text starting "归属地查询-"; never empty |
| Address.RegionOf | main.go:167-212 | a loopback or intranet prefix gives the local region text; any other address gives the lookup's text; never empty |
| Address.GetIPRegion | main.go:167-212 | the prefix loop returns exactly `RegionOf`: the local text for a local prefix, the lookup's text otherwise, never empty |
| Identity.RandomID | main.go:143-148 | a generated ID is seven code points: the drawn adjective and noun, then digits |
| Identity.RandomIDShape | main.go:143-148 | a generated ID is the drawn adjective, the drawn noun and exactly three digits valued 100 to 999 |
| Identity.RandomIDPrintable | main.go:143-148 | a generated ID is non-empty and holds no white space or line break |
| Identity.RandomColor | main.go:151-154 | the colour is one of the palette |
| Identity.UserID | main.go:340-347 | a blank trimmed answer gets the generated ID; otherwise the ID is no longer than the trimmed answer and uses only its code points |
| Identity.CustomIDWellFormed | main.go:346 | a typed ID is non-empty without '\n' or '\r', and equals the trimmed answer when that has no line break |
| Identity.UserIDWellFormed | main.go:340-347 | the user ID is never empty and never holds a line break; a blank answer gets the generated ID; a typed one is the trimmed answer with every '\n' and then every '\r' removed, and exactly the trimmed answer when that has no line break |
| Identity.RemoveAbsent | main.go:346 | removing a code point that does not occur changes nothing |
| Shutdown.Arm | main.go:536-591 | one timer for 1 minute, two otherwise; the power-off is last, at the full count; every offset lies in (0, minutes] |
| Shutdown.ScheduledNotice | main.go:528-533 | the notice is a `system` envelope with no sender; it starts with "【系统通知】服务器将在 " and the minutes in decimal, and ends with " 分钟后关闭" |
| Shutdown.ScheduledNoticeShowsMinutes | main.go:530 | two notices with the same text announce the same minutes |
| Shutdown.Followers | main.go:546-556 | only the five-minute reminder arms another timer, and that one is the one-minute reminder four minutes later |
| Shutdown.Expand | main.go:536-567 | every armed timer can go off, and anything else that can go off is a one-minute reminder armed by a five-minute reminder four minutes earlier |
| Shutdown.ExpandArm | main.go:536-591 | the alarms of `/close <minutes>` in firing order: five-minute and one-minute reminders when minutes > 5, only the one-minute reminder when minutes > 1, then the power-off |
| Shutdown.ArmedAlarms | main.go:536-591 | the five-minute reminder fires iff minutes > 5 (at minutes-5); the one-minute reminder fires iff minutes > 1 (at minutes-1, armed by the five-minute one when there is one); the power-off fires last at minutes; offsets strictly ascend |
| Shutdown.AlarmNotice | main.go:538-579 | each alarm broadcasts a system notice with no sender |
| Shutdown.Wrap64 | main.go:571 | `time.Duration` arithmetic: the result lies in the signed 64-bit range, differs from the exact value by a multiple of 2^64, and is exact inside the range |
| Shutdown.Delay | main.go:537-571 | the delay handed to `time.AfterFunc` is a signed 64-bit value, and exactly minutes times one minute in nanoseconds, positive, when minutes is at most 153722867 |
| Shutdown.ParseMinutesAsWritten | main.go:504-513 | the argument is accepted iff `Atoi` succeeds and the value is positive |
| Shutdown.PowerOffOverflow | main.go:571 | `/close 153722868` is accepted, but its power-off delay wraps to a negative duration |
| Shutdown.ParseMinutes | main.go:504-513 | the corrected check accepts exactly the as-written values that are at most 153722867 minutes |
| Shutdown.DelaysExact | main.go:537-571 | for a count the corrected check accepts, every timer's delay is its offset in nanoseconds and positive |
| Shutdown.ParseMinutesSmall | main.go:504 | every count from 1 to 153722867 written in decimal is accepted |
| Shutdown.Schedule | main.go:515-525 | the new plan records the count and the start time, and its timers lie within (0, minutes]; nothing of the previous plan survives |
| Shutdown.ElapsedMinutes | main.go:484 | whole minutes since the start, truncated |
| Shutdown.Remaining | main.go:483-487 | none while no shutdown is set; otherwise the count minus the elapsed minutes, floored at zero |
| Shutdown.StatusNoticeText | main.go:481-501 | the bare `/close` reply says "not set" while no shutdown is set, and the remaining minutes otherwise |
| Shutdown.RemainingAfterSchedule | main.go:483-490 | right after scheduling the reply shows the full count; from the set minute on it shows zero |
| Hub.Init | main.go:129-135 | a fresh server has no clients, an empty queue, the given password and no shutdown |
| Hub.Register | main.go:361-364 | the connection maps to its client; the count grows by one iff it was new; nothing else changes |
| Hub.Unregister | main.go:429-432 | the connection is gone; the count drops by one iff it was there; other entries are kept |
| Hub.UnregisterIdempotent | main.go:395-416 | deleting twice is deleting once; deleting an absent connection changes nothing |
| Hub.RegisterUnregister | main.go:361-364 | registering a fresh connection and then deleting it restores the state |
| Hub.Publish | main.go:389 | the envelope joins the back of the queue |
| Hub.Recolor | main.go:467-471 | only the registered sender's colour changes |
| Hub.Deliver | main.go:217-235 | the recipients are the snapshot minus the failing writes; exactly those stay registered; the head of the queue is consumed |
| Hub.Drain | main.go:216-236 | the broadcaster consumes at most one envelope per pass and never more than are queued, leaving the rest of the queue in order; the registry only shrinks; password and plan are kept |
| Hub.DrainFifo | main.go:216-236 | envelopes are delivered first-in first-out; every recipient was registered and wrote successfully; the registry only shrinks |
| Hub.DrainReachesHealthy | main.go:216-236 | a connection whose writes never fail stays registered and receives every delivered envelope |
| Hub.ScheduleShutdown | main.go:515-591 | the plan is replaced and the scheduled notice is broadcast |
| Hub.ScheduledAlarms | main.go:515-591 | after scheduling, the alarms that can fire are exactly the new count's alarms, with the power-off last |
| Hub.Fire | main.go:536-591 | only an armed timer fires; it broadcasts its notice; the five-minute one arms the one-minute one; the power-off closes every registered connection |
| Hub.FiredWithin | main.go:536-591 | when every armed timer lies in a set of alarms closed under arming, every timer that can fire lies in it |
| Hub.OnlyScheduledAlarmsFire | main.go:515-591 | after `/close <minutes>`, whatever sequence of timers goes off, each one is among that count's alarms |
| Server.ChatServer.constructor | main.go:129-135 | the new server's state is `Hub.Init` |
| Server.ChatServer.Register | main.go:361-364 | the new state is `Hub.Register`; returns the count, at least 1 |
| Server.ChatServer.Unregister | main.go:429-432 | the new state is `Hub.Unregister`; returns the new count |
| Server.ChatServer.Count | main.go:363 | `len(s.clients)`, which is zero iff no one is registered |
| Server.ChatServer.Publish | main.go:389 | the new state is `Hub.Publish` |
| Server.ChatServer.Recolor | main.go:471 | the new state is `Hub.Recolor` |
| Server.ChatServer.Snapshot | main.go:218-224 | the snapshot holds every registered connection exactly once |
| Server.ChatServer.BroadcastNext | main.go:217-235 | one broadcaster pass, with its write loop, yields `Hub.Deliver` |
| Server.ChatServer.Broadcaster | main.go:216-236 | the broadcaster yields `Hub.Drain`: the new state and the delivery log |
| Server.ChatServer.ScheduleShutdown | main.go:515-591 | the new state is `Hub.ScheduleShutdown` |
| Server.ChatServer.ShutdownStatus | main.go:481-501 | the bare `/close` reply: "not set" or the remaining minutes |
| Server.ChatServer.Fire | main.go:536-591 | only an armed timer fires; the new state and the closed connections are `Hub.Fire` |
| Handler.Connect | main.go:264-297 | the session awaits the password; the host is extracted and masked; the region is the local text for a local address and the lookup's text otherwise, never empty; only the password prompt is sent |
| Handler.PasswordVerdict | main.go:301-326 | blank iff the lower-cased, trimmed answer is empty; accepted iff it is non-empty and equals the lower-cased, trimmed password |
| Handler.PasswordStep | main.go:297-327 | the shared state is untouched; the session ends iff the read fails, and otherwise changes at most its stage; each answer gets at least one reply, all of them password or ID prompts |
| Handler.IdentityStep | main.go:329-389 | a read failure ends the session with no change and no reply; an answer registers the connection with one reply, and the chat stage follows iff the welcome was written |
| Handler.Classify | main.go:424-600 | each exact command iff the trimmed input equals it; a `/close` form iff the input starts with `/close`, split by field count; nothing iff empty; otherwise a chat message |
| Handler.Perform | main.go:424-600 | no command changes the password or the session's connection; only `/exit` and `/quit` end the session and delete its connection; every other command keeps the set of registered connections |
| Handler.ActiveStep | main.go:392-600 | the session stays in the chat stage or ends; when it ends its connection is gone and one envelope has been broadcast |
| Handler.Step | main.go:297-601 | a step never moves the session back and moves it on by at most one stage unless it ends it; a finished session ignores the frame; the password and the connection are kept |
| Handler.LiveStep | main.go:297-601 | while the handler's loop runs, a step never moves the session back and moves it on by at most one stage unless it ends it; the password and the connection are kept |
| Handler.Run | main.go:297-601 | over a whole run the stage never moves back; the password and the connection are kept |
| Handler.OnlineRows | main.go:448-451 | the rows are the registered clients' rows in some order that names each client exactly once |
| Handler.OnlineRowsOnlyClients | main.go:448-451 | every row of the `/online` table is the row of some registered client |
| Handler.OnlineListsEveryone | main.go:448-451 | the `/online` table lists every registered client |
| Handler.WelcomeReply | main.go:367-373 | the welcome starts with the login banner and the online count in decimal, and ends with the user's masked address, region and ID and the help hint |
| Handler.WelcomeShowsCount | main.go:370 | two welcomes with the same text were built with the same online count |
| Handler.Announcement | main.go:380-388 | a join or leave envelope carries the user's ID, masked address, region and colour in its fields; its text starts with "【系统】" and the badge and ends with the event's wording |
| Handler.LeaveWordingsDiffer | main.go:404-441 | the leave after a read failure ("异常离开聊天室") and the leave after `/exit` or `/quit` ("主动退出聊天室") are different envelopes |
| Handler.OnlineHeader | main.go:448 | the `/online` header starts with the title and the count in decimal, and ends with the column titles |
| Handler.OnlineReply | main.go:447-458 | the `/online` reply is a private `online` envelope whose text is the header counting the registered clients followed by their rows |
| Handler.OnlineShowsCount | main.go:448 | two `/online` replies with the same text were built from registries of the same size |
| HandlerFacts.ActiveDispatch | main.go:392-424 | a frame in the chat stage runs the command its trimmed content classifies as |
| HandlerFacts.ClassifyClose | main.go:478-502 | input starting with `/close` is a status query with one field, a set with two, and ignored otherwise |
| HandlerFacts.PasswordAdvancesIff | main.go:297-327 | the session advances iff the answer matches; otherwise it is unchanged and re-prompted; the shared state is untouched |
| HandlerFacts.ReadFailureBeforeActive | main.go:297-339 | a read failure before the chat stage ends the session and changes nothing shared |
| HandlerFacts.IdentityRegisters | main.go:335-389 | the connection is registered under a well-formed ID and a palette colour; the one reply is the welcome with the registry's size after registering; exactly the join announcement is broadcast iff the welcome was written; otherwise the session ends with the client still registered |
| HandlerFacts.IdentityEntry | main.go:335-364 | the registry entry, the ID rules, the palette colour and the registry's growth |
| HandlerFacts.IdentityAnnounced | main.go:363-389 | the welcome carries the registry's size after registering, and the join announcement is queued iff the welcome was written |
| HandlerFacts.ChatIsStamped | main.go:593-600 | a chat message is broadcast with the trimmed content and the session's own identity fields |
| HandlerFacts.ChatIgnoresClaims | main.go:418-424 | only the frame's content matters, whatever identity fields the client sends |
| HandlerFacts.QuitLeaves | main.go:427-444 | `/exit` and `/quit` delete the connection, broadcast exactly the leave announcement worded "主动退出聊天室" with the session's badge and colour, and end the session |
| HandlerFacts.ReadFailureWhileActive | main.go:395-416 | a read failure in the chat stage deletes the connection, broadcasts exactly the leave announcement worded "异常离开聊天室" with the session's badge and colour, and ends the session |
| HandlerFacts.ListingsArePrivate | main.go:445-466 | `/online` and `/help` change nothing and reply privately; the `/online` reply is built from the current registry, counts it and lists everyone |
| HandlerFacts.RecolorIsPrivate | main.go:467-477 | `/color` broadcasts nothing and changes only the sender's colour, to one from the palette |
| HandlerFacts.BlankDoesNothing | main.go:595 | blank content does nothing |
| HandlerFacts.CloseStatusOnly | main.go:481-501 | `/close` alone replies with the status privately and changes nothing |
| HandlerFacts.CloseSuffixIsStatus | main.go:478-481 | `/close` directly followed by text without white space is a status query |
| HandlerFacts.CloseRejected | main.go:502-513 | an argument `Atoi` rejects, or a count that is not positive, is refused privately and nothing changes |
| HandlerFacts.CloseAccepted | main.go:502-591 | any positive count `Atoi` accepts, however large, makes the step exactly `Hub.ScheduleShutdown` with no reply |
| HandlerFacts.CloseOverflow | main.go:502-571 | `/close 153722868` in the chat stage schedules the shutdown and arms a power-off whose delay is negative |
| HandlerFacts.CloseTooManyFields | main.go:478-592 | `/close` with three or more fields does nothing |
| HandlerFacts.ClosedStaysClosed | main.go:444 | a finished handler ignores everything after |
| HandlerFacts.WrongPasswordRetries | main.go:297-327 | one wrong or blank password changes nothing and gets one re-prompt |
| HandlerFacts.WrongPasswordsChangeNothing | main.go:297-327 | any run of wrong or blank passwords changes nothing and gets one re-prompt each |
| HandlerFacts.PerformKeepsOthers | main.go:424-600 | no command changes the password or another connection's entry, except to remove it |
| HandlerFacts.StepKeepsOthers | main.go:297-601 | no step changes the password or another connection's entry, except to remove it |
| HandlerFacts.RunKeepsOthers | main.go:297-601 | over a whole run, the password is fixed and other entries are only ever removed |

## Left out

- The WebSocket upgrade, CORS, the index page, `main`'s listener and the JSON
  codec are I/O. Frames are given as already decoded envelopes, or as a read
  failure.
- The geolocation HTTP request, its 5-second timeout and the GBK decoding are
  external. The lookup's outcome is a parameter with four cases: timeout, bad
  response, unparsable, or a city.
- Goroutines, the mutex and channel blocking (the 200-slot buffer) are left
  out. The queue is unbounded, and each operation is atomic.
- Real timers, `time.Sleep` and `os.Exit` are left out. An alarm firing is
  the `Fire` operation, and the power-off returns the connections it closes.
- Timers do not fire by themselves: which armed timer goes off next is the
  caller's choice, and nothing forces the order of their offsets.
- Hub.Fire: a timer that has gone off stays in the plan, so the model lets it
  go off again, whereas `time.AfterFunc` runs its function once.
- A timer that `/close` stops after it has already gone off is not
  distinguished from one stopped in time; stopping is the whole plan being
  replaced.
- The clock is a parameter counted in seconds. The `Time` field ("15:04:05")
  is dropped from envelopes, and so is logging.
- `rand.Seed` and `rand.Intn` are left out. Draws are parameters within the
  ranges `Intn` guarantees.
- Text.ToLower: lower-cases ASCII letters only, while Go's `strings.ToLower`
  also folds other scripts.
- Handler.OnlineRows: the `/online` table's row order follows Go's
  unspecified map order. The model fixes an arbitrary order and promises only
  that it lists each registered client exactly once; which order Go picks is
  not modelled.
- Server.ChatServer.BroadcastNext: a connection deleted by its handler between
  the snapshot and the write is still counted as a recipient.
- The possible write error of a private reply (`conn.WriteJSON`) is ignored,
  as the source does. The welcome reply is the exception, because the source
  checks it. Such a failure leaves the client registered with no join
  broadcast, because the source returns before either deleting the client or
  broadcasting the join.
- `maskIP` keeps the first two octets of an IPv4 address and drops the last
  two, as the code does.
- Text.Atoi: returns no value where Go returns a `*NumError`, so the syntax
  and range error kinds are not told apart.

## Findings

The handler runs the `/close` check as written (`ParseMinutesAsWritten`), so
the overflow is visible at session level in `HandlerFacts.CloseOverflow`.
`Shutdown.ParseMinutes` is the corrected check, and `Shutdown.DelaysExact`
proves that every delay it lets through is exact and positive.

| source | as written | input that shows it | evidently intended | confidence | as-written member | corrected member |
|---|---|---|---|---|---|---|
| main.go:571 | `/close` accepts any positive int64 from `Atoi`, and `time.Duration(minutes)*time.Minute` wraps around past 153722867 minutes | `/close 153722868`: the notice says the server will close in 153722868 minutes, but the power-off delay is negative, so the timer fires at once | power off after the announced number of minutes, or refuse a count that cannot be timed | not executed | Shutdown.PowerOffOverflow | Shutdown.DelaysExact |
