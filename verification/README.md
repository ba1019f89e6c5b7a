# Screen control, verified

This project models the parts of the repository that decide who may drive a
remote machine and what a picture of it is worth, and proves what they promise.
It is written in Dafny 4.11; `dafny verify dfyconfig.toml` checks all of it.

## What is modelled

**The control lease** (`crates/agent-lease`). A lease has a holder, a pending
preemption, a bounded priority queue, a counter of grants and a panic backoff,
and takes the clock as an argument. `lease.dfy` is the object, its fields updated
in place; `lease_machine.dfy` says what every call means on values, and the
object is proved to do that. `lease_invariant.dfy`, `lease_order.dfy`,
`lease_safety.dfy` and `lease_forecast.dfy` prove what every call and every run
keeps: the invariant, first come first served, a release owed at every change of
driver, the preempted grant that never gets through again, the minimum hold, and
when a forecast comes true. `lease_effects.dfy` says what each call achieves, by
the lease's own fields. `board.dfy` holds one lease a session and composes
the calls; `board_machine.dfy` says what its calls mean, `board_effects.dfy` and
`request_effects.dfy` what they achieve, and `board_safety.dfy` and
`board_runs.dfy` what holds over whole runs by any parties on any sessions.
Instants are 64-bit and saturate, as the original's do.

**The framebuffer mirror** (`crates/agent-perception`). `coverage.dfy` is the
grid of 16 by 16 tiles with partial bitmasks; its ghost history of marks gives
every tile and every bit its meaning (`coverage_marks.dfy`, `coverage_tiles.dfy`,
`bitmask.dfy`). `region_counts.dfy`, `stale_tiling.dfy` and `one_tiling.dfy` give
its answers: what a list of stale rectangles is, and that there is only one.
`mirror.dfy` is the mirror: one flat buffer composited in place, the coverage
beside it, the cells an update changed (`changed_cells.dfy`, `changed_area.dfy`,
`reported_area.dfy`), and the read that answers from them. `compositing.dfy` says
what one rectangle means pixel by pixel, `repainting.dfy` that painting row by row is that, and
`mirror_truth.dfy` proves, against a server screen that replays the same
rectangles, that a mirror never lies about coverage. `reads.dfy` carries that to
the answer of a read, and `mirror_effects.dfy` proves the other half: exactly when
a pixel is covered, and that a repaint redeems a stale mirror. `damage_log.dfy` is
the damage log with one cursor a reader, `damage_machine.dfy` proves conservation
for each reader over every interleaving, and `crop_planner.dfy` is the greedy planner. Rectangles have
16-bit edges, and a far edge that does not fit wraps.

**A drag and its interruption** (`crates/agent-plane`). `lowering.dfy` turns a
drag into commands, `dispatching.dfy` walks them onto the wire with every way of
being stopped, `walk_safety.dfy` proves where a walk stops and what it settles with,
and `drag_safety.dfy` what the limb is left holding.

**Three arithmetic pieces.** `des.dfy`, `des_tables.dfy` and `vnc_auth.dfy` are
the DES of the RFB probe, `des_digits.dfy` restates it in hexadecimal digits, and
`des_answers.dfy` follows a known answer of the standard through it;
`image_space.dfy` is the way from an image pixel to a screen pixel and back, and
`image_size.dfy` what images are sent; `calendar.dfy` is the date of a log line.

## Where the code does not do what it says

The code is modelled as it is. Where its own text promises more, a lemma says
exactly when the promise holds, and another gives an input for which it does not.

- `crates/agent-lease/src/board.rs:211-213` says a yielded session is granted at
  once. It is if and only if the named person is the holder and no preemption is
  running (`YieldGrantsExactly`); a person who was only about to take over hands
  the wheel straight back to whoever had it (`YieldHandsItBack`).
- The minimum hold depends on a deadline that saturates at the top of the clock
  (`crates/agent-lease/src/clock.rs:74-76`): `MinimumHoldExactly` says when it is
  kept there, and `MinimumHoldCutShortAtTheTop` is a run in which it is not.
- The forecast of a status counts from the holder's last sign of life, and a clock
  that went back behind it makes a limit of zero run out early
  (`crates/agent-lease/src/clock.rs:78-83`): `ForecastHoldsExactly`,
  `ForecastBrokenByAZeroLimit`.
- `crates/agent-perception/src/lib.rs:45` says a mirror never lies about coverage.
  That needs every JPEG to reach as far as its rectangle is on the screen, and the
  source of every copy to be on the screen as far as its destination is, and needs
  exactly that (`TruthNeedsExactly`, `SmallJpegLies`, `OffScreenCopyLies`): the
  tiles of a source off the screen are vacuously whole
  (`crates/agent-perception/src/coverage.rs:291-297`).
- `crates/agent-perception/src/mirror.rs:360-362` calls the answer of `apply` the
  area of the cells in which a pixel now differs. The code also counts a cell that
  was changed and changed back, every cell of a rectangle it cannot compare, and,
  when a fifth of the box around them is marked, the whole box.
  `AreaReportsExactly` says when the answer is the promised one,
  `ComparableAreaIsExact` what that comes to when nothing is incomparable and
  nothing overlaps, and `ChangedBackIsReported` is an update for which it is not.
  It never says less than what differs (`AreaNeverUnderReports`).
- `crates/agent-perception/src/coverage.rs:337-339` says a run is merged with the
  one above it when extent and reason match. It is if and only if the scan meets
  no other bad tile between the two (`MergedExactly`); two stale columns side by
  side are listed row by row (`TwoColumnsAreNotMerged`).
- `crates/agent-perception/src/encode.rs:148-153` puts what one scale for both edges
  costs down the height at a fraction of a source pixel. The way from a screen
  pixel to the image and back is off by at most half a source box and half a pixel
  of the image if no pixel runs out of image, which is so if and only if the image
  is short by less than half a source box (`NeverRunsOut`); otherwise by at most
  one pixel of the image (`HalfABoxAway`, `SentImagesAreNear`). `BottomRowRunsOut`
  is a screen on which it does.
- `crates/agent-perception/src/encode.rs:139` says neither edge of an image exceeds
  the long edge. A tall strip's can: `LongEdgeExactly`, `LongEdgeExceeded`.
- `crates/agent-perception/src/damage.rs:70-73` calls `updates` the number of
  updates the rectangles came from. The code counts those that began at or after
  the cursor, empty ones included and one cut by the cursor not:
  `UpdatesExactly` and, over runs, `NextLookCountsExactly` say when the two agree,
  and `EmptyUpdatesAreCounted` is a run after which they do not.
- `crates/agent-plane/src/lowering.rs:704-707` says rounding makes the path of a
  drag symmetric. It does if and only if the exact point is not half way between
  two pixels (`SymmetricExactly`, `HalfWayIsNotSymmetric`).
- `limb-core`'s settlement of a drag carries the point it was released at. The code
  names it if and only if the plane itself owed the release
  (`SettlementNamesTheDrop`): a drag that reached its own end, or never pressed,
  names the origin (`WholeDragNamesTheOrigin`). It also says the release was
  synthesised when the channel did not take it; what the limb then holds is in
  `NoButtonLeftHeld`.

## Model

| member | source | states |
|---|---|---|
| `Clock.SinceAgreesWithReached` | crates/agent-lease/src/clock.rs:74-94 | Elapsed time against a limit and an instant against a deadline agree, for a positive limit, exactly when the deadline did not saturate. |
| `LeaseMachine.PositionOf` | crates/agent-lease/src/lease.rs:214-216 | The first place of a party in the queue, or that it has none. |
| `LeaseMachine.InsertPosition` | crates/agent-lease/src/lease.rs:759-804 | A newcomer goes behind everybody of at least its priority and before the first of a lower one. |
| `LeaseMachine.Waiters` | crates/agent-lease/src/lease.rs:650-659 | The sweep keeps exactly the waiters younger than the time to live and hands back exactly the others. |
| `Leases.Lease.Acquire` | crates/agent-lease/src/lease.rs:279-354 | Asking: the backoff first, then renew, then the running preemption, then the place already taken, then grant or contest. |
| `Leases.Lease.Contest` | crates/agent-lease/src/lease.rs:672-757 | The contested half: queue or refuse for an equal or higher holder, a running change or a minimum hold, take over a disconnected holder, start a preemption otherwise. |
| `Leases.Lease.QueueOrRefuse` | crates/agent-lease/src/lease.rs:759-804 | Refused when not queueing or at the cap, queued at the place its priority gives it otherwise. |
| `Leases.Lease.Release` | crates/agent-lease/src/lease.rs:365-386 | Only the current grant, quoted by its id, is let go. |
| `Leases.Lease.Promote` | crates/agent-lease/src/lease.rs:394-403 | The named waiter moves to the head, everybody else keeps the order. |
| `Leases.Lease.CancelWait` | crates/agent-lease/src/lease.rs:414-462 | A waiter leaves the queue; a requester calls its preemption off and the holder gets the phase its connection gives it. |
| `Leases.Lease.ForceRelease` | crates/agent-lease/src/lease.rs:480-494 | The panic chord: holder, preemption and queue gone, a release owed, a backoff set. |
| `Leases.Lease.ConfirmRelease` | crates/agent-lease/src/lease.rs:508-535 | A handover in progress becomes held, with the clocks started then. |
| `Leases.Lease.SetConnected` | crates/agent-lease/src/lease.rs:546-593 | A dropped or returned transport of the holder, with its grace deadline, in every phase. |
| `Leases.Lease.NoteIntent` | crates/agent-lease/src/lease.rs:602-608 | Only the holder's input moves the idle clock. |
| `Leases.Lease.Renew` | crates/agent-lease/src/lease.rs:617-623 | A renew moves the other clock and not that one. |
| `Leases.Lease.Tick` | crates/agent-lease/src/lease.rs:641-668 | Backoff, queue sweep and holder timers, in that order, in one transition. |
| `Leases.Lease.SweepQueue` | crates/agent-lease/src/lease.rs:650-662 | The in-place filter of the queue keeps the live waiters in order and returns the expired ones in order. |
| `Leases.Lease.TickHolder` | crates/agent-lease/src/lease.rs:806-865 | Which timer takes the lease, by phase and in order of precedence. |
| `Leases.Lease.StatusAt` | crates/agent-lease/src/lease.rs:898-940 | What a status says of the holder, the queue, the preemption and the next change. |
| `Leases.Lease.Settle` | crates/agent-lease/src/lease.rs:954-975 | The departed holder is followed by the preemption's requester, else the head of the queue, else nobody. |
| `Leases.Lease.TakeOver` | crates/agent-lease/src/lease.rs:977-983 | A take-over drops the holder and any preemption and grants at once. |
| `Leases.Lease.Grant` | crates/agent-lease/src/lease.rs:985-1014 | A fresh id, fresh clocks, a handover that owes a release. |
| `Leases.Lease.Fence` | crates/agent-lease/src/lease.rs:247-254 | Only the holder in the held phase may dispatch. |
| `LeaseInvariant.ApplyKeepsInv` | crates/agent-lease/src/lease.rs:279-668 | Every call keeps: unheld iff no holder, unheld means an empty queue, a preemption iff that phase, nobody in two places, the queue within its cap, contention timed iff somebody waits, every issued id below the next, connected iff no grace deadline, and a preemption earned by rank and minimum hold. |
| `LeaseInvariant.FreshIsValid` | crates/agent-lease/src/lease.rs:126-160 | So that holds after every run of calls on a fresh lease. |
| `LeaseOrder.NobodyPasses` | crates/agent-lease/src/lease.rs:759-804 | One call other than promote keeps the queue sorted by priority, and of two parties that both still wait the one ahead stays ahead. |
| `LeaseOrder.NewcomerJoinsBehind` | crates/agent-lease/src/lease.rs:759-804 | A newcomer joins behind everybody of at least its priority. |
| `LeaseOrder.AskingAgainKeepsThePlace` | crates/agent-lease/src/lease.rs:332-348 | Asking again while queued takes no second slot, moves nobody and answers the place held. |
| `LeaseOrder.NobodyIsServedEarly` | crates/agent-lease/src/lease.rs:954-975 | Whoever a call hands the lease to was not behind anybody who still waits. |
| `LeaseOrder.FirstComeFirstServed` | crates/agent-lease/src/lease.rs:279-462 | Over every run without promote the queue stays sorted by priority, and of two parties that both keep waiting the one ahead stays ahead. |
| `LeaseOrder.LineIsByAsking` | crates/agent-lease/src/lease.rs:759-804 | From a fresh lease, over every run without promote and without the clock going back, parties of one priority stand in the order in which they first asked, whenever they joined and however often they asked again. |
| `LeaseSafety.DispatchChangeOwesRelease` | crates/agent-lease/src/lib.rs:41-47 | Every call that changes who may dispatch returns a transition that owes a release; the one exception is the caller reporting it done. |
| `LeaseSafety.HolderChangeOwesRelease` | crates/agent-lease/src/lib.rs:41-47 | Either the same grant holds and no id was minted, or the lease changed hands with a release owed and the departure named. |
| `LeaseSafety.NobodyDispatchesWhileHandingOver` | crates/agent-lease/src/lease.rs:496-504 | From a free or handed-over lease, over every run of other calls, nobody passes the fence before the release is confirmed. |
| `LeaseSafety.GoneForGood` | crates/agent-lease/src/lease.rs:985-987 | A grant that ended never holds the lease again, in any run. |
| `LeaseSafety.PreemptedNeverDispatches` | crates/agent-lease/src/lease.rs:242-254 | From a pending preemption on, no run without the requester's own withdrawal lets the preempted grant through the fence. |
| `LeaseSafety.PreemptionStep` | crates/agent-lease/src/lease.rs:816-827 | A tick at or past the deadline makes the change, one before it does not, and only the panic chord gives the lease to anybody but the requester. |
| `LeaseSafety.RequesterSucceeds` | crates/agent-lease/src/lease.rs:954-968 | The first state of a run that is no longer preempted is held by the requester. |
| `LeaseSafety.MinimumHoldInEveryRun` | crates/agent-lease/src/lease.rs:713-735 | In every run, at every instant below the top of the clock: a departure that yielded to a waiter, whoever waited, lasted the minimum hold, and so did a preemption but for a person preempting an agent. |
| `LeaseSafety.MinimumHoldExactly` | crates/agent-lease/src/lease.rs:882-892 | At the top of the clock a yielded hold meets the minimum if and only if the hold would have ended on the clock. |
| `LeaseSafety.MinimumHoldCutShortAtTheTop` | crates/agent-lease/src/clock.rs:74-76 | A concrete run of a fresh lease whose minimum hold a saturated deadline cuts short. |
| `LeaseEffects.AskedExactly` | crates/agent-lease/src/lease.rs:279-354 | What an ask does, by the lease's fields: refused during the backoff; nothing but a clock for whoever has a place; a free lease granted on the spot; a holder outranked past its minimum hold, or an agent by a person, taken over, at once if disconnected and with the grace if not; else in line behind everybody of its priority, or refused with the reason. |
| `LeaseEffects.ReleaseHandsOn` | crates/agent-lease/src/lease.rs:365-386 | Letting go hands the lease to the preemption's requester, else the first in line, else nobody, with the rest of the line as it was and the departure told; anything but the holder's own id and grant changes nothing. |
| `LeaseEffects.TickTakesExactly` | crates/agent-lease/src/lease.rs:641-668 | A tick takes the lease iff, of a plain holder, both clocks are the time to live old, or a person's input the person limit, or an agent's the agent limit, or an agent somebody still waits behind has been quiet and has held for as long as the policy says; or a preemption or a grace has run out. It names the first such cause, hands on to the next of those who still wait, and names every waiter it dropped. |
| `LeaseEffects.PromotedIsNext` | crates/agent-lease/src/lease.rs:394-403 | A promoted waiter gets the lease when the holder then lets go, and the others keep their order. |
| `LeaseEffects.GivesUpExactly` | crates/agent-lease/src/lease.rs:414-462 | Giving up calls off the party's own preemption or takes it alone out of line, and changes nothing for a party that waits for nothing. |
| `LeaseEffects.PanicHolds` | crates/agent-lease/src/lease.rs:480-494 | After the panic chord every ask is refused with the time left until the backoff has passed, ticked in between or not, and from then on the first ask is granted. |
| `LeaseEffects.ConfirmLetsIn` | crates/agent-lease/src/lease.rs:508-535 | Confirmed, the new holder and nobody else passes the fence, and its clocks start then. |
| `LeaseEffects.GraceIsForTheHolder` | crates/agent-lease/src/lease.rs:546-593 | A holder that loses its connection stops dispatching, is taken exactly when the grace has passed, and has the lease back as it was if the connection returns. |
| `LeaseEffects.OnlyTheHoldersConnection` | crates/agent-lease/src/lease.rs:546-593 | Nobody else's connection matters, nor the same news twice, and only a plain holder's phase moves. |
| `LeaseEffects.RenewalIsNotInput` | crates/agent-lease/src/lease.rs:602-623 | When a tick takes the lease after a renewal and after input, each by the one clock it moves. |
| `LeaseEffects.StatusShows` | crates/agent-lease/src/lease.rs:918-940 | How long the holder has held and been silent, how long each waiter and the requester have waited since they first asked, in order, and how long asks are refused. |
| `LeaseForecast.ForecastIsGiven` | crates/agent-lease/src/lease.rs:904-917 | A change is forecast exactly for a holder that no handover is under way to. |
| `LeaseForecast.ForecastHoldsExactly` | crates/agent-lease/src/lease.rs:894-940 | When a status reports a change in k ms, no tick before then takes the lease if and only if k is 0, or nobody simply holds it, or neither the time to live nor the silence its kind may keep is zero. |
| `LeaseForecast.StatusPredicts` | crates/agent-lease/src/lease.rs:894-940 | Under exactly that condition no run of ticks before then takes the lease either, and the tick then takes it iff the holder's time is up, by the limits of `TickTakesExactly`. |
| `LeaseForecast.ForecastComesTrue` | crates/agent-lease/src/lease.rs:894-940 | Below the top of the clock it then always does, unless every waiter's own time in the queue ran out first. |
| `LeaseForecast.ForecastBrokenByAZeroLimit` | crates/agent-lease/src/clock.rs:78-83 | A concrete run of a fresh lease with a zero limit and a clock gone backwards, whose forecast is wrong. |
| `Boards.Board.LeaseFor` | crates/agent-lease/src/board.rs:331-348 | A session's lease is made on first use and kept after that. |
| `Boards.Board.TickInto` | crates/agent-lease/src/board.rs:556-562 | A tick, kept only when it moved something or owes a release, and any handover it started confirmed. |
| `Boards.Board.Status` | crates/agent-lease/src/board.rs:360-369 | Elapsed time applied, and the status after it. |
| `Boards.Board.Ask` | crates/agent-lease/src/board.rs:385-428 | An agent that asks where a person works is turned away while muted or declined; any other ask is acquired and confirmed. |
| `Boards.Board.Release` | crates/agent-lease/src/board.rs:431-449 | The holder lets go and stops waiting, in one call. |
| `Boards.Board.Input` | crates/agent-lease/src/board.rs:458-488 | A free lease is granted on the spot, a held one only lets its holder through. |
| `Boards.Board.PersonInput` | crates/agent-lease/src/board.rs:493-510 | A person takes over from an agent and never queues. |
| `Boards.Board.YieldTo` | crates/agent-lease/src/board.rs:214-251 | The named agent to the head, the person let go. |
| `Boards.Board.NotNow` | crates/agent-lease/src/board.rs:179-193 | The agent leaves the line and is refused for a while. |
| `Boards.Board.Mute` | crates/agent-lease/src/board.rs:166-169 | Requests are muted and the agents in line on machines a person uses are taken out. |
| `Boards.Board.Muted` | crates/agent-lease/src/board.rs:127-133 | Which mute is in force. |
| `Boards.Board.MuteLeft` | crates/agent-lease/src/board.rs:137-146 | How long a muted request should wait. |
| `Boards.Board.NotNowLeft` | crates/agent-lease/src/board.rs:151-161 | How long a standing refusal still answers. |
| `Boards.Board.ForgetParty` | crates/agent-lease/src/board.rs:514-524 | A party that went away lets go everywhere, answered where something moved. |
| `Boards.Board.TickAll` | crates/agent-lease/src/board.rs:528-551 | Every lease ticked, standing refusals and the mute swept. |
| `Boards.Board.Remove` | crates/agent-lease/src/board.rs:327-329 | A session that ended loses its lease. |
| `BoardSafety.TickIntoMoves` | crates/agent-lease/src/board.rs:556-562 | A release owed by a tick is never filtered out of what the board returns. |
| `BoardSafety.InputFinishes` | crates/agent-lease/src/board.rs:451-488 | Input is let through exactly when its sender then may dispatch, and only then restarts the idle clock. |
| `BoardSafety.YieldGrantsExactly` | crates/agent-lease/src/board.rs:211-251 | Letting a waiting agent have the session grants it at once if and only if the named person is its holder and no preemption is running. |
| `BoardSafety.YieldHandsItBack` | crates/agent-lease/src/board.rs:235-244 | A concrete run after which a person about to take over yields to one agent and another one keeps the session. |
| `BoardSafety.TurnedAwayExactly` | crates/agent-lease/src/board.rs:385-428 | Asking is turned away iff an agent asks for a session a person holds or is about to, while that person's mute or refusal stands; the agent is then out of line, and the holder and every other session are untouched. |
| `BoardEffects.ElapsedIs` | crates/agent-lease/src/board.rs:556-568 | Elapsed time on a session at rest: if the holder's time is up the next in turn drives at once and the caller is told why; otherwise only waiters leave, and the caller is told iff some did. |
| `BoardEffects.AskAchieves` | crates/agent-lease/src/board.rs:385-428 | An ask not turned away: the party holds iff it did or the session was free and past its backoff, may dispatch then unless somebody takes over from it, is taking over iff it was or it outranks a plain holder past the minimum hold or is a person against an agent, is in line iff it was or can only wait and there is room, and is refused iff asks are kept out or there is no room; everybody else stays. |
| `BoardEffects.InputAchieves` | crates/agent-lease/src/board.rs:458-488 | Input takes a free session on the spot, is let through from the holder nobody takes over from and restarts its idle clock, and is refused, with the holder's kind, to everybody else, for whom it changes nothing. |
| `BoardEffects.PersonInputAchieves` | crates/agent-lease/src/board.rs:493-510 | A person's input takes a free session, restarts the clock of one the person holds, starts taking over from whoever the person outranks, and otherwise leaves everybody in place; it never queues and is never refused. |
| `BoardEffects.StatusAchieves` | crates/agent-lease/src/board.rs:360-369 | A look applies elapsed time and answers with what moved. |
| `BoardEffects.TickAllAchieves` | crates/agent-lease/src/board.rs:528-546 | Every session has elapsed time applied, and is answered for iff something moved there. |
| `BoardEffects.TickAllSweeps` | crates/agent-lease/src/board.rs:530-551 | Exactly the refusals that have run out are swept, and the mute exactly when it is over once the sessions have moved. |
| `BoardEffects.OneSessionAtATime` | crates/agent-lease/src/board.rs:331-348 | A call on one session leaves every other, the mute and, but for a "not now", the refusals as they were, and answers with that session's status. |
| `BoardEffects.RemoveAndUnmute` | crates/agent-lease/src/board.rs:172-174 | Unmuting ends the mute and only that; ending a session (lines 327-329) forgets its lease and only that. |
| `RequestEffects.ReleaseAchieves` | crates/agent-lease/src/board.rs:431-449 | The next in turn holds if the party held, and the party is out of line if it waited; nobody else moves. |
| `RequestEffects.ForgetAchieves` | crates/agent-lease/src/board.rs:514-524 | The party is on no session, the next in turn holds where it held, and every session it was on is answered for. |
| `RequestEffects.YieldAchieves` | crates/agent-lease/src/board.rs:214-251 | Every case of giving way: to nobody in line; by a person alone, by one somebody takes over from, by one taking over, and by one with no place. |
| `RequestEffects.MutedIs` | crates/agent-lease/src/board.rs:127-133 | A mute until an instant ends then, and one until the person is idle lasts while a person holds any session or is about to. |
| `RequestEffects.TurnedAwayUntil` | crates/agent-lease/src/board.rs:137-161 | The refusal says what is left of the mute, or until the session is due to change, or what is left of the "not now"; the mute comes first; the agent leaves the line and nobody else moves. |
| `RequestEffects.NotNowAchieves` | crates/agent-lease/src/board.rs:179-193 | The agent waits for nothing there any more, and the answer stands for exactly a minute, for that agent and that session only. |
| `RequestEffects.MuteAchieves` | crates/agent-lease/src/board.rs:285-309 | Where a person holds or is about to, every agent leaves the line, persons stay as they stood, and the session is answered for iff an agent waited; nothing moves anywhere else. |
| `RequestEffects.RequestsInOrder` | crates/agent-lease/src/board.rs:256-282 | The requests to a person on a session are the agents in line, once each, the one that has waited longest since it first asked first. |
| `RequestEffects.MuteAnswers` | crates/agent-lease/src/board.rs:285-309 | A mute answers once for each of them, in that order: its wait is cancelled, and the line shown is shorter by one each time. |
| `BoardRuns.CallKept` | crates/agent-lease/src/board.rs:360-551 | Every call but the removal of a session leaves it at rest, owes a release whenever its grant changes, and moves its idle clock only for the holder's input. |
| `BoardRuns.AlwaysAtRest` | crates/agent-lease/src/board.rs:554-568 | In every run, between calls, no lease is handing over or running a disconnect grace. |
| `BoardRuns.GrantsEndOnce` | crates/agent-lease/src/board.rs:327-329 | Between removals of a session, a grant that ended never holds it again. |
| `BoardRuns.ReleaseBetweenHolders` | crates/agent-lease/src/lib.rs:41-47 | If different grants hold a session at two points of a run, some call between them returned a required release for it. |
| `BoardRuns.ReleaseBetweenDrivers` | crates/agent-lease/src/board.rs:451-510 | Between two inputs let through under different grants some call, the second input's own answer included, returned a required release. |
| `BoardRuns.IdleClockStands` | crates/agent-lease/src/board.rs:375-377 | Asks, status calls and renewals never move the idle clock of a grant. |
| `BoardRuns.OnlyInputKeepsALease` | crates/agent-lease/src/board.rs:375-377 | Two successive inputs let through under one grant are less than the person's or the agent's own idle limit apart, whatever else is called between. |
| `Geometry.IntersectExact` | crates/remote-core/src/geometry.rs:44-54 | Overlapping with a rectangle that fits is exact for one that fits and empty for one whose far edge wraps. |
| `Geometry.UnionExact` | crates/remote-core/src/geometry.rs:30-43 | The union of two rectangles that fit is the smallest that holds both. |
| `Bitmask.WithBitExact` | crates/agent-perception/src/coverage.rs:268-274 | Setting one of 256 bits in four words sets that bit and no other. |
| `CoverageMarks.TouchedExactly` | crates/agent-perception/src/coverage.rs:167-174 | A tile is in the touched range exactly when it holds a touched pixel. |
| `CoverageMarks.CoveredMeans` | crates/agent-perception/src/coverage.rs:26-38 | A pixel is covered iff some write reached it after which no stale mark touched its tile. |
| `Coverages.Coverage.constructor` | crates/agent-perception/src/coverage.rs:177-187 | A fresh grid has an empty history. |
| `Coverages.Coverage.Reset` | crates/agent-perception/src/coverage.rs:198-200 | A reset forgets everything. |
| `Coverages.Coverage.FillTile` | crates/agent-perception/src/coverage.rs:262-281 | The part's pixels and no others join the tile's mask, and the answer is whether the whole tile is there; short edge tiles included. |
| `Coverages.Coverage.Mark` | crates/agent-perception/src/coverage.rs:240-260 | Whatever the loops do to tiles and masks, they mean the history with one more mark. |
| `Coverages.Coverage.MarkWritten` | crates/agent-perception/src/coverage.rs:231-233 | One more write mark. |
| `Coverages.Coverage.MarkStale` | crates/agent-perception/src/coverage.rs:236-238 | One more stale mark. |
| `Coverages.Coverage.MarkCopied` | crates/agent-perception/src/coverage.rs:291-297 | A copy counts as a write exactly when every tile its source touches is written, and as stale otherwise. |
| `Coverages.Coverage.TileMeans` | crates/agent-perception/src/coverage.rs:21-42 | After any run of marks a tile is written iff every on-screen pixel of it is covered, else stale iff a stale mark ever touched it, else never written. |
| `CoverageTiles.PartTileOk` | crates/agent-perception/src/coverage.rs:246-257 | A part that completes the tile makes it written, one that does not leaves it as it was with exactly the covered pixels in its mask. |
| `Coverages.Coverage.StateOfRegion` | crates/agent-perception/src/coverage.rs:313-328 | The three counts are the numbers of touched tiles, and complete means every touched tile is written. |
| `Coverages.Coverage.IsPrimed` | crates/agent-perception/src/coverage.rs:308-310 | Primed iff no tile was never written. |
| `Coverages.Coverage.StaleRegions` | crates/agent-perception/src/coverage.rs:330-391 | The list is the one tiling of the touched tiles that are not written, and it is refused if and only if that tiling has more than 256 rectangles. |
| `OneTiling.OnlyOneTiling` | crates/agent-perception/src/coverage.rs:330-391 | Blocks whose rows are maximal runs of one state within the region, in scan order, holding every bad tile, none continuing the one before: a region has exactly one such list. |
| `OneTiling.MergedExactly` | crates/agent-perception/src/coverage.rs:337-378 | Of two alike runs, one right above the other, both are in one rectangle if and only if the scan meets no bad tile between them. |
| `OneTiling.TwoColumnsAreNotMerged` | crates/agent-perception/src/coverage.rs:337-339 | A concrete screen where two alike runs, one right above the other, are not merged. |
| `OneTiling.Finish` | crates/agent-perception/src/coverage.rs:343-387 | From wherever the scan has come, it can be finished to a tiling and never takes a rectangle back, so a list that is too long part of the way is too long at the end. |
| `StaleTilings.RunListed` | crates/agent-perception/src/coverage.rs:351-386 | One more maximal run, merged downwards or listed anew, keeps the tiling as far as the scan has come. |
| `StaleTilings.TilingInPixels` | crates/agent-perception/src/coverage.rs:330-339 | In pixels a tiling is disjoint rectangles of the screen that hold exactly the pixels of the touched tiles that are not written, each with the one reason of all of them. |
| `Mirrors.Mirror.constructor` | crates/agent-perception/src/mirror.rs:265-277 | An opaque black picture that nothing vouches for. |
| `Mirrors.Mirror.BlitRgba` | crates/agent-perception/src/mirror.rs:464-490 | Row by row, clipped, a short block stopping at its last complete row; the cells marked are exactly those that differ afterwards. |
| `Mirrors.Mirror.CopyRectInPlace` | crates/agent-perception/src/mirror.rs:492-538 | The in-place copy, overlapping or not, is the copy of every pixel at once; the cells marked are exactly those that differ. |
| `Mirrors.Mirror.BlitImage` | crates/agent-perception/src/mirror.rs:406-423 | A decoded image fills its part of the rectangle whatever its line length. |
| `Mirrors.Mirror.ApplyOne` | crates/agent-perception/src/mirror.rs:377-462 | Every payload: pixels, coverage mark and changed cells, short and undecodable payloads and control messages included. |
| `Mirrors.Mirror.Apply` | crates/agent-perception/src/mirror.rs:353-375 | A whole update in order; the area is that of the cells it counted, at least the pixels that differ, at most the screen, and 0 only when the picture is as it was. |
| `Mirrors.Mirror.SetSize` | crates/agent-perception/src/mirror.rs:328-351 | Overlapping pixels are kept, coverage is not, and a resize to the same size does nothing. |
| `ChangedCellGrid.ChangedCells.MarkRect` | crates/agent-perception/src/mirror.rs:165-181 | Exactly the cells of the rectangle's on-screen pixels are marked. |
| `ChangedCellGrid.ChangedCells.CompareRow` | crates/agent-perception/src/mirror.rs:183-208 | Exactly the cells in which the two rows differ are marked. |
| `ChangedCellGrid.ChangedCells.Area` | crates/agent-perception/src/mirror.rs:210-252 | The pixels of the marked cells when they are sparse in their box, the whole box otherwise. |
| `Repainting.ChangeIsCounted` | crates/agent-perception/src/mirror.rs:353-375 | Every pixel an update leaves different lies in a cell it counted. |
| `Repainting.AreaNeverUnderReports` | crates/agent-perception/src/mirror.rs:360-375 | The area is at least the number of pixels that differ, at most the screen, and nothing means the picture is unchanged. |
| `ReportedArea.AreaReportsExactly` | crates/agent-perception/src/mirror.rs:360-367 | The area is that of the cells in which a pixel now differs if and only if every counted cell is one of them and they are fewer than a fifth of the box around them, or all of it. |
| `ReportedArea.CountedExactly` | crates/agent-perception/src/mirror.rs:353-462 | A cell is counted iff some rectangle of the update leaves a pixel of it different, or holds one and is a short block, an image that does not decode, or video. |
| `ReportedArea.AreaIs` | crates/agent-perception/src/mirror.rs:210-252 | The area is the pixels of the counted cells when five times as many are fewer than the cells of the smallest box around them, and of all of the box's cells otherwise. |
| `ReportedArea.ComparableAreaIsExact` | crates/agent-perception/src/mirror.rs:360-367 | For rectangles that can all be compared and do not overlap, every counted cell is one of them, so only the box decides. |
| `ReportedArea.ChangedBackIsReported` | crates/agent-perception/src/mirror.rs:360-367 | A concrete update that changes a pixel and changes it back, and reports an area of one. |
| `Repainting.ResendCountsForNothing` | crates/agent-perception/src/mirror.rs:362-367 | A resend of what the mirror already holds counts for nothing. |
| `MirrorTruth.StaysTruthful` | crates/agent-perception/src/mirror.rs:377-462 | A well-formed rectangle keeps every covered pixel equal to the server's. |
| `MirrorTruth.TruthNeedsExactly` | crates/agent-perception/src/mirror.rs:406-441 | A rectangle keeps every truthful mirror truthful iff a JPEG reaches as far as its rectangle is on the screen and a copy's source is on the screen as far as its destination is. |
| `MirrorTruth.SmallJpegLies` | crates/agent-perception/src/mirror.rs:406-423 | A concrete JPEG smaller than its rectangle after which a mirror vouches for a pixel that is not the server's. |
| `MirrorTruth.OffScreenCopyLies` | crates/agent-perception/src/coverage.rs:291-297 | A concrete copy from off the screen after which it does. |
| `MirrorTruth.MirrorNeverLies` | crates/agent-perception/src/lib.rs:45 | Over every sequence of updates and resizes, every pixel the coverage vouches for is the server's. |
| `MirrorEffects.CoversExactly` | crates/agent-perception/src/mirror.rs:377-462 | A pixel is covered after a rectangle iff nothing was to be drawn and it was; or the payload arrived (a whole block, a decoded image, a copy of what is vouched for) and reaches it or it was; or the payload was lost, reaches into no part of its tile, and it was. |
| `MirrorEffects.DrawsExactly` | crates/agent-perception/src/mirror.rs:377-462 | Where the picture stands as it was, and what a copy shows. |
| `MirrorEffects.BlockDraws` | crates/agent-perception/src/mirror.rs:464-490 | A row of a block is drawn, with its own pixels, iff its part on the screen arrived. |
| `MirrorEffects.ImageDraws` | crates/agent-perception/src/mirror.rs:406-423 | An image is drawn from the corner of its rectangle as far as both reach. |
| `MirrorEffects.TileStates` | crates/agent-perception/src/coverage.rs:21-42 | A tile is written exactly while every on-screen pixel of it is covered, else stale once a lost rectangle reached into it, else never written. |
| `MirrorEffects.StaleOnceLost` | crates/agent-perception/src/coverage.rs:235-238 | A rectangle makes a tile stale iff something was to be drawn, its payload was lost, and it reaches into the tile. |
| `MirrorEffects.ListTells` | crates/agent-perception/src/coverage.rs:330-391 | A listing has at most 256 rectangles, and a pixel is in one as never painted, or as passed over, iff its tile belongs to the region, is not whole, and no lost rectangle, or one, ever reached into it. |
| `MirrorEffects.PrimingTells` | crates/agent-perception/src/mirror.rs:673-700 | Priming is said when no lost rectangle reached into any tile of the region that is not whole, with the number of its tiles and of those not whole; a listing is refused for its length when the tiling has more than 256 rectangles. |
| `MirrorEffects.ResizesExactly` | crates/agent-perception/src/mirror.rs:328-351 | The same size keeps the picture and everything covered; another keeps the pixels both sizes have, is black elsewhere, and covers nothing. |
| `MirrorEffects.RepaintRedeems` | crates/agent-perception/src/coverage.rs:28-33 | After an update of which nothing was lost, a read of a region is complete iff every on-screen pixel of the region's tiles is redrawn by it or was covered, whatever was lost before. |
| `MirrorTruth.ReadsAreTrue` | crates/agent-perception/src/coverage.rs:120-132 | A complete answer is true at every pixel of the region, a partial one everywhere outside its stale regions. |
| `Mirrors.CropRgba` | crates/agent-perception/src/encode.rs:117-137 | The crop is the clipped rectangle, pixel for pixel. |
| `Mirrors.Mirror.CoverageOf` | crates/agent-perception/src/mirror.rs:673-700 | Complete iff every touched tile is written, refused for its length iff the one tiling has more than 256 rectangles; else that tiling, or priming iff nothing is stale, or stale, with the true figures. |
| `Mirrors.Mirror.ReadScreen` | crates/agent-perception/src/mirror.rs:545-671 | Fence, then bounds, then coverage, then pixels; a refusal moves no cursor, and an answered change read moves only its reader's. |
| `Reads.OneCoverageAnswer` | crates/agent-perception/src/mirror.rs:673-700 | The history, the region and the policy leave one coverage answer. |
| `Reads.OneAnswer` | crates/agent-perception/src/mirror.rs:545-671 | The mirror, the log, the request and the encoder leave one answer. |
| `Reads.ShownExactly` | crates/agent-perception/src/mirror.rs:545-671 | A read shows the screen iff its fence is current, its region lies on the screen, a change read has a change to show, the region is whole or taken annotated and the annotation is not too long, and the encoder succeeds; it says unchanged iff it is in order with no change to show. |
| `Reads.ShowsWhatWasAsked` | crates/agent-perception/src/mirror.rs:545-671 | A frame is the whole screen, a region the region asked for, a change part of the screen holding what it lists, or degraded and all of it with everything that changed. |
| `Reads.ShowsTheChange` | crates/agent-perception/src/mirror.rs:588-620 | A change that is not degraded shows the smallest rectangle holding every listed change with its margin, within the limit, and counts the changes on the screen it does not list. |
| `Reads.OutOfOrderSays` | crates/agent-perception/src/mirror.rs:552-583 | An old geometry is refused before anything else, with both numbers; a region that is empty or off the screen is, with the screen's size. |
| `Reads.RefusedKeepsItsDamage` | crates/agent-perception/src/mirror.rs:588-645 | An answered change read leaves its reader nothing to look at and every other reader what it had; a refused one, and every other read, leaves everybody what they had. |
| `Reads.AnswersAreTrue` | crates/agent-perception/src/mirror.rs:545-671 | Every pixel of an answered image that the answer does not list as stale is the server's. |
| `Reads.EndToEnd` | crates/agent-perception/src/lib.rs:45 | From allocation, through every run of updates and resizes, to a read: whatever the answer does not list as stale is what the server shows then. |
| `DamageLogs.DamageLog.Record` | crates/agent-perception/src/damage.rs:147-188 | Every rectangle that is not empty joins the history in order, the oldest leave, and the bounding box and count are reported. |
| `DamageLogs.DamageLog.Subscribe` | crates/agent-perception/src/damage.rs:195-197 | A reader starts at the head, and asking twice does not rewind it. |
| `DamageLogs.DamageLog.Forget` | crates/agent-perception/src/damage.rs:199-201 | A forgotten reader has no cursor. |
| `DamageLogs.DamageLog.Peek` | crates/agent-perception/src/damage.rs:204-207 | What a reader missed, without consuming it. |
| `DamageLogs.DamageLog.Take` | crates/agent-perception/src/damage.rs:213-217 | The same, and that reader caught up. |
| `DamageLogs.DamageLog.Advance` | crates/agent-perception/src/damage.rs:224-227 | Forward only, and never past the head. |
| `DamageLogs.DamageLog.DeltaFrom` | crates/agent-perception/src/damage.rs:229-253 | The held rectangles from the cursor on, how many had left, and how many updates began there. |
| `DamageMachine.BoundingBoxExact` | crates/agent-perception/src/damage.rs:90-100 | The box holds every rectangle and is the smallest that does. |
| `DamageMachine.OneCallSettles` | crates/agent-perception/src/damage.rs:219-227 | One call moves a reader's cursor past exactly what it settled for that reader, never for another's sake. |
| `DamageMachine.DamageIsConserved` | crates/agent-perception/src/damage.rs:60-83 | For any interleaving, everything from a reader's cursor on is settled once, in order, delivered as recorded or counted as dropped, or is exactly what the next look reports. |
| `DamageMachine.TakingSkipsNothing` | crates/agent-perception/src/damage.rs:209-217 | A reader that only takes is never skipped over. |
| `DamageMachine.DroppedWasGone` | crates/agent-perception/src/damage.rs:63-69 | Only what had left the log is reported as dropped. |
| `DamageMachine.StrangersStartAtTheHead` | crates/agent-perception/src/damage.rs:190-207 | A reader that has not registered misses nothing and is registered by its first take. |
| `DamageMachine.ForgettingIsForOne` | crates/agent-perception/src/damage.rs:199-201 | A forgotten reader is a stranger again, every other keeps what it was owed, and nothing leaves the log. |
| `DamageMachine.RecordAppends` | crates/agent-perception/src/damage.rs:147-188 | An update appends its rectangles that are not empty, as they came, and begins where the history ended; no cursor moves. |
| `CropPlanner.ExpandExact` | crates/agent-perception/src/damage.rs:369-382 | The margin is exactly the framebuffer pixels within it. |
| `CropPlanner.LivePixels` | crates/agent-perception/src/damage.rs:330-334 | The clipped rectangles hold exactly the changed pixels on the framebuffer. |
| `CropPlanner.LargestFirstSorts` | crates/agent-perception/src/damage.rs:338 | A permutation in descending order of area. |
| `StableSort.SortIsStable` | crates/agent-perception/src/damage.rs:338 | Equal keys keep their order. |
| `CropPlanner.PlanChangeCrop` | crates/agent-perception/src/damage.rs:323-367 | Nothing iff nothing changed on screen; degraded iff the largest change with its margin alone exceeds the limit; else the smallest rectangle around the margins of the listed changes, on screen and under the limit: the largest, and of the others in order of size each that fitted at its turn; listed and left out together are all that changed, and nothing left out could still be added. |
| `CropPlanner.OnePlan` | crates/agent-perception/src/damage.rs:323-367 | The changes, the margin and the limit leave one plan. |
| `CropPlanner.GivesUpExactly` | crates/agent-perception/src/damage.rs:338-349 | Nothing to read iff nothing changed; given up iff the first of the largest changes is over the limit with its margin, with that area; else that change is listed first. |
| `CropPlanner.CropHoldsAllItCan` | crates/agent-perception/src/damage.rs:350-366 | A crop is on the screen and within the limit, holds every listed change with its margin, and every change not listed would take it over the limit. |
| `DamageMachine.UpdatesExactly` | crates/agent-perception/src/damage.rs:70-73 | A delta's update count is the number of updates its rectangles came from iff none began at or after the cursor, or as many of those were empty as updates were cut by it. |
| `DamageMachine.NextLookCountsExactly` | crates/agent-perception/src/damage.rs:238-246 | So it is for any reader's next look after every run on an empty log. |
| `DamageMachine.EmptyUpdatesAreCounted` | crates/agent-perception/src/damage.rs:238-246 | A concrete run after which a reader's next look reports two updates and its one rectangle came from one. |
| `Lowering.LineIsMonotone` | crates/agent-plane/src/lowering.rs:702-719 | The points start and end at the ends, stay between them on each axis and never turn back. |
| `Lowering.AlongIsNearest` | crates/agent-plane/src/lowering.rs:704-707 | Each point is within half a pixel of the exact line. |
| `Lowering.SymmetricExactly` | crates/agent-plane/src/lowering.rs:704-707 | Dragging back goes through the same point if and only if the exact point is not half way between two pixels. |
| `Lowering.HalfWayIsNotSymmetric` | crates/agent-plane/src/lowering.rs:704-707 | From 0 to 1 in two steps and back: two different points half way. |
| `Lowering.LowerDrag` | crates/agent-plane/src/lowering.rs:626-700 | Refused without a pointer or off screen; else arrive, press, the points, the target, release, each awaited. |
| `Lowering.DragPlanIs` | crates/agent-plane/src/lowering.rs:608-619 | Where the pointer is, how each command is marked and how long it pauses; from the second command to the last but one the drag's own bit of the mask is set and every other is as it was, and before and after the mask is the resting one. |
| `Lowering.DragStaysAdmitted` | crates/agent-plane/src/lowering.rs:203-206 | Every point of a drag between admitted ends is admitted. |
| `Dispatching.Limb.Send` | crates/agent-plane/src/dispatch.rs:1588-1659 | Sent, shed, blocked or gone by policy and channel, and remembered only when sent. |
| `Dispatching.Limb.WalkPlan` | crates/agent-plane/src/dispatch.rs:798-843 | The step loop: cancellation, lease, channel and pause, in that order, for every command. |
| `Dispatching.Limb.Actuate` | crates/agent-plane/src/dispatch.rs:845-950 | The owed release follows a cut drag, and the settlement gives the outcome, what went, was shed and was dropped, and whether it counts as input. |
| `DragSafety.SentIsPrefix` | crates/agent-plane/src/dispatch.rs:759-766 | What goes out of a plan that is never shed is a prefix of it: nothing skipped, nothing reordered. |
| `DragSafety.NothingGoesAfter` | crates/agent-plane/src/dispatch.rs:798-811 | From the first command before which a plan is cancelled or loses the lease, nothing more goes out and nothing more is claimed. |
| `DragSafety.EverythingGoes` | crates/agent-plane/src/dispatch.rs:798-818 | While nothing stops a plan, every command goes, in order. |
| `DragSafety.CountsAreWhatWent` | crates/agent-plane/src/dispatch.rs:368-401 | The commands, code points and drag points a settlement counts are those that went, as far as the counters reach. |
| `DragSafety.NoButtonLeftHeld` | crates/agent-plane/src/dispatch.rs:845-874 | For every cut the pointer ends at the last coordinate delivered, and with the resting mask iff the button was not down, or the repair went, or it was down before. |
| `DragSafety.OutcomeIsHonest` | crates/agent-plane/src/dispatch.rs:885-945 | A drag is reported as delivered iff every command went, refused iff it was blocked before any did, and counts as input iff it needs the lease and any command went. |
| `DragSafety.SettlementNamesTheDrop` | crates/agent-plane/src/dispatch.rs:386-393 | The settlement names the drop point iff a release was owed or that point is the origin. |
| `DragSafety.WholeDragNamesTheOrigin` | crates/agent-plane/src/dispatch.rs:386-393 | A concrete uninterrupted drag to (9, 9) that settles as released at (0, 0). |
| `WalkSafety.GoesOnExactly` | crates/agent-plane/src/dispatch.rs:798-843 | A plan of any kind goes on iff nothing stopped it so far: no cancellation, lease or channel at a command, no cancellation in a pause. |
| `WalkSafety.StopsExactly` | crates/agent-plane/src/dispatch.rs:798-843 | It stops at the first command something stops it at, for the reason there; what went is exactly the commands before it that found room, in order, and every other was shed. |
| `WalkSafety.SettlementCounts` | crates/agent-plane/src/dispatch.rs:368-401 | What a plan that is no drag settles with: the code points that went, or how many commands did, what was shed, what never went, and the outcome by what stopped it. |
| `VncAuth.BitsOf` | tools/limbs/rfb_probe.py:79-84 | The loop gives the bits, high bit first. |
| `VncAuth.BytesOf` | tools/limbs/rfb_probe.py:87-94 | The loop gives the bytes, a short last one included. |
| `VncAuth.ScheduleKeys` | tools/limbs/rfb_probe.py:98-106 | The sixteen round keys. |
| `VncAuth.DesEncryptBlock` | tools/limbs/rfb_probe.py:97-124 | The two loops compute the cipher. |
| `Des.FromBitsInvertsBits` | tools/limbs/rfb_probe.py:79-94 | `_frombits` inverts `_bits`. |
| `Des.BitsInvertsFromBits` | tools/limbs/rfb_probe.py:79-94 | `_bits` inverts `_frombits` on whole bytes. |
| `Des.FinalThenInitial` | tools/limbs/rfb_probe.py:52-55 | The final and initial permutations are inverse, both ways. |
| `Des.RoundsUndo` | tools/limbs/rfb_probe.py:110-122 | The rounds run back with their keys in reverse. |
| `Des.ReversedKeysDecrypt` | tools/limbs/rfb_probe.py:97-124 | Whatever the round keys, the cipher under them in reverse undoes it. |
| `Des.DecryptInvertsEncrypt` | tools/limbs/rfb_probe.py:97-124 | Under every key the block function is invertible. |
| `Des.EncryptComplements` | tools/limbs/rfb_probe.py:97-124 | A complemented block under a complemented key gives the complement (FIPS 46-3). |
| `DesDigits.SubstitutedIs` | tools/limbs/rfb_probe.py:114-118 | What a box makes of six bits is the entry of its table at the row of the outer two and the column of the inner four. |
| `DesDigits.RoundIs` | tools/limbs/rfb_probe.py:110-122 | One round, digit by digit, in the positions the standard prints. |
| `DesDigits.KeyIs` | tools/limbs/rfb_probe.py:98-106 | One round key, digit by digit, in the positions the standard prints. |
| `DesAnswers.UpperRowsOfBox1` | tools/limbs/rfb_probe.py:59-61 | What the first box makes of eight chunks, bit for bit; the other boxes have the same. |
| `DesAnswers.LowerRowsOfBox1` | tools/limbs/rfb_probe.py:59-61 | And of eight chunks that start with a one. |
| `DesAnswers.KnownAnswer` | tools/limbs/rfb_probe.py:97-124 | The block 0123456789ABCDEF under the key 133457799BBCDFF1 is 85E813540F0AB405, proved round by round; the sixteen rounds take every row of every box. |
| `VncAuth.KnownResponse` | tools/limbs/rfb_probe.py:127-131 | A password whose first eight bytes are that key's, each backwards, answers either half of a challenge that is that block with that answer, in its own half. |
| `VncAuth.ShortPasswordsEndInZeros` | tools/limbs/rfb_probe.py:127-131 | A password shorter than eight bytes answers as the same with a zero byte after it. |
| `VncAuth.AnswersTellChallengesApart` | tools/limbs/rfb_probe.py:127-131 | Two challenges get one answer iff they are one challenge. |
| `VncAuth.OnlySevenBitsOfEightBytesCount` | tools/limbs/rfb_probe.py:127-131 | Passwords alike in the low seven bits of their first eight bytes answer alike. |
| `ImageSpaces.CoordinateRoundTrip` | crates/agent-perception/src/transform.rs:72-129 | A pixel of the image names a screen pixel that names it back if and only if that is inside the region, and exactly when it is. |
| `ImageSpaces.RefusedExactly` | crates/agent-perception/src/transform.rs:72-129 | An image pixel is refused iff it is not one of the image, a screen pixel iff it is not one of the region. |
| `ImageSpaces.HalfABoxAway` | crates/agent-perception/src/transform.rs:95-129 | The other way, for every pixel of a side: past it by at most half a source box and half a pixel of the image, and short of it by at most that, or, where the image runs out, by half a pixel and what the image is short of its scaled side. |
| `ImageSpaces.NeverRunsOut` | crates/agent-perception/src/transform.rs:121-124 | No pixel of a side runs out of image if and only if the image is short of the scaled side by less than half a source box. |
| `ImageSizes.DownscaledIs` | crates/agent-perception/src/encode.rs:139-179 | The image is no wider than its region, has a pixel each way, and is short of the scaled height by at most half a pixel. |
| `ImageSizes.NoSmallerThanAsked` | crates/agent-perception/src/encode.rs:139-179 | An image within the long edge both ways is sent as it is, and one no taller than wide otherwise fills it. |
| `ImageSizes.SentImagesAreNear` | crates/agent-perception/src/encode.rs:148-153 | Of every image sent of a region, every screen pixel of the region has a pixel, which stands for a screen pixel within half a source box and half a pixel across and within one pixel of the image down. |
| `ImageSizes.BottomRowRunsOut` | crates/agent-perception/src/transform.rs:121-124 | A concrete 3440 by 1440 screen, sent as 1456 by 609, whose bottom row comes back two rows higher, further off than half a source box and half a pixel. |
| `ImageSizes.LongEdgeExactly` | crates/agent-perception/src/encode.rs:139-147 | No edge of the image exceeds the long edge iff the region is no taller than wide or its width was not rounded up too far. |
| `ImageSizes.LongEdgeExceeded` | crates/agent-perception/src/encode.rs:162-167 | A concrete strip of 10 by 4000 sent as 4 by 1600 for a long edge of 1456. |
| `Reads.AnswersNamePixels` | crates/agent-perception/src/mirror.rs:622-660 | Every screen pixel in the region of an answer has a pixel of its image that stands for a screen pixel near it. |
| `ImageSpaces.UnscaledIsExact` | crates/agent-perception/src/transform.rs:17-21 | At scale 1 the way back is the identity. |
| `Calendar.NextCivil` | src-tauri/src/logging.rs:174-183 | The formula gives a valid date, and for the next day the next date. |
| `Calendar.FastIsSlow` | src-tauri/src/logging.rs:174-183 | For every day from 1970-01-01 the division formula is the Gregorian calendar stepped day by day. |
| `Calendar.StampsFollowTime` | src-tauri/src/logging.rs:171-190 | A later second has a later stamp, so no two share one. |
| `Calendar.StampTellsTheSecond` | src-tauri/src/logging.rs:171-190 | The stamp of a time of day so many days after the epoch is that time, and the date of the calendar that many days on. |

## Left out

- Text carried along: labels, reasons, limb names, refusal sentences and the shapes things are serialised in. Error constructors keep their retry numbers.
- `Lease::new` refusing a shared mode, and `view_for`, which reads one party's position off the same state.
- The lease counter is unbounded here; the original counts to 2^64.
- Boards.Board.TickAll: returns the answers by session, so the order of the sessions in the original's list is not captured.
- Boards.Board.ForgetParty: returns the answers by session, for the same reason.
- Boards.Board.Mute: returns the answers by session, for the same reason; within one session they keep their order, oldest request first.
- `not_now_all` and the public list of requests: the first is `NotNow` called for each request, the second is what `Mute` drops.
- Pixels are one value each rather than four bytes, so a payload cut in the middle of a pixel is not modelled apart from one cut before it.
- JPEG decoding is what a payload carries, decoded or not, with as many pixels as its size says; the codec is not part of this model.
- Mirrors.Mirror.ReadScreen: the image's size, scale and coordinates are those it is sent with, its pixels are stated before downscaling and encoding; whether the encoder succeeds is an argument, and so is the number of pixels a crop may have, which the original takes from a share of the screen in floating point.
- Perception signals, screen facts and `layout_changed`, which assigns two fields; the mirror slot and its budget.
- DamageLogs.DamageLog.Record: the share of the screen it reports beside the box and the count is floating point and is left out; sequence numbers are unbounded.
- CropPlanner.PlanChangeCrop: reports the area of a degraded plan rather than its share of the screen.
- `send_step`'s waiting and polling: a channel has room, stays full until the deadline or is closed, as the environment chooses, and checking the lease and sending are one step. Other plans than drags are walked by the same loop but not lowered here; `coalesce_settings` leaves a drag alone.
- Dispatching.Limb.Send: the waiting, the reserve and the deadline of the original's send are one choice of the environment.
- Dispatching.Limb.Actuate: the bytes of what was dropped, the time spent waiting and the wording of a refusal; who superseded the plan; and the call on the lease that its `notesIntent` stands for.
- Another dispatch changing the limb's resting mask during a walk: nothing in the original does.
- VncAuth.DesEncryptBlock: blocks and keys of other lengths, on which the original indexes past the end.
- Scales and coordinates are exact reals; f64 rounding is not modelled. A scale above 1 is outside the round trip, since the original only ever downscales.
- The text of a stamp: only its fields are modelled.
- Windows, menus, user interface, sockets, grants, thumbnails, host names and the Python measurement tools other than DES: glue or one-branch arguments.
