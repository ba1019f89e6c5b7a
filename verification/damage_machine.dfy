/** The damage history and its readers as values
    (crates/agent-perception/src/damage.rs:56-263), and what a run of calls
    delivers to each reader. */
module DamageMachine {
  import opened Geometry

  type ReaderId = nat

  /** A look at the log: the rectangles still held, how many had left, the updates
      counted, and how far it reaches. */
  datatype DamageDelta = DamageDelta(rects: seq<Rect>, dropped: nat, updates: nat, through: nat)

  /** Everything ever recorded, where each update began, and how far each reader
      has got. The log itself holds only the last `capacity` rectangles. */
  datatype LogState = LogState(
    history: seq<Rect>, starts: seq<nat>, cursors: map<ReaderId, nat>, capacity: nat)
  {
    /** Where the rectangles that have not left begin. */
    function First(): nat {
      if |history| > capacity then |history| - capacity else 0
    }

    predicate Ok() {
      && capacity >= 1
      && (forall r :: r in cursors ==> cursors[r] <= |history|)
    }

    function CursorOf(reader: ReaderId): nat {
      if reader in cursors then cursors[reader] else |history|
    }

    /** Updates begun at or after `from`, or one when there is none and the last of
        them reaches past `from`. */
    function Updates(from: nat): nat {
      var counted := CountFrom(starts, from);
      if counted == 0 && from < |history| then 1 else counted
    }

    function DeltaFrom(cursor: nat): DamageDelta
      requires cursor <= |history|
    {
      var from := Max(cursor, First());
      DamageDelta(history[from..], Max(First() - cursor, 0), Updates(from), |history|)
    }

    function Peek(reader: ReaderId): DamageDelta
      requires Ok()
    {
      DeltaFrom(CursorOf(reader))
    }

    function Record(rects: seq<Rect>): LogState {
      this.(history := history + NonEmpty(rects), starts := starts + [|history|])
    }

    function Subscribe(reader: ReaderId): LogState {
      if reader in cursors then this else this.(cursors := cursors[reader := |history|])
    }

    function Forget(reader: ReaderId): LogState {
      this.(cursors := cursors - {reader})
    }

    /** The cursor moved to `through`, within the history and never backwards. */
    function Advance(reader: ReaderId, through: nat): LogState {
      var cursor := if reader in cursors then cursors[reader] else 0;
      this.(cursors := cursors[reader := Max(cursor, Min(through, |history|))])
    }

    function Take(reader: ReaderId): LogState
      requires Ok()
    {
      Advance(reader, Peek(reader).through)
    }
  }

  function CountFrom(starts: seq<nat>, from: nat): nat {
    if starts == [] then 0
    else CountFrom(starts[..|starts| - 1], from) + (if starts[|starts| - 1] >= from then 1 else 0)
  }

  function NonEmpty(rects: seq<Rect>): seq<Rect> {
    if rects == [] then []
    else NonEmpty(rects[..|rects| - 1]) + (if rects[|rects| - 1].IsEmpty() then [] else [rects[|rects| - 1]])
  }

  /** The smallest rectangle around all of them. */
  function BoundingBox(rects: seq<Rect>): Rect {
    if rects == [] then EMPTY else Union(BoundingBox(rects[..|rects| - 1]), rects[|rects| - 1])
  }

  /** When every rectangle fits, the box holds them all, and any rectangle that
      holds them all holds the box. */
  lemma {:induction false} BoundingBoxExact(rects: seq<Rect>, outer: Rect)
    requires forall r :: r in rects ==> r.Fits() && !r.IsEmpty()
    ensures BoundingBox(rects).Fits() && (rects != [] ==> !BoundingBox(rects).IsEmpty())
    ensures forall r :: r in rects ==> r.Within(BoundingBox(rects))
    ensures rects != [] && (forall r :: r in rects ==> r.Within(outer)) ==> BoundingBox(rects).Within(outer)
  {
    if rects != [] {
      var before, last := rects[..|rects| - 1], rects[|rects| - 1];
      assert rects == before + [last];
      BoundingBoxExact(before, outer);
      if before != [] {
        UnionExact(BoundingBox(before), last, outer);
      }
    }
  }

  // ---------------------------------------------------------------- counting updates

  /** Updates with a rectangle at or after `from`: those the rectangles of a delta
      came from. `end` is where the last of them ends. */
  function Contributing(starts: seq<nat>, end: nat, from: nat): nat {
    if starts == [] then 0
    else
      var last := starts[|starts| - 1];
      Contributing(starts[..|starts| - 1], last, from) + (if end > Max(last, from) then 1 else 0)
  }

  /** Updates begun at or after `from` without a rectangle. */
  function EmptyFrom(starts: seq<nat>, end: nat, from: nat): nat {
    if starts == [] then 0
    else
      var last := starts[|starts| - 1];
      EmptyFrom(starts[..|starts| - 1], last, from) + (if last >= from && end == last then 1 else 0)
  }

  /** Updates begun before `from` that reach past it. */
  function CutBy(starts: seq<nat>, end: nat, from: nat): nat {
    if starts == [] then 0
    else
      var last := starts[|starts| - 1];
      CutBy(starts[..|starts| - 1], last, from) + (if last < from < end then 1 else 0)
  }

  predicate Rising(starts: seq<nat>, end: nat) {
    && (forall i, j :: 0 <= i < j < |starts| ==> starts[i] <= starts[j])
    && (forall i :: 0 <= i < |starts| ==> starts[i] <= end)
  }

  lemma {:induction false} EveryUpdateIsOneOf(starts: seq<nat>, end: nat, from: nat)
    requires Rising(starts, end)
    ensures Contributing(starts, end, from) + EmptyFrom(starts, end, from) ==
      CountFrom(starts, from) + CutBy(starts, end, from)
  {
    if starts != [] {
      EveryUpdateIsOneOf(starts[..|starts| - 1], starts[|starts| - 1], from);
    }
  }

  lemma {:induction false} AllBegunBefore(starts: seq<nat>, end: nat, from: nat)
    requires Rising(starts, end) && CountFrom(starts, from) == 0
    ensures EmptyFrom(starts, end, from) == 0
    ensures CutBy(starts, end, from) == if starts != [] && from < end then 1 else 0
  {
    if starts != [] {
      AllBegunBefore(starts[..|starts| - 1], starts[|starts| - 1], from);
    }
  }

  /** A delta's `updates` is the number of updates its rectangles came from if and
      only if none began at or after `from`, or as many of those were empty as
      updates were cut by it. */
  lemma UpdatesExactly(s: LogState, from: nat)
    requires Rising(s.starts, |s.history|) && (s.history != [] ==> s.starts != []) && from <= |s.history|
    ensures s.Updates(from) == Contributing(s.starts, |s.history|, from) <==>
      || CountFrom(s.starts, from) == 0
      || EmptyFrom(s.starts, |s.history|, from) == CutBy(s.starts, |s.history|, from)
  {
    EveryUpdateIsOneOf(s.starts, |s.history|, from);
    if CountFrom(s.starts, from) == 0 {
      AllBegunBefore(s.starts, |s.history|, from);
    }
  }

  // ---------------------------------------------------------------- runs

  datatype Call =
    | RecordCall(rects: seq<Rect>)
    | SubscribeCall(reader: ReaderId)
    | ForgetCall(reader: ReaderId)
    | TakeCall(reader: ReaderId)
    | AdvanceCall(reader: ReaderId, through: nat)

  function Apply(s: LogState, c: Call): LogState
    requires s.Ok()
  {
    match c
    case RecordCall(rects) => s.Record(rects)
    case SubscribeCall(reader) => s.Subscribe(reader)
    case ForgetCall(reader) => s.Forget(reader)
    case TakeCall(reader) => s.Take(reader)
    case AdvanceCall(reader, through) => s.Advance(reader, through)
  }

  lemma ApplyKeepsOk(s: LogState, c: Call)
    requires s.Ok()
    ensures Apply(s, c).Ok()
    ensures s.history <= Apply(s, c).history
    ensures forall r :: r in s.cursors && c != ForgetCall(r) ==> r in Apply(s, c).cursors
  {
  }

  function Run(s: LogState, calls: seq<Call>): (end: LogState)
    requires s.Ok()
    ensures end.Ok() && s.history <= end.history
    decreases |calls|
  {
    if calls == [] then s
    else
      ApplyKeepsOk(s, calls[0]);
      Run(Apply(s, calls[0]), calls[1..])
  }

  /** Updates begin in order, and rectangles only in an update. */
  predicate Dated(s: LogState) {
    Rising(s.starts, |s.history|) && (s.history != [] ==> s.starts != [])
  }

  lemma {:induction false} RunKeepsDated(s: LogState, calls: seq<Call>)
    requires s.Ok() && Dated(s)
    ensures Dated(Run(s, calls))
    decreases |calls|
  {
    if calls != [] {
      ApplyKeepsOk(s, calls[0]);
      RunKeepsDated(Apply(s, calls[0]), calls[1..]);
    }
  }

  /** So after every run on an empty log, a reader's next look counts the updates
      its rectangles came from if and only if none began at or after the oldest
      rectangle it gets, or as many of those were empty as updates were cut there. */
  lemma NextLookCountsExactly(capacity: nat, calls: seq<Call>, reader: ReaderId)
    requires capacity >= 1
    ensures var s := Run(LogState([], [], map[], capacity), calls);
            var from := Max(s.CursorOf(reader), s.First());
            s.Peek(reader).updates == Contributing(s.starts, |s.history|, from) <==>
            || CountFrom(s.starts, from) == 0
            || EmptyFrom(s.starts, |s.history|, from) == CutBy(s.starts, |s.history|, from)
  {
    var empty := LogState([], [], map[], capacity);
    RunKeepsDated(empty, calls);
    var s := Run(empty, calls);
    UpdatesExactly(s, Max(s.CursorOf(reader), s.First()));
  }

  /** A reader registers, one update brings a rectangle and the next none. */
  const ONE_UPDATE_AND_ONE_EMPTY := [SubscribeCall(0), RecordCall([Rect(0, 0, 1, 1)]), RecordCall([])]

  /** An update without a rectangle is counted all the same: the reader's next
      look reports two updates, and its one rectangle came from one. */
  lemma EmptyUpdatesAreCounted()
    ensures var s := Run(LogState([], [], map[], 1), ONE_UPDATE_AND_ONE_EMPTY);
            && s.Peek(0) == DamageDelta([Rect(0, 0, 1, 1)], 0, 2, 1)
            && Contributing(s.starts, |s.history|, 0) == 1
  {
    var c, r := ONE_UPDATE_AND_ONE_EMPTY, Rect(0, 0, 1, 1);
    var registered := LogState([], [], map[0 := 0], 1);
    var recorded := LogState([r], [0], map[0 := 0], 1);
    var s := LogState([r], [0, 1], map[0 := 0], 1);
    assert Apply(registered, c[1]) == recorded by {
      assert [r][..0] == [];
    }
    assert Apply(recorded, c[2]) == s;
    assert c[1..] == [c[1], c[2]] && [c[1], c[2]][1..] == [c[2]];
    assert Run(recorded, [c[2]]) == s && Run(registered, [c[1], c[2]]) == s;
    assert s.starts[..1] == [0] && s.starts[..1][..0] == [];
    assert CountFrom([0], 0) == 1 && CountFrom(s.starts, 0) == 2;
    assert Contributing([0], 1, 0) == 1;
  }

  /** What became of one recorded rectangle, for one reader. */
  datatype Fate = Delivered(rect: Rect) | Dropped | Skipped

  function Times(fate: Fate, n: nat): (fates: seq<Fate>)
    ensures |fates| == n && forall k :: 0 <= k < n ==> fates[k] == fate
  {
    seq(n, _ => fate)
  }

  function DeliveredAll(rects: seq<Rect>): (fates: seq<Fate>)
    ensures |fates| == |rects| && forall k :: 0 <= k < |rects| ==> fates[k] == Delivered(rects[k])
  {
    seq(|rects|, k requires 0 <= k < |rects| => Delivered(rects[k]))
  }

  /** What one call settles for this reader. */
  function Settled(s: LogState, c: Call, reader: ReaderId): seq<Fate>
    requires s.Ok() && reader in s.cursors
  {
    match c
    case TakeCall(r) =>
      if r == reader then
        var delta := s.Peek(reader);
        Times(Dropped, delta.dropped) + DeliveredAll(delta.rects)
      else []
    case AdvanceCall(r, through) =>
      if r == reader then Times(Skipped, Max(Min(through, |s.history|) - s.cursors[reader], 0)) else []
    case _ => []
  }

  predicate NeverForgets(calls: seq<Call>, reader: ReaderId) {
    forall k :: 0 <= k < |calls| ==> calls[k] != ForgetCall(reader)
  }

  /** Everything settled for this reader over a run, in the order it happened. */
  function Ledger(s: LogState, calls: seq<Call>, reader: ReaderId): seq<Fate>
    requires s.Ok() && reader in s.cursors && NeverForgets(calls, reader)
    decreases |calls|
  {
    if calls == [] then []
    else
      ApplyKeepsOk(s, calls[0]);
      Settled(s, calls[0], reader) + Ledger(Apply(s, calls[0]), calls[1..], reader)
  }

  /** Entry `k` says what became of rectangle `from + k`, and is never wrong about
      it. */
  ghost predicate Accounts(ledger: seq<Fate>, history: seq<Rect>, from: nat) {
    && from + |ledger| <= |history|
    && forall k :: 0 <= k < |ledger| && ledger[k].Delivered? ==> ledger[k].rect == history[from + k]
  }

  /** One call moves a reader's cursor past exactly what it settled for that
      reader, and never for another reader's sake. */
  lemma OneCallSettles(s: LogState, c: Call, reader: ReaderId)
    requires s.Ok() && reader in s.cursors && c != ForgetCall(reader)
    ensures reader in Apply(s, c).cursors
    ensures Apply(s, c).cursors[reader] == s.cursors[reader] + |Settled(s, c, reader)|
    ensures Accounts(Settled(s, c, reader), Apply(s, c).history, s.cursors[reader])
    ensures (c.RecordCall? || c.reader != reader) ==> Apply(s, c).cursors[reader] == s.cursors[reader]
  {
    if c == TakeCall(reader) {
      var delta := s.Peek(reader);
      assert |delta.rects| + delta.dropped == |s.history| - s.cursors[reader];
    }
  }

  lemma AccountsTogether(a: seq<Fate>, b: seq<Fate>, early: seq<Rect>, late: seq<Rect>, from: nat)
    requires Accounts(a, early, from) && early <= late && Accounts(b, late, from + |a|)
    ensures Accounts(a + b, late, from)
  {
  }

  /** Conservation. Whatever else happens, and whatever other readers do, the
      ledger of a reader is its cursor's path: every rectangle recorded from its
      cursor on is settled once, in order, delivered as recorded or counted as
      dropped, or is still owed, and what is owed is exactly what the next look
      reports. */
  lemma {:induction false} DamageIsConserved(s: LogState, calls: seq<Call>, reader: ReaderId)
    requires s.Ok() && reader in s.cursors && NeverForgets(calls, reader)
    decreases |calls|
    ensures var end, ledger := Run(s, calls), Ledger(s, calls, reader);
            && reader in end.cursors
            && end.cursors[reader] == s.cursors[reader] + |ledger|
            && Accounts(ledger, end.history, s.cursors[reader])
            && |end.history| - s.cursors[reader] ==
               |ledger| + end.Peek(reader).dropped + |end.Peek(reader).rects|
  {
    if calls != [] {
      var c, next := calls[0], Apply(s, calls[0]);
      ApplyKeepsOk(s, c);
      OneCallSettles(s, c, reader);
      DamageIsConserved(next, calls[1..], reader);
      hide Settled, Accounts, Apply, LogState.Peek, LogState.Ok, NeverForgets;
      AccountsTogether(Settled(s, c, reader), Ledger(next, calls[1..], reader), next.history,
                       Run(next, calls[1..]).history, s.cursors[reader]);
    }
  }

  /** A reader that only ever takes is never skipped over. */
  lemma {:induction false} TakingSkipsNothing(s: LogState, calls: seq<Call>, reader: ReaderId)
    requires s.Ok() && reader in s.cursors && NeverForgets(calls, reader)
    requires forall k :: 0 <= k < |calls| ==> !(calls[k].AdvanceCall? && calls[k].reader == reader)
    decreases |calls|
    ensures Skipped !in Ledger(s, calls, reader)
  {
    if calls != [] {
      ApplyKeepsOk(s, calls[0]);
      OneCallSettles(s, calls[0], reader);
      TakingSkipsNothing(Apply(s, calls[0]), calls[1..], reader);
    }
  }

  /** Only what had left the log is reported as dropped. */
  lemma DroppedWasGone(s: LogState, reader: ReaderId)
    requires s.Ok() && reader in s.cursors
    ensures var delta := s.Peek(reader);
            && delta.rects == s.history[s.cursors[reader] + delta.dropped..]
            && (delta.dropped > 0 ==> |delta.rects| == s.capacity && s.cursors[reader] + delta.dropped == s.First())
            && (|s.history| - s.cursors[reader] <= s.capacity ==> delta.dropped == 0)
  {
  }

  /** A reader that has not registered misses nothing, and its first take
      registers it at the head. */
  lemma StrangersStartAtTheHead(s: LogState, reader: ReaderId)
    requires s.Ok() && reader !in s.cursors
    ensures s.Peek(reader).rects == [] && s.Peek(reader).dropped == 0
    ensures s.Take(reader) == s.Subscribe(reader)
  {
  }

  /** A reader that is forgotten is a stranger again; every other keeps what it was owed,
      and nothing leaves the log. */
  lemma ForgettingIsForOne(s: LogState, reader: ReaderId, other: ReaderId)
    requires s.Ok()
    ensures var after := s.Forget(reader);
      && reader !in after.cursors && after.Peek(reader).rects == [] && after.Peek(reader).dropped == 0
      && (other != reader ==> after.Peek(other) == s.Peek(other) && (other in after.cursors <==> other in s.cursors))
      && after.history == s.history && after.starts == s.starts
  {
  }

  /** `kept` is the places of the rectangles that are not empty, in order. */
  predicate Places(rects: seq<Rect>, kept: seq<nat>) {
    && (forall k :: 0 <= k < |kept| ==> kept[k] < |rects|)
    && (forall k, l :: 0 <= k < l < |kept| ==> kept[k] < kept[l])
    && (forall i :: 0 <= i < |rects| ==> (i in kept <==> rects[i].width > 0 && rects[i].height > 0))
  }

  lemma OnePlaceMore(rects: seq<Rect>, kept: seq<nat>)
    requires rects != [] && Places(rects[..|rects| - 1], kept)
    ensures Places(rects, if rects[|rects| - 1].IsEmpty() then kept else kept + [|rects| - 1])
  {
    var n := |rects| - 1;
    var more := if rects[n].IsEmpty() then kept else kept + [n];
    forall i | 0 <= i < |rects|
      ensures i in more <==> rects[i].width > 0 && rects[i].height > 0
    {
      if i < n {
        assert rects[..n][i] == rects[i];
      } else {
        assert n !in kept;
      }
    }
  }

  /** `out` is the rectangles at these places. */
  predicate TakenFrom(rects: seq<Rect>, kept: seq<nat>, out: seq<Rect>) {
    |out| == |kept| && forall k :: 0 <= k < |kept| ==> kept[k] < |rects| && out[k] == rects[kept[k]]
  }

  lemma TakenOneMore(rects: seq<Rect>, kept: seq<nat>, out: seq<Rect>)
    requires rects != [] && TakenFrom(rects[..|rects| - 1], kept, out)
    ensures TakenFrom(rects, kept, out)
    ensures TakenFrom(rects, kept + [|rects| - 1], out + [rects[|rects| - 1]])
  {
  }

  lemma {:induction false} NonEmptyPlaces(rects: seq<Rect>) returns (kept: seq<nat>)
    ensures Places(rects, kept) && TakenFrom(rects, kept, NonEmpty(rects))
  {
    if rects == [] {
      kept := [];
    } else {
      var n := |rects| - 1;
      var before := NonEmptyPlaces(rects[..n]);
      hide Places, TakenFrom, Rect.IsEmpty;
      OnePlaceMore(rects, before);
      TakenOneMore(rects, before, NonEmpty(rects[..n]));
      kept := if rects[n].IsEmpty() then before else before + [n];
      assert NonEmpty(rects) == NonEmpty(rects[..n]) + if rects[n].IsEmpty() then [] else [rects[n]];
    }
  }

  /** An update appends its rectangles that are not empty, as they came, and begins where
      the history ended; no cursor moves. */
  lemma RecordAppends(s: LogState, rects: seq<Rect>) returns (kept: seq<nat>)
    ensures Places(rects, kept)
    ensures var after := s.Record(rects);
      && s.history <= after.history && TakenFrom(rects, kept, after.history[|s.history|..])
      && after.starts == s.starts + [|s.history|] && after.cursors == s.cursors
  {
    kept := NonEmptyPlaces(rects);
  }
}
