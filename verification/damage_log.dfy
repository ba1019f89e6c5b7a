/** The damage log itself (crates/agent-perception/src/damage.rs:103-263): a
    bounded queue of rectangles, the update boundaries still inside it, and one
    cursor per reader, proved to be the history of DamageMachine. */
module DamageLogs {
  import opened Geometry
  import opened DamageMachine

  const MAX_COUNT := 0xFFFF_FFFF

  /** What a subscriber is told of one update. */
  datatype Damage = Damage(rect: Rect, rects: nat)

  class DamageLog {
    var entries: seq<(nat, Rect)>
    var nextSeq: nat
    var firstSeq: nat
    var updateStarts: seq<nat>
    var readers: map<ReaderId, nat>
    const capacity: nat
    ghost var history: seq<Rect>
    ghost var starts: seq<nat>

    ghost function State(): LogState
      reads this
    {
      LogState(history, starts, readers, capacity)
    }

    /** The queue holds the end of the history, numbered. */
    ghost predicate EntriesOk()
      reads this
    {
      && nextSeq == |history| && firstSeq == State().First()
      && |entries| == nextSeq - firstSeq
      && forall k :: 0 <= k < |entries| ==> entries[k] == (firstSeq + k, history[firstSeq + k])
    }

    /** The boundaries kept are the last ones, and all the others are gone from
        the queue. */
    ghost predicate StartsOk()
      reads this
    {
      && |updateStarts| <= |starts|
      && updateStarts == starts[|starts| - |updateStarts|..]
      && Ascending(starts) && (forall k :: 0 <= k < |starts| ==> starts[k] <= nextSeq)
      && (forall k :: 0 <= k < |starts| - |updateStarts| ==> starts[k] < firstSeq)
    }

    ghost predicate Valid()
      reads this
      ensures Valid() ==> State().Ok()
    {
      State().Ok() && EntriesOk() && StartsOk()
    }

    constructor (capacity: nat)
      ensures Valid() && State() == LogState([], [], map[], Max(capacity, 1))
    {
      this.capacity := Max(capacity, 1);
      entries := [];
      nextSeq := 0;
      firstSeq := 0;
      updateStarts := [];
      readers := map[];
      history := [];
      starts := [];
    }

    /** Take one update: every rectangle that is not empty, in order. */
    method Record(rects: seq<Rect>) returns (damage: Damage)
      requires Valid()
      modifies this
      ensures Valid() && State() == old(State()).Record(rects)
      ensures damage == Damage(BoundingBox(NonEmpty(rects)), Min(|NonEmpty(rects)|, MAX_COUNT))
    {
      hide NonEmpty, BoundingBox;
      NoRects();
      var box, count := EMPTY, 0;
      Begin();
      for k := 0 to |rects|
        invariant Valid() && readers == old(readers) && starts == old(starts) + [|old(history)|]
        invariant rects[..0] == []
        invariant history == old(history) + NonEmpty(rects[..k])
        invariant box == BoundingBox(NonEmpty(rects[..k])) && count == Min(|NonEmpty(rects[..k])|, MAX_COUNT)
      {
        OneMoreRect(rects, k);
        if rects[k].IsEmpty() {
          continue;
        }
        box := Union(box, rects[k]);
        count := Min(count + 1, MAX_COUNT);
        Push(rects[k]);
      }
      assert rects[..|rects|] == rects;
      Trim();
      damage := Damage(box, count);
    }

    method Begin()
      requires Valid()
      modifies `updateStarts, `starts
      ensures Valid() && starts == old(starts) + [nextSeq]
    {
      updateStarts := updateStarts + [nextSeq];
      starts := starts + [nextSeq];
    }

    method Push(rect: Rect)
      requires Valid()
      modifies `entries, `nextSeq, `firstSeq, `history
      ensures Valid() && history == old(history) + [rect]
    {
      entries := entries + [(nextSeq, rect)];
      nextSeq := nextSeq + 1;
      history := history + [rect];
      if |entries| > capacity {
        entries := entries[1..];
        firstSeq := firstSeq + 1;
      }
    }

    /** Forget the boundaries that have left the queue. */
    method Trim()
      requires Valid()
      modifies `updateStarts
      ensures Valid()
      ensures updateStarts != [] ==> updateStarts[0] >= firstSeq
    {
      while updateStarts != [] && updateStarts[0] < firstSeq
        invariant Valid()
        decreases |updateStarts|
      {
        assert updateStarts[0] == starts[|starts| - |updateStarts|];
        updateStarts := updateStarts[1..];
      }
    }

    /** A cursor at the head for a reader that has none. */
    method Subscribe(reader: ReaderId)
      requires Valid()
      modifies `readers
      ensures Valid() && State() == old(State()).Subscribe(reader)
    {
      if reader !in readers {
        readers := readers[reader := nextSeq];
      }
    }

    method Forget(reader: ReaderId)
      requires Valid()
      modifies `readers
      ensures Valid() && State() == old(State()).Forget(reader)
    {
      readers := readers - {reader};
    }

    /** A look that moves no cursor. */
    method Peek(reader: ReaderId) returns (delta: DamageDelta)
      requires Valid()
      ensures delta == State().Peek(reader)
    {
      delta := DeltaFrom(if reader in readers then readers[reader] else nextSeq);
    }

    /** A look that leaves nothing for this reader's next one. */
    method Take(reader: ReaderId) returns (delta: DamageDelta)
      requires Valid()
      modifies `readers
      ensures Valid() && State() == old(State()).Take(reader)
      ensures delta == old(State()).Peek(reader)
    {
      delta := Peek(reader);
      Advance(reader, delta.through);
    }

    /** Mark this reader caught up; moving backwards is ignored. */
    method Advance(reader: ReaderId, through: nat)
      requires Valid()
      modifies `readers
      ensures Valid() && State() == old(State()).Advance(reader, through)
    {
      var cursor := if reader in readers then readers[reader] else 0;
      readers := readers[reader := Max(cursor, Min(through, nextSeq))];
    }

    method DeltaFrom(cursor: nat) returns (delta: DamageDelta)
      requires Valid() && cursor <= |history|
      ensures delta == State().DeltaFrom(cursor)
    {
      var dropped := Max(firstSeq - cursor, 0);
      var from := Max(cursor, firstSeq);
      var rects := RectsFrom(from);
      var counted := StartsFrom(from);
      var updates := if counted == 0 && rects != [] then 1 else counted;
      delta := DamageDelta(rects, dropped, updates, nextSeq);
    }

    method RectsFrom(from: nat) returns (rects: seq<Rect>)
      requires Valid() && firstSeq <= from <= nextSeq
      ensures rects == history[from..]
    {
      rects := [];
      for k := 0 to |entries|
        invariant rects == if firstSeq + k <= from then [] else history[from..firstSeq + k]
      {
        if entries[k].0 >= from {
          rects := rects + [entries[k].1];
        }
      }
    }

    method StartsFrom(from: nat) returns (counted: nat)
      requires Valid() && firstSeq <= from
      ensures counted == CountFrom(starts, from)
    {
      counted := 0;
      for k := 0 to |updateStarts|
        invariant counted == CountFrom(updateStarts[..k], from)
      {
        assert updateStarts[..k + 1][..k] == updateStarts[..k];
        if updateStarts[k] >= from {
          counted := counted + 1;
        }
      }
      assert updateStarts[..|updateStarts|] == updateStarts;
      CountSuffix(starts, |starts| - |updateStarts|, from);
    }
  }

  lemma NoRects()
    ensures NonEmpty([]) == [] && BoundingBox([]) == EMPTY
  {
  }

  lemma OneMoreRect(rects: seq<Rect>, k: nat)
    requires k < |rects|
    ensures var before, now := NonEmpty(rects[..k]), NonEmpty(rects[..k + 1]);
            if rects[k].IsEmpty() then now == before
            else now == before + [rects[k]] && BoundingBox(now) == Union(BoundingBox(before), rects[k])
  {
    assert rects[..k + 1][..k] == rects[..k];
    var before := NonEmpty(rects[..k]);
    assert (before + [rects[k]])[..|before|] == before;
  }

  predicate Ascending(s: seq<nat>) {
    forall i, j :: 0 <= i < j < |s| ==> s[i] <= s[j]
  }

  /** Boundaries before `from` count for nothing. */
  lemma {:induction false} CountSuffix(starts: seq<nat>, cut: nat, from: nat)
    requires cut <= |starts| && forall k :: 0 <= k < cut ==> starts[k] < from
    ensures CountFrom(starts, from) == CountFrom(starts[cut..], from)
    decreases |starts|
  {
    if cut < |starts| {
      var before := starts[..|starts| - 1];
      CountSuffix(before, cut, from);
      assert starts[cut..][..|starts[cut..]| - 1] == before[cut..];
    } else {
      CountNone(starts, from);
    }
  }

  lemma {:induction false} CountNone(starts: seq<nat>, from: nat)
    requires forall k :: 0 <= k < |starts| ==> starts[k] < from
    ensures CountFrom(starts, from) == 0
  {
    if starts != [] {
      CountNone(starts[..|starts| - 1], from);
    }
  }
}
