/** Requests and answers of a read (crates/agent-perception/src/ladder.rs,
    error.rs), and the part of the picture an answer carries
    (crates/agent-perception/src/encode.rs:123-137). */
module Reads {
  import opened Compositing
  import opened CoverageMarks
  import opened CropPlanner
  import opened DamageMachine
  import opened Geometry
  import ImageSizes
  import ImageSpaces
  import opened MirrorTruth
  import opened OneTiling
  import opened Pictures
  import opened RegionCounts
  import opened StaleTilings
  import opened Wrappers

  datatype ReadKind =
    | WholeFrame(longEdge: nat)
    | Region(rect: Rect)
    | Change(reader: nat, margin: u16)

  datatype StalePolicy = Refuse | Annotate

  datatype ReadRequest = ReadRequest(kind: ReadKind, fence: Option<nat>, stale: StalePolicy)

  datatype PerceptionError =
    | OldGeometry(fencedAt: nat, current: nat)
    | OutOfBounds(region: Rect, width: u16, height: u16)
    | Priming(region: Rect, tiles: nat, neverWritten: nat)
    | StaleRegions(region: Rect, staleRegions: seq<StaleRegion>)
    | TooManyRegions(limit: nat)
    | EncodeFailed

  /** What a read shows: a region, its pixels before any downscaling, how far
      they can be trusted, and for a change the damage they answer. */
  datatype Observation = Observation(
    region: Rect, space: ImageSpaces.ImageSpace, image: Picture, coverage: FrameCoverage, generation: nat,
    damage: seq<Rect>, remaining: nat, degraded: bool)

  datatype Read = Shown(frame: Observation) | Unchanged(generation: nat)

  /** The image is that part of the picture, pixel for pixel. */
  ghost predicate IsCrop(p: Picture, region: Rect, image: Picture) {
    && p.Ok() && image.Ok() && image.width == region.width && image.height == region.height
    && region.Within(p.Bounds())
    && forall u, v :: image.InBounds(u, v) ==> image.At(u, v) == p.At(region.x + u, region.y + v)
  }

  /** The first `rows` rows of a crop have been copied. */
  ghost predicate CropRows(p: Picture, region: Rect, image: Picture, rows: nat) {
    && p.Ok() && image.Ok() && image.width == region.width && image.height == region.height
    && region.Within(p.Bounds())
    && forall u, v :: image.InBounds(u, v) && v < rows ==> image.At(u, v) == p.At(region.x + u, region.y + v)
  }

  lemma NoCropRows(p: Picture, region: Rect, image: Picture)
    requires p.Ok() && image.Ok() && image.width == region.width && image.height == region.height
    requires region.Within(p.Bounds())
    ensures CropRows(p, region, image, 0)
  {
  }

  lemma NextCropRow(p: Picture, region: Rect, image: Picture, v: nat)
    requires CropRows(p, region, image, v) && v < region.height
    ensures CropRows(p, region, WithRow(image, 0, v, RowOf(p, region.x, region.y + v, region.width)), v + 1)
  {
    var next := WithRow(image, 0, v, RowOf(p, region.x, region.y + v, region.width));
    forall a, b | image.InBounds(a, b) && b < v + 1
      ensures next.At(a, b) == p.At(region.x + a, region.y + b)
    {
      CropRowAt(p, region, image, v, a, b);
    }
    hide WithRow, RowOf, Picture.At, Picture.Ok;
  }

  lemma CropRowAt(p: Picture, region: Rect, image: Picture, v: nat, a: int, b: int)
    requires CropRows(p, region, image, v) && v < region.height && image.InBounds(a, b) && b < v + 1
    ensures WithRow(image, 0, v, RowOf(p, region.x, region.y + v, region.width)).At(a, b) ==
      p.At(region.x + a, region.y + b)
  {
    var row := RowOf(p, region.x, region.y + v, region.width);
    assert b < v ==> image.At(a, b) == p.At(region.x + a, region.y + b);
    hide WithRow, RowOf, Picture.At, Picture.Ok, CropRows;
    WithRowAt(image, 0, v, row, a, b);
    if b == v {
      RowOfAt(p, region.x, region.y + v, region.width, a);
    }
  }

  lemma AllCropRows(p: Picture, region: Rect, image: Picture)
    requires CropRows(p, region, image, region.height)
    ensures IsCrop(p, region, image)
  {
  }

  // ---------------------------------------------------------------- what an answer means

  /** A coverage answer: complete exactly when every touched tile is written,
      refused for its length exactly when the tiling of the others is too long;
      otherwise that tiling, or a refusal, `Priming` with the true figures when
      nothing is stale and `StaleRegions` when something is. */
  ghost predicate CoverageAnswer(
    s: MirrorState, region: Rect, policy: StalePolicy, result: Result<FrameCoverage, PerceptionError>)
  {
    var scene := s.SceneOf(region);
    match result
    case Ok(Complete) => AllWritten(scene)
    case Ok(Partial(stale)) =>
      !AllWritten(scene) && !TooManyToList(scene) && policy.Annotate? && stale == StaleList(scene)
    case Err(Priming(r, tiles, neverWritten)) =>
      && !AllWritten(scene) && !TooManyToList(scene) && policy.Refuse? && |InState(scene, Stale)| == 0
      && r == region && tiles == |TouchedTiles(scene)| && neverWritten == |InState(scene, NeverWritten)|
    case Err(StaleRegions(r, stale)) =>
      && !AllWritten(scene) && !TooManyToList(scene) && policy.Refuse? && |InState(scene, Stale)| > 0
      && r == region && stale == StaleList(scene)
    case Err(TooManyRegions(limit)) => !AllWritten(scene) && TooManyToList(scene) && limit == MAX_STALE_REGIONS
    case Err(_) => false
  }

  /** There is one coverage answer. */
  lemma OneCoverageAnswer(
    s: MirrorState, region: Rect, policy: StalePolicy,
    a: Result<FrameCoverage, PerceptionError>, b: Result<FrameCoverage, PerceptionError>)
    requires CoverageAnswer(s, region, policy, a) && CoverageAnswer(s, region, policy, b)
    ensures a == b
  {
    hide AllWritten, TooManyToList, InState, TouchedTiles;
  }

  /** What an answer vouches for. */
  lemma AnswerVouches(s: MirrorState, region: Rect, policy: StalePolicy, coverage: FrameCoverage)
    requires CoverageAnswer(s, region, policy, Ok(coverage))
    ensures Vouches(s, region, coverage) && (policy.Refuse? ==> coverage.Complete?)
  {
    hide AllWritten, TooManyToList, SoundPixels, WholePixels;
  }

  /** What a read is about, once it is admitted. */
  datatype Framing = Framing(region: Rect, longEdge: Option<nat>, damage: seq<Rect>, remaining: nat, degraded: bool)

  ghost predicate FramedByPlan(framing: Framing, plan: ChangePlan, delta: DamageDelta, bounds: Rect) {
    match plan
    case Nothing => false
    case Crop(rect, damage, _, remaining) => framing == Framing(rect, None, damage, remaining, false)
    case Degraded(_) => framing == Framing(bounds, Some(ImageSizes.DEFAULT_LONG_EDGE), delta.rects, 0, true)
  }

  ghost predicate Framed(framing: Framing, kind: ReadKind, bounds: Rect, log: LogState, limit: nat)
    requires log.Ok()
  {
    match kind
    case WholeFrame(longEdge) => framing == Framing(bounds, Some(longEdge), [], 0, false)
    case Region(rect) => framing == Framing(rect, None, [], 0, false) && OnScreen(rect, bounds)
    case Change(reader, margin) =>
      exists plan ::
        && Planned(plan, Live(log.Peek(reader).rects, bounds), bounds, margin, limit)
        && FramedByPlan(framing, plan, log.Peek(reader), bounds)
  }

  /** What a read answers. `encodes` is whether the image encoder succeeds. */
  ghost predicate ReadAnswer(
    s: MirrorState, generation: nat, log: LogState, request: ReadRequest, limit: nat, encodes: bool,
    result: Result<Read, PerceptionError>)
    requires s.Ok() && log.Ok()
  {
    var bounds := s.picture.Bounds();
    if request.fence.Some? && request.fence.value != generation then
      result == Err(OldGeometry(request.fence.value, generation))
    else if request.kind.Region? && !OnScreen(request.kind.rect, bounds) then
      result == Err(OutOfBounds(request.kind.rect, s.picture.width, s.picture.height))
    else if request.kind.Change? && Live(log.Peek(request.kind.reader).rects, bounds) == [] then
      result == Ok(Unchanged(generation))
    else
      exists framing ::
        Framed(framing, request.kind, bounds, log, limit) &&
          FramedAnswer(s, generation, request, framing, encodes, result)
  }

  ghost predicate FramedAnswer(
    s: MirrorState, generation: nat, request: ReadRequest, framing: Framing, encodes: bool,
    result: Result<Read, PerceptionError>)
    requires s.Ok()
  {
    match result
    case Ok(Unchanged(_)) => false
    case Ok(Shown(frame)) =>
      && encodes
      && frame == Observation(framing.region, ImageSizes.Encoded(framing.region, framing.longEdge),
                              frame.image, frame.coverage, generation,
                              framing.damage, framing.remaining, framing.degraded)
      && IsCrop(s.picture, Intersect(framing.region, s.picture.Bounds()), frame.image)
      && CoverageAnswer(s, framing.region, request.stale, Ok(frame.coverage))
    case Err(EncodeFailed) =>
      !encodes && exists coverage :: CoverageAnswer(s, framing.region, request.stale, Ok(coverage))
    case Err(e) => CoverageAnswer(s, framing.region, request.stale, Err(e))
  }

  /** A `Change` read that answers takes the reader's changes; one that refuses
      leaves the log as it was, and so does every other read. */
  function LogAfter(log: LogState, kind: ReadKind, result: Result<Read, PerceptionError>): LogState
    requires log.Ok()
  {
    if kind.Change? && result.Ok? then log.Take(kind.reader) else log
  }

  /** Clipping a rectangle leaves it as it is exactly when it is on the screen. */
  lemma ClippedIsSame(rect: Rect, bounds: Rect)
    requires bounds.Fits()
    ensures (!Intersect(rect, bounds).IsEmpty() && Intersect(rect, bounds) == rect) <==> OnScreen(rect, bounds)
  {
    IntersectExact(rect, bounds);
    if OnScreen(rect, bounds) {
      FitsUnwrapped(rect);
      FitsUnwrapped(bounds);
    }
  }

  lemma PlannedNothing(plan: ChangePlan, live: seq<Rect>, bounds: Rect, margin: u16, limit: nat)
    requires Planned(plan, live, bounds, margin, limit)
    ensures plan.Nothing? <==> live == []
  {
  }

  lemma PlanFrames(framing: Framing, plan: ChangePlan, delta: DamageDelta, kind: ReadKind, bounds: Rect,
                   log: LogState, limit: nat)
    requires log.Ok() && kind.Change? && delta == log.Peek(kind.reader)
    requires Planned(plan, Live(delta.rects, bounds), bounds, kind.margin, limit)
    requires FramedByPlan(framing, plan, delta, bounds)
    ensures Framed(framing, kind, bounds, log, limit)
  {
  }

  lemma FramesPlainly(framing: Framing, kind: ReadKind, bounds: Rect, log: LogState, limit: nat)
    requires log.Ok() && (kind.Change? ==> Framed(framing, kind, bounds, log, limit))
    requires kind.WholeFrame? ==> framing == Framing(bounds, Some(kind.longEdge), [], 0, false)
    requires kind.Region? ==> framing == Framing(kind.rect, None, [], 0, false) && OnScreen(kind.rect, bounds)
    ensures Framed(framing, kind, bounds, log, limit)
  {
  }

  /** The region of a read is on the screen, so clipping it again changes nothing,
      unless the screen has no pixels. */
  lemma FramesOnScreen(framing: Framing, kind: ReadKind, bounds: Rect, log: LogState, limit: nat)
    requires log.Ok() && bounds.Fits() && Framed(framing, kind, bounds, log, limit)
    ensures framing.region.Within(bounds)
    ensures !bounds.IsEmpty() ==> Intersect(framing.region, bounds) == framing.region
  {
    assert framing.region == bounds || OnScreen(framing.region, bounds) by {
      match kind
      case WholeFrame(_) =>
      case Region(_) =>
      case Change(reader, margin) =>
        var plan :| Planned(plan, Live(log.Peek(reader).rects, bounds), bounds, margin, limit) &&
                    FramedByPlan(framing, plan, log.Peek(reader), bounds);
    }
    ClippedIsSame(framing.region, bounds);
  }

  lemma ShownAnswer(s: MirrorState, generation: nat, request: ReadRequest, framing: Framing, frame: Observation)
    requires s.Ok()
    requires frame == Observation(framing.region, ImageSizes.Encoded(framing.region, framing.longEdge),
                                  frame.image, frame.coverage, generation,
                                  framing.damage, framing.remaining, framing.degraded)
    requires IsCrop(s.picture, Intersect(framing.region, s.picture.Bounds()), frame.image)
    requires CoverageAnswer(s, framing.region, request.stale, Ok(frame.coverage))
    ensures FramedAnswer(s, generation, request, framing, true, Ok(Shown(frame)))
  {
  }

  lemma RefusedAnswer(s: MirrorState, generation: nat, request: ReadRequest, framing: Framing, encodes: bool,
                      e: PerceptionError)
    requires s.Ok() && CoverageAnswer(s, framing.region, request.stale, Err(e))
    ensures FramedAnswer(s, generation, request, framing, encodes, Err(e))
  {
  }

  lemma NotEncoded(s: MirrorState, generation: nat, request: ReadRequest, framing: Framing, coverage: FrameCoverage)
    requires s.Ok() && CoverageAnswer(s, framing.region, request.stale, Ok(coverage))
    ensures FramedAnswer(s, generation, request, framing, false, Err(EncodeFailed))
  {
  }

  // ---------------------------------------------------------------- end to end

  /** End to end: whatever ran before, an answered read shows the server's pixels
      at every pixel it does not itself list as stale. */
  lemma AnswersAreTrue(
    s: MirrorState, server: Picture, generation: nat, log: LogState, request: ReadRequest, limit: nat,
    frame: Observation, u: nat, v: nat)
    requires Truthful(s, server) && log.Ok()
    requires ReadAnswer(s, generation, log, request, limit, true, Ok(Shown(frame)))
    requires frame.image.InBounds(u, v)
    requires frame.coverage.Partial? ==>
      !Listed(frame.coverage.staleRegions, frame.region.x + u, frame.region.y + v)
    ensures server.InBounds(frame.region.x + u, frame.region.y + v) && frame.image.Ok()
    ensures frame.image.At(u, v) == server.At(frame.region.x + u, frame.region.y + v)
    ensures request.stale.Refuse? ==> frame.coverage.Complete?
  {
    hide Framed, Vouches, Listed, Live, Intersect, Picture.At, Picture.Ok;
    var bounds := s.picture.Bounds();
    var framing :| Framed(framing, request.kind, bounds, log, limit) &&
                   FramedAnswer(s, generation, request, framing, true, Ok(Shown(frame)));
    FramesOnScreen(framing, request.kind, bounds, log, limit);
    CropOnScreen(s.picture, framing.region, frame.image, u, v);
    AnswerVouches(s, frame.region, request.stale, frame.coverage);
    ReadsAreTrue(s, server, frame.region, frame.coverage, frame.region.x + u, frame.region.y + v);
  }

  /** A crop with a pixel in it was of a screen with a pixel in it. */
  lemma CropOnScreen(p: Picture, region: Rect, image: Picture, u: nat, v: nat)
    requires p.Ok() && region.Within(p.Bounds()) && image.InBounds(u, v)
    requires IsCrop(p, Intersect(region, p.Bounds()), image)
    requires !p.Bounds().IsEmpty() ==> Intersect(region, p.Bounds()) == region
    ensures p.InBounds(region.x + u, region.y + v) && region.Has(region.x + u, region.y + v) && image.Ok()
    ensures image.At(u, v) == p.At(region.x + u, region.y + v)
  {
    IntersectExact(region, p.Bounds());
  }

  /** From a mirror just allocated, through any run of updates and changes of size
      the mirror can be told the truth by, to the pixels of an answer: whatever
      the answer does not list as stale is what the server shows now. */
  lemma EndToEnd(
    server: Picture, events: seq<Event>, generation: nat, log: LogState, request: ReadRequest, limit: nat,
    frame: Observation, u: nat, v: nat)
    requires server.Ok() && RunOk(server, events) && log.Ok()
    requires ReadAnswer(MirrorEnd(Fresh(server.width, server.height), events),
                        generation, log, request, limit, true, Ok(Shown(frame)))
    requires frame.image.InBounds(u, v)
    requires frame.coverage.Partial? ==>
      !Listed(frame.coverage.staleRegions, frame.region.x + u, frame.region.y + v)
    ensures var now := ServerEnd(server, events);
      && now.Ok() && now.InBounds(frame.region.x + u, frame.region.y + v) && frame.image.Ok()
      && frame.image.At(u, v) == now.At(frame.region.x + u, frame.region.y + v)
  {
    hide ReadAnswer, RunOk, Listed, Picture.At;
    var s := Fresh(server.width, server.height);
    AllocationIsTruthful(server.width, server.height, server);
    MirrorNeverLies(s, server, events);
    AnswersAreTrue(MirrorEnd(s, events), ServerEnd(server, events), generation, log, request, limit, frame, u, v);
  }

  // ---------------------------------------------------------------- one answer

  lemma OneFraming(a: Framing, b: Framing, kind: ReadKind, bounds: Rect, log: LogState, limit: nat)
    requires log.Ok() && Framed(a, kind, bounds, log, limit) && Framed(b, kind, bounds, log, limit)
    ensures a == b
  {
    hide Planned, Live;
    if kind.Change? {
      var delta := log.Peek(kind.reader);
      var plan :| Planned(plan, Live(delta.rects, bounds), bounds, kind.margin, limit) &&
                  FramedByPlan(a, plan, delta, bounds);
      var plan2 :| Planned(plan2, Live(delta.rects, bounds), bounds, kind.margin, limit) &&
                   FramedByPlan(b, plan2, delta, bounds);
      OnePlan(plan, plan2, Live(delta.rects, bounds), bounds, kind.margin, limit);
    }
  }

  lemma OneCrop(p: Picture, region: Rect, a: Picture, b: Picture)
    requires IsCrop(p, region, a) && IsCrop(p, region, b)
    ensures a == b
  {
    hide Picture.At;
    SamePixels(a, b);
  }

  lemma OneFramedAnswer(
    s: MirrorState, generation: nat, request: ReadRequest, framing: Framing, encodes: bool,
    a: Result<Read, PerceptionError>, b: Result<Read, PerceptionError>)
    requires s.Ok() && FramedAnswer(s, generation, request, framing, encodes, a)
    requires FramedAnswer(s, generation, request, framing, encodes, b)
    ensures a == b
  {
    hide CoverageAnswer, IsCrop;
    var c := CoverageBehind(s, generation, request, framing, encodes, a);
    var d := CoverageBehind(s, generation, request, framing, encodes, b);
    OneCoverageAnswer(s, framing.region, request.stale, c, d);
    if a.Ok? {
      OneCrop(s.picture, Intersect(framing.region, s.picture.Bounds()), a.value.frame.image, b.value.frame.image);
    }
  }

  /** The coverage answer a framed answer rests on. */
  lemma CoverageBehind(
    s: MirrorState, generation: nat, request: ReadRequest, framing: Framing, encodes: bool,
    a: Result<Read, PerceptionError>)
    returns (c: Result<FrameCoverage, PerceptionError>)
    requires s.Ok() && FramedAnswer(s, generation, request, framing, encodes, a)
    ensures CoverageAnswer(s, framing.region, request.stale, c) && c != Err(EncodeFailed)
    ensures a.Ok? ==> a.value.Shown? && encodes && c == Ok(a.value.frame.coverage)
    ensures a.Err? ==> if c.Ok? then !encodes && a.error == EncodeFailed else a.error == c.error
  {
    hide AllWritten, TooManyToList, InState, TouchedTiles, StaleList, IsCrop;
    if a.Ok? {
      c := Ok(a.value.frame.coverage);
    } else if a.error == EncodeFailed {
      var coverage :| CoverageAnswer(s, framing.region, request.stale, Ok(coverage));
      c := Ok(coverage);
    } else {
      c := Err(a.error);
    }
  }

  /** The mirror, the log, the request and the encoder leave one answer. */
  lemma OneAnswer(
    s: MirrorState, generation: nat, log: LogState, request: ReadRequest, limit: nat, encodes: bool,
    a: Result<Read, PerceptionError>, b: Result<Read, PerceptionError>)
    requires s.Ok() && log.Ok()
    requires ReadAnswer(s, generation, log, request, limit, encodes, a)
    requires ReadAnswer(s, generation, log, request, limit, encodes, b)
    ensures a == b
  {
    hide Framed, FramedAnswer, Live;
    var bounds := s.picture.Bounds();
    if framing, framing2 :|
      && Framed(framing, request.kind, bounds, log, limit)
      && FramedAnswer(s, generation, request, framing, encodes, a)
      && Framed(framing2, request.kind, bounds, log, limit)
      && FramedAnswer(s, generation, request, framing2, encodes, b)
    {
      OneFraming(framing, framing2, request.kind, bounds, log, limit);
      OneFramedAnswer(s, generation, request, framing, encodes, a, b);
    }
  }

  // ---------------------------------------------------------------- what is answered

  /** The request itself is in order: its geometry is the current one, and a region is
      not empty and lies on the screen. */
  predicate InOrder(request: ReadRequest, generation: nat, width: u16, height: u16) {
    && (request.fence.None? || request.fence.value == generation)
    && (request.kind.Region? ==>
          var r := request.kind.rect;
          r.width > 0 && r.height > 0 && r.x + r.width <= width && r.y + r.height <= height)
  }

  /** Nothing in the region is doubtful, or the caller takes it annotated and the
      annotation is not too long. */
  ghost predicate Trusted(s: MirrorState, region: Rect, policy: StalePolicy) {
    || AllWritten(s.SceneOf(region))
    || (policy.Annotate? && !TooManyToList(s.SceneOf(region)))
  }

  /** A read shows the screen if and only if the request is in order, a change read has
      a change to show, what it would show is trusted, and the encoder succeeds; and a
      change read in order with nothing to show says so. */
  lemma ShownExactly(
    s: MirrorState, generation: nat, log: LogState, request: ReadRequest, limit: nat, encodes: bool,
    result: Result<Read, PerceptionError>, framing: Framing)
    requires s.Ok() && log.Ok() && ReadAnswer(s, generation, log, request, limit, encodes, result)
    requires InOrder(request, generation, s.picture.width, s.picture.height) ==>
      Framed(framing, request.kind, s.picture.Bounds(), log, limit)
      || (request.kind.Change? && Live(log.Peek(request.kind.reader).rects, s.picture.Bounds()) == [])
    ensures result.Ok? && result.value.Shown? <==>
      && InOrder(request, generation, s.picture.width, s.picture.height)
      && (request.kind.Change? ==> Live(log.Peek(request.kind.reader).rects, s.picture.Bounds()) != [])
      && Trusted(s, framing.region, request.stale) && encodes
    ensures result.Ok? && result.value.Unchanged? <==>
      && InOrder(request, generation, s.picture.width, s.picture.height) && request.kind.Change?
      && Live(log.Peek(request.kind.reader).rects, s.picture.Bounds()) == []
    ensures result == Err(EncodeFailed) ==> !encodes && Trusted(s, framing.region, request.stale)
  {
    hide Framed, FramedAnswer, Live, AllWritten, TooManyToList;
    var bounds := s.picture.Bounds();
    if InOrder(request, generation, s.picture.width, s.picture.height) &&
       !(request.kind.Change? && Live(log.Peek(request.kind.reader).rects, bounds) == []) {
      var framing2 :| Framed(framing2, request.kind, bounds, log, limit) &&
                      FramedAnswer(s, generation, request, framing2, encodes, result);
      OneFraming(framing, framing2, request.kind, bounds, log, limit);
      var c := CoverageBehind(s, generation, request, framing, encodes, result);
      TrustedExactly(s, framing.region, request.stale, c);
    }
  }

  lemma TrustedExactly(s: MirrorState, region: Rect, policy: StalePolicy, c: Result<FrameCoverage, PerceptionError>)
    requires CoverageAnswer(s, region, policy, c)
    ensures c.Ok? <==> Trusted(s, region, policy)
  {
    hide AllWritten, TooManyToList, InState, TouchedTiles, StaleList;
  }

  /** A read with an old geometry says which it asked for and which is current, before
      anything else; a region that is empty or off the screen is said to be, with the size
      of the screen. */
  lemma OutOfOrderSays(
    s: MirrorState, generation: nat, log: LogState, request: ReadRequest, limit: nat, encodes: bool,
    result: Result<Read, PerceptionError>)
    requires s.Ok() && log.Ok() && ReadAnswer(s, generation, log, request, limit, encodes, result)
    requires !InOrder(request, generation, s.picture.width, s.picture.height)
    ensures request.fence.Some? && request.fence.value != generation ==>
      result.Err? && result.error.OldGeometry?
      && result.error.fencedAt == request.fence.value && result.error.current == generation
    ensures request.fence.None? || request.fence.value == generation ==>
      result.Err? && result.error.OutOfBounds? && result.error.region == request.kind.rect
      && result.error.width == s.picture.width && result.error.height == s.picture.height
  {
    hide Framed, FramedAnswer, Live;
  }

  /** What an answer shows: a frame the whole screen, a region the region asked for,
      and a change part of the screen or, degraded, all of it with every rectangle that
      changed. It carries the current generation and an image of the region's size. */
  lemma ShowsWhatWasAsked(
    s: MirrorState, generation: nat, log: LogState, request: ReadRequest, limit: nat, frame: Observation)
    requires s.Ok() && log.Ok()
    requires ReadAnswer(s, generation, log, request, limit, true, Ok(Shown(frame)))
    ensures var w, h := s.picture.width, s.picture.height;
      && frame.generation == generation
      && (request.kind.WholeFrame? ==> frame.region == Rect(0, 0, w, h))
      && (request.kind.Region? ==> frame.region == request.kind.rect)
      && (!request.kind.Change? ==> frame.damage == [] && frame.remaining == 0 && !frame.degraded)
      && (request.kind.Change? && frame.degraded ==>
            && frame.region == Rect(0, 0, w, h) && frame.remaining == 0
            && frame.damage == log.Peek(request.kind.reader).rects)
      && (request.kind.Change? && !frame.degraded ==>
            forall r :: r in frame.damage ==> r.Within(frame.region))
      && frame.region.x + frame.region.width <= w && frame.region.y + frame.region.height <= h
      && (w > 0 && h > 0 ==> frame.image.width == frame.region.width && frame.image.height == frame.region.height)
  {
    hide Live, CoverageAnswer, ImageSizes.Encoded, Framed;
    var bounds := s.picture.Bounds();
    var framing :| Framed(framing, request.kind, bounds, log, limit) &&
                   FramedAnswer(s, generation, request, framing, true, Ok(Shown(frame)));
    FramesOnScreen(framing, request.kind, bounds, log, limit);
    FramedIs(framing, request.kind, bounds, log, limit);
    hide Intersect;
  }

  lemma FramedIs(framing: Framing, kind: ReadKind, bounds: Rect, log: LogState, limit: nat)
    requires log.Ok() && Framed(framing, kind, bounds, log, limit)
    ensures kind.WholeFrame? ==> framing.region == bounds
    ensures kind.Region? ==> framing.region == kind.rect
    ensures !kind.Change? ==> framing.damage == [] && framing.remaining == 0 && !framing.degraded
    ensures kind.Change? && framing.degraded ==>
      framing.region == bounds && framing.remaining == 0 && framing.damage == log.Peek(kind.reader).rects
    ensures kind.Change? && !framing.degraded ==> forall r :: r in framing.damage ==> r.Within(framing.region)
  {
    hide Live;
  }

  /** A change that is not degraded shows the smallest rectangle that holds every listed
      change with the margin asked for, within the limit, and says how many changes on the
      screen it does not list. */
  lemma ShowsTheChange(
    s: MirrorState, generation: nat, log: LogState, request: ReadRequest, limit: nat, frame: Observation, outer: Rect)
    requires s.Ok() && log.Ok() && request.kind.Change? && !frame.degraded
    requires ReadAnswer(s, generation, log, request, limit, true, Ok(Shown(frame)))
    ensures var bounds, margin := s.picture.Bounds(), request.kind.margin;
      && frame.region.Area() <= limit && frame.damage != []
      && (forall r :: r in frame.damage ==> Expand(r, margin, bounds).Within(frame.region))
      && ((forall r :: r in frame.damage ==> Expand(r, margin, bounds).Within(outer)) ==> frame.region.Within(outer))
      && |frame.damage| + frame.remaining == |Live(log.Peek(request.kind.reader).rects, bounds)|
  {
    hide CoverageAnswer, ImageSizes.Encoded, Framed, Expand, Live, IsCrop, Rect.Area;
    var bounds := s.picture.Bounds();
    var framing :| Framed(framing, request.kind, bounds, log, limit) &&
                   FramedAnswer(s, generation, request, framing, true, Ok(Shown(frame)));
    CropIsFramed(framing, request.kind, bounds, log, limit, outer);
  }

  lemma CropIsFramed(framing: Framing, kind: ReadKind, bounds: Rect, log: LogState, limit: nat, outer: Rect)
    requires log.Ok() && kind.Change? && !framing.degraded && Framed(framing, kind, bounds, log, limit)
    ensures framing.region.Area() <= limit && framing.damage != []
    ensures forall r :: r in framing.damage ==> Expand(r, kind.margin, bounds).Within(framing.region)
    ensures (forall r :: r in framing.damage ==> Expand(r, kind.margin, bounds).Within(outer)) ==>
      framing.region.Within(outer)
    ensures |framing.damage| + framing.remaining == |Live(log.Peek(kind.reader).rects, bounds)|
  {
    hide Live, Expand, Rect.Area, CropAround, Greedily, LargestFirst, OverTheLimit, Rect.Within;
    var live := Live(log.Peek(kind.reader).rects, bounds);
    var plan :| Planned(plan, live, bounds, kind.margin, limit) &&
                FramedByPlan(framing, plan, log.Peek(kind.reader), bounds);
    LiveOnScreen(log.Peek(kind.reader).rects, bounds);
    CropHoldsAllItCan(plan, live, bounds, kind.margin, limit);
    CropIsSmallest(plan, live, bounds, kind.margin, limit, outer);
  }

  lemma CropIsSmallest(plan: ChangePlan, live: seq<Rect>, fb: Rect, margin: u16, limit: nat, outer: Rect)
    requires Planned(plan, live, fb, margin, limit) && plan.Crop?
    requires forall r :: r in live ==> fb.Fits() && OnScreen(r, fb)
    ensures (forall r :: r in plan.damage ==> Expand(r, margin, fb).Within(outer)) ==> plan.rect.Within(outer)
    ensures |plan.damage| + plan.remaining == |live|
  {
    hide Expand, Greedily, LargestFirst, Sound, BySize, Rect.Area, Rect.Within;
    CropHoldsAllItCan(plan, live, fb, margin, limit);
    var left :| OverTheLimit(plan, left, live, fb, limit);
    var margins := Margins(plan.damage, margin, fb);
    forall k | 0 <= k < |plan.damage|
      ensures margins[k].Fits() && !margins[k].IsEmpty()
    {
      assert plan.damage[k] in multiset(plan.damage) + multiset(left);
      assert plan.damage[k] in multiset(live) && plan.damage[k] in live;
      MarginFits(plan.damage[k], margin, fb);
    }
    BoundingBoxExact(margins, outer);
  }

  lemma MarginFits(r: Rect, margin: u16, fb: Rect)
    requires fb.Fits() && OnScreen(r, fb)
    ensures Expand(r, margin, fb).Fits() && !Expand(r, margin, fb).IsEmpty()
  {
    ExpandExact(r, margin, fb, r.x, r.y);
  }

  /** A change read that is answered leaves its reader nothing to look at until more is
      recorded, and every other reader what it had; one that is refused leaves
      everybody, its reader too, what they had, as every other read does. */
  lemma RefusedKeepsItsDamage(log: LogState, kind: ReadKind, result: Result<Read, PerceptionError>, reader: nat)
    requires log.Ok()
    ensures var after := LogAfter(log, kind, result);
      && after.Ok() && after.history == log.history
      && (kind.Change? && result.Ok? && reader == kind.reader ==>
            after.Peek(reader).rects == [] && after.Peek(reader).dropped == 0)
      && (!(kind.Change? && result.Ok? && reader == kind.reader) ==> after.Peek(reader) == log.Peek(reader))
  {
  }

  // ---------------------------------------------------------------- its coordinates

  lemma ShownFraming(
    s: MirrorState, generation: nat, log: LogState, request: ReadRequest, limit: nat, frame: Observation)
    returns (framing: Framing)
    requires s.Ok() && log.Ok() && ReadAnswer(s, generation, log, request, limit, true, Ok(Shown(frame)))
    ensures Framed(framing, request.kind, s.picture.Bounds(), log, limit)
    ensures frame.region == framing.region
    ensures frame.space == ImageSizes.Encoded(framing.region, framing.longEdge)
  {
    hide Framed, Live, IsCrop, CoverageAnswer;
    framing :| Framed(framing, request.kind, s.picture.Bounds(), log, limit) &&
               FramedAnswer(s, generation, request, framing, true, Ok(Shown(frame)));
  }

  lemma NeverNothing(framing: Framing, kind: ReadKind, bounds: Rect, log: LogState, limit: nat)
    requires log.Ok() && Framed(framing, kind, bounds, log, limit) && kind != WholeFrame(0)
    ensures framing.longEdge != Some(0)
  {
    hide Planned, Live;
  }

  /** Every screen pixel in the region of an answer has a pixel of its image, and
      that pixel stands for a screen pixel near it, unless a frame with no long
      edge was asked for. */
  lemma AnswersNamePixels(
    s: MirrorState, generation: nat, log: LogState, request: ReadRequest, limit: nat, frame: Observation, p: Point)
    requires s.Ok() && log.Ok() && request.kind != WholeFrame(0)
    requires ReadAnswer(s, generation, log, request, limit, true, Ok(Shown(frame))) && frame.region.Has(p.x, p.y)
    ensures 0.0 < frame.space.scale <= 1.0 && frame.space.ToImage(p).Ok?
    ensures ImageSizes.StandsNear(frame.space, frame.space.ToImage(p).value, p)
  {
    hide ReadAnswer, Framed, ImageSizes.StandsNear, ImageSizes.Encoded, ImageSpaces.ImageSpace.ToImage;
    var framing := ShownFraming(s, generation, log, request, limit, frame);
    FramesOnScreen(framing, request.kind, s.picture.Bounds(), log, limit);
    NeverNothing(framing, request.kind, s.picture.Bounds(), log, limit);
    ImageSizes.SentImagesAreNear(frame.region, framing.longEdge, p);
  }
}
