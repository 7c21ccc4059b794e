/**
 One timeout budget over a chain of HTTP hops. Each hop turns the remaining milliseconds it was
 told into a deadline on its own clock reading, hands that deadline to its outgoing call, and
 announces what remains when it sends. Instants and durations are in nanoseconds.
 */
module TimeoutBudget {
  import opened Common
  import opened GoInt64

  /** What a context knows of time: the recorded authoritative deadline, and the one it is cancelled at. */
  datatype Ctx = Ctx(recorded: Option<int>, deadline: Option<int>)

  const DEFAULT_QUOTA := 5_000_000_000

  /** `context.WithDeadline`: never later than the parent's. */
  function WithDeadline(ctx: Ctx, d: int): (r: Ctx)
    ensures r.deadline.Some? && r.deadline.value <= d && r.recorded == ctx.recorded
    ensures ctx.deadline.Some? ==> r.deadline.value <= ctx.deadline.value
    ensures r.deadline == Some(d) || r.deadline == ctx.deadline
  {
    ctx.(deadline := if ctx.deadline.Some? && ctx.deadline.value < d then ctx.deadline else Some(d))
  }

  /** contextWithAuthoritativeDeadline. */
  function WithAuthoritative(ctx: Ctx, d: int): (r: Ctx)
    ensures r.recorded == r.deadline && r.deadline == WithDeadline(ctx, d).deadline
  {
    var earlier := if ctx.deadline.Some? && ctx.deadline.value < d then ctx.deadline.value else d;
    WithDeadline(ctx.(recorded := Some(earlier)), earlier)
  }

  /** authoritativeDeadline: the recorded one wins. */
  function Authoritative(ctx: Ctx): Option<int> {
    if ctx.recorded.Some? then ctx.recorded else ctx.deadline
  }

  /** The timeout asked of an inbound request; `header` is its parsed budget in milliseconds, if it parses. */
  function Asked(header: Option<int>, defaultTimeout: int): int {
    if header.Some? && header.value > 0 then Wrap(header.value * MS) else defaultTimeout
  }

  function InboundTimeout(header: Option<int>, defaultTimeout: int, maxTimeout: int): int {
    var t := Asked(header, defaultTimeout);
    if maxTimeout > 0 && (t == 0 || t > maxTimeout) then maxTimeout else t
  }

  function ContextFromHeaders(ctx: Ctx, header: Option<int>, defaultTimeout: int, maxTimeout: int, now: int): Ctx {
    var t := InboundTimeout(header, defaultTimeout, maxTimeout);
    if t > 0 then WithAuthoritative(ctx, now + t) else ctx
  }

  /** The part of Agent.init that settles the call's deadline. */
  function InitContext(ctx: Ctx, quota: int, now: int): Ctx {
    var known := Authoritative(ctx);
    if known.Some? then WithAuthoritative(ctx, known.value)
    else WithAuthoritative(ctx, now + if quota <= 0 then DEFAULT_QUOTA else quota)
  }

  datatype Announcement = Silent | Exhausted | Remaining(ms: nat)

  /** What injectTraceHeaders says about the time left. */
  function Announce(ctx: Ctx, now: int): Announcement {
    var d := Authoritative(ctx);
    if d.None? then Silent
    else
      var remaining := Saturate(d.value - now);
      if remaining <= 0 then Exhausted else Remaining(remaining / MS)
  }

  // Local contexts

  datatype LocalStep =
    | Derive(deadline: int)
    | Record(deadline: int)
    | Receive(header: Option<int>, defaultTimeout: int, maxTimeout: int, now: int)
    | StartCall(quota: int, now: int)

  function Apply(ctx: Ctx, step: LocalStep): Ctx {
    match step
    case Derive(d) => WithDeadline(ctx, d)
    case Record(d) => WithAuthoritative(ctx, d)
    case Receive(header, dt, mt, now) => ContextFromHeaders(ctx, header, dt, mt, now)
    case StartCall(quota, now) => InitContext(ctx, quota, now)
  }

  function ApplyAll(ctx: Ctx, steps: seq<LocalStep>): Ctx
    decreases |steps|
  {
    if steps == [] then ctx else ApplyAll(Apply(ctx, steps[0]), steps[1..])
  }

  /** The context is cancelled by `bound`. */
  predicate DueBy(ctx: Ctx, bound: int) {
    ctx.deadline.Some? && ctx.deadline.value <= bound
  }

  /** Whatever contexts a process derives from one that has a deadline, none is cancelled later. */
  lemma {:induction false} LocalNeverExtends(ctx: Ctx, steps: seq<LocalStep>, bound: int)
    requires DueBy(ctx, bound)
    ensures DueBy(ApplyAll(ctx, steps), bound)
    decreases |steps|
  {
    if steps != [] {
      LocalNeverExtends(Apply(ctx, steps[0]), steps[1..], bound);
    }
  }

  /** The deadline the process would announce is by `bound`. */
  predicate AnnouncedBy(ctx: Ctx, bound: int) {
    Authoritative(ctx).Some? && Authoritative(ctx).value <= bound
  }

  /** From a context that is cancelled by then, the authoritative deadline is never extended either. */
  lemma {:induction false} AuthoritativeNeverExtends(ctx: Ctx, steps: seq<LocalStep>, bound: int)
    requires DueBy(ctx, bound) && AnnouncedBy(ctx, bound)
    ensures AnnouncedBy(ApplyAll(ctx, steps), bound)
    decreases |steps|
  {
    if steps != [] {
      AuthoritativeNeverExtends(Apply(ctx, steps[0]), steps[1..], bound);
    }
  }

  /**
   A recorded deadline alone does not bind an inbound request: it is kept exactly if no timeout
   is set, or the new deadline or the context's own cancellation comes no later.
   */
  lemma RecordedKeptIff(ctx: Ctx, header: Option<int>, defaultTimeout: int, maxTimeout: int, now: int)
    requires ctx.recorded.Some?
    ensures var t := InboundTimeout(header, defaultTimeout, maxTimeout);
            AnnouncedBy(ContextFromHeaders(ctx, header, defaultTimeout, maxTimeout, now), ctx.recorded.value)
            <==> t <= 0 || now + t <= ctx.recorded.value || DueBy(ctx, ctx.recorded.value)
  {
  }

  /** From whatever context a call starts, it announces its real deadline and never more than is left of it. */
  lemma CallAnnouncesItsDeadline(ctx: Ctx, quota: int, now: int, sent: int)
    ensures var call := InitContext(ctx, quota, now);
            && call.recorded == call.deadline && call.deadline.Some?
            && (Announce(call, sent) == Exhausted <==> call.deadline.value <= sent)
            && (Announce(call, sent).Remaining? ==> Announce(call, sent).ms * MS <= call.deadline.value - sent)
            && (Announce(call, sent).Remaining? && call.deadline.value - sent <= MAX ==>
                  call.deadline.value - sent < (Announce(call, sent).ms + 1) * MS)
  {
  }

  /**
   The deadline of a call is the earlier of the recorded deadline and the context's own; without
   either, the call gets its quota from now on, or five seconds if it names none.
   */
  lemma CallDeadline(ctx: Ctx, quota: int, now: int)
    ensures var d := InitContext(ctx, quota, now).deadline;
            && (ctx.recorded.Some? && ctx.deadline.Some? ==>
                  d == if ctx.recorded.value <= ctx.deadline.value then ctx.recorded else ctx.deadline)
            && (ctx.recorded.Some? && ctx.deadline.None? ==> d == ctx.recorded)
            && (ctx.recorded.None? && ctx.deadline.Some? ==> d == ctx.deadline)
            && (ctx.recorded.None? && ctx.deadline.None? && quota > 0 ==> d == Some(now + quota))
            && (ctx.recorded.None? && ctx.deadline.None? && quota <= 0 ==> d == Some(now + 5000 * MS))
  {
  }

  // Inbound requests

  /**
   The deadline an inbound request is served with: the positive budget of the header (or, without
   one, the default), cut to a positive maximum, from now on, and no later than the context's own.
   */
  lemma InboundDeadline(ctx: Ctx, header: Option<int>, defaultTimeout: int, maxTimeout: int, now: int, asked: int)
    requires if header.Some? && header.value > 0 then asked == header.value * MS && Fits(asked)
             else asked == defaultTimeout
    ensures var r := ContextFromHeaders(ctx, header, defaultTimeout, maxTimeout, now);
            && (asked < 0 || (asked == 0 && maxTimeout <= 0) ==> r == ctx)
            && (asked > 0 && (maxTimeout <= 0 || asked <= maxTimeout) ==> EarlierOf(ctx, now + asked, r))
            && (maxTimeout > 0 && (asked == 0 || asked > maxTimeout) ==> EarlierOf(ctx, now + maxTimeout, r))
  {
  }

  /** Recorded and real deadline are `d`, or the context's own if that comes first. */
  predicate EarlierOf(ctx: Ctx, d: int, r: Ctx) {
    && r.recorded == r.deadline
    && r.deadline == if ctx.deadline.Some? && ctx.deadline.value < d then ctx.deadline else Some(d)
  }

  /** A budget this package announces survives the receiver's conversion to a duration. */
  lemma AnnouncedFits(ctx: Ctx, now: int)
    requires Announce(ctx, now).Remaining?
    ensures Wrap(Announce(ctx, now).ms * MS) == Announce(ctx, now).ms * MS
  {
  }

  /** A positive maximum bounds every inbound request, unless the timeout asked for is negative. */
  lemma MaximumBoundsIff(ctx: Ctx, header: Option<int>, defaultTimeout: int, maxTimeout: int, now: int)
    requires maxTimeout > 0 && ctx.deadline.None?
    ensures DueBy(ContextFromHeaders(ctx, header, defaultTimeout, maxTimeout, now), now + maxTimeout)
            <==> Asked(header, defaultTimeout) >= 0
  {
  }

  /** A header can make it negative: its milliseconds overflow the nanosecond count, and no deadline is set at all. */
  lemma HugeHeaderEscapesMaximum(defaultTimeout: int, maxTimeout: int, now: int)
    ensures ContextFromHeaders(Ctx(None, None), Some(MAX / MS + 1), defaultTimeout, maxTimeout, now) == Ctx(None, None)
  {
    assert Wrap((MAX / MS + 1) * MS) == (MAX / MS + 1) * MS - SPAN;
  }

  // Chains of hops

  /**
   One process on the way: the context and limits it serves with, when the request arrived, the
   deadlines its code derived, and when its own call was started and sent.
   */
  datatype Hop = Hop(base: Ctx, defaultTimeout: int, maxTimeout: int, received: int,
                     derived: seq<LocalStep>, quota: int, started: int, sent: int)

  /** The context the hop serves the request with. */
  function Serving(h: Hop, header: Option<int>): Ctx {
    ContextFromHeaders(h.base, header, h.defaultTimeout, h.maxTimeout, h.received)
  }

  /** The context of the hop's outgoing call. */
  function Calling(h: Hop, header: Option<int>): (r: Ctx)
    ensures r.recorded == r.deadline && r.deadline.Some?
  {
    InitContext(ApplyAll(Serving(h, header), h.derived), h.quota, h.started)
  }

  /** The budget hop `i` was told, when the first one was told `first`. */
  function HeaderInto(first: Option<int>, hops: seq<Hop>, i: nat): Option<int>
    requires i < |hops|
    decreases i
  {
    if i == 0 then first
    else
      var said := Announce(Calling(hops[i - 1], HeaderInto(first, hops, i - 1)), hops[i - 1].sent);
      if said.Remaining? then Some(said.ms) else None
  }

  function CallAt(first: Option<int>, hops: seq<Hop>, i: nat): Ctx
    requires i < |hops|
  {
    Calling(hops[i], HeaderInto(first, hops, i))
  }

  /** When hop `i` sends, at least a millisecond is left. */
  predicate SendsInTime(first: Option<int>, hops: seq<Hop>, i: nat)
    requires i < |hops|
  {
    CallAt(first, hops, i).deadline.value - hops[i].sent >= MS
  }

  /** Time from leaving hop i to arriving at hop i + 1, for i from `a` to `b`. */
  function Transit(hops: seq<Hop>, a: nat, b: nat): int
    requires a <= b < |hops|
    decreases b - a
  {
    if a == b then 0 else hops[a + 1].received - hops[a].sent + Transit(hops, a + 1, b)
  }

  /** An announced budget of a millisecond or more is a bound on the receiver's deadline. */
  lemma ServedWithinBudget(h: Hop, call: Ctx, sent: int)
    requires call.recorded == call.deadline && call.deadline.Some? && call.deadline.value - sent >= MS
    ensures Announce(call, sent).Remaining?
    ensures DueBy(Serving(h, Some(Announce(call, sent).ms)), call.deadline.value + h.received - sent)
  {
    AnnouncedFits(call, sent);
  }

  lemma HopWithinBudget(first: Option<int>, hops: seq<Hop>, i: nat)
    requires i + 1 < |hops| && SendsInTime(first, hops, i)
    ensures DueBy(CallAt(first, hops, i + 1),
                  CallAt(first, hops, i).deadline.value + hops[i + 1].received - hops[i].sent)
  {
    var call, h := CallAt(first, hops, i), hops[i + 1];
    ServedWithinBudget(h, call, hops[i].sent);
    var bound := call.deadline.value + h.received - hops[i].sent;
    LocalNeverExtends(Serving(h, HeaderInto(first, hops, i + 1)), h.derived, bound);
  }

  /**
   Over any chain of hops that each send with a millisecond left, a later hop's deadline is at
   most an earlier one's plus the time the requests between them spent in transit.
   */
  lemma {:induction false} ChainWithinBudget(first: Option<int>, hops: seq<Hop>, a: nat, b: nat)
    requires a <= b < |hops|
    requires forall i :: a <= i < b ==> SendsInTime(first, hops, i)
    ensures DueBy(CallAt(first, hops, b), CallAt(first, hops, a).deadline.value + Transit(hops, a, b))
    decreases b - a
  {
    if a < b {
      HopWithinBudget(first, hops, a);
      ChainWithinBudget(first, hops, a + 1, b);
    }
  }

  /** Less than a millisecond is announced as zero, and zero counts as no header. */
  lemma ZeroIsNoHeader(h: Hop, call: Ctx, sent: int)
    requires call.recorded == call.deadline && call.deadline.Some? && 0 < call.deadline.value - sent < MS
    ensures Announce(call, sent) == Remaining(0) && Serving(h, Some(0)) == Serving(h, None)
  {
  }

  /**
   So, for a receiver that starts from a fresh context, the budget is kept exactly if a
   millisecond was left or the receiver's own timeout fits into what was left.
   */
  lemma BudgetKeptIff(h: Hop, call: Ctx, sent: int)
    requires call.recorded == call.deadline && call.deadline.Some? && 0 < call.deadline.value - sent
    requires h.base == Ctx(None, None)
    ensures var left := call.deadline.value - sent;
            var own := InboundTimeout(None, h.defaultTimeout, h.maxTimeout);
            && Announce(call, sent).Remaining?
            && (DueBy(Serving(h, Some(Announce(call, sent).ms)), call.deadline.value + h.received - sent)
                <==> left >= MS || 0 < own <= left)
  {
    if call.deadline.value - sent >= MS {
      ServedWithinBudget(h, call, sent);
    } else {
      ZeroIsNoHeader(h, call, sent);
    }
  }

  /** Half a millisecond left becomes the receiver's whole default. */
  lemma SubMillisecondRestartsBudget(sent: int, received: int)
    ensures var call := Ctx(Some(sent + MS / 2), Some(sent + MS / 2));
            var h := Hop(Ctx(None, None), 1000 * MS, 0, received, [], 0, received, received);
            && Announce(call, sent).Remaining?
            && Serving(h, Some(Announce(call, sent).ms)).deadline == Some(received + 1000 * MS)
  {
  }
}
