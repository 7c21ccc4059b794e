/**
 A call of the HTTP agent: attempts made one after the other under one deadline, with backoff
 between them, and what becomes of the response bodies opened on the way.
 */
module HttpRetry {
  import opened Common
  import opened GoInt64
  import opened TimeoutBudget
  import RetryDelay

  const DEFAULT_ATTEMPTS := 3

  datatype RetryOpt = RetryOpt(maxDelay: int, baseDelay: int, retryAppError: bool, attempts: int, idempotent: bool)

  datatype Options = Options(verb: string, expected: seq<int>, retryStatus: seq<int>,
                             retry: Option<RetryOpt>, stream: bool)

  /** A request put on the wire: when its headers were made, and the budget it announced. */
  datatype Send = Send(at: int, ms: nat)

  /** How one attempt ended. */
  datatype Outcome = Success(body: Option<nat>) | Failure(retryable: bool)

  /** One attempt: when it began and ended, the request it sent, if any, and how it ended. */
  datatype Try = Try(start: int, sent: Option<Send>, end: int, outcome: Outcome)

  // What the outside does during one attempt.

  datatype Phase = Passes(took: nat) | Breaks(took: nat, retryable: bool)

  datatype Reply = TransportError(network: bool) | Response(status: int)

  datatype Handling = Handled | AppError(retryable: bool)

  datatype Pause = Fires(late: nat) | Cancelled(after: nat)

  /** Request handlers, discovery, the exchange, the response handler, the random draw, and the pause that follows. */
  datatype Script = Script(handlers: Phase, discovery: Phase, took: nat, reply: Reply, handling: Handling,
                           handlingTook: nat, draw: nat, pause: Pause)

  predicate DelaysFit(o: Options) {
    o.retry.Some? ==> Fits(o.retry.value.baseDelay) && Fits(o.retry.value.maxDelay)
  }

  predicate CanRetry(o: Options) {
    (o.retry.Some? && o.retry.value.idempotent) || o.verb in {"GET", "HEAD", "OPTIONS"}
  }

  /** The most attempts a call may make. */
  function Allowed(o: Options): (n: int)
    ensures n >= 1
    ensures o.retry.None? || (!o.retry.value.idempotent && o.verb !in {"GET", "HEAD", "OPTIONS"}) ==> n == 1
    ensures o.retry.Some? && (o.retry.value.idempotent || o.verb in {"GET", "HEAD", "OPTIONS"}) ==>
              n == if o.retry.value.attempts > 0 then o.retry.value.attempts else 3
  {
    if o.retry.None? || !CanRetry(o) then 1
    else if o.retry.value.attempts <= 0 then DEFAULT_ATTEMPTS
    else o.retry.value.attempts
  }

  // ---------------------------------------------------------------- what an attempt comes to

  /** The request of an attempt begun at `start` leaves: time is left, and handlers and discovery pass. */
  predicate Leaves(deadline: int, x: Script, start: int) {
    start < deadline && x.handlers.Passes? && start + x.handlers.took < deadline && x.discovery.Passes?
  }

  /** Before that, a handler or discovery broke with an error marked retryable. */
  predicate BreaksRetryably(deadline: int, x: Script, start: int) {
    && start < deadline
    && if x.handlers.Breaks? then x.handlers.retryable
       else start + x.handlers.took < deadline && x.discovery.Breaks? && x.discovery.retryable
  }

  /** The reply has an expected status and, outside streams, was handled. */
  predicate Pleases(o: Options, x: Script) {
    x.reply.Response? && x.reply.status in o.expected && (o.stream || x.handling.Handled?)
  }

  /**
   The reply may be retried: a network error, a retry status outside the expected ones, or an error
   of the response handler that is marked retryable or made so by the options.
   */
  predicate MayBeRetried(o: Options, x: Script) {
    || (x.reply.TransportError? && x.reply.network)
    || (x.reply.Response? && x.reply.status !in o.expected && x.reply.status in o.retryStatus)
    || (x.reply.Response? && x.reply.status in o.expected && !o.stream && x.handling.AppError?
        && (x.handling.retryable || (o.retry.Some? && o.retry.value.retryAppError)))
  }

  /** What an attempt comes to, by its own start and what the outside does. */
  predicate Made(o: Options, deadline: int, x: Script, y: Try) {
    && y.start <= y.end
    && if !Leaves(deadline, x, y.start)
       then y.sent.None? && y.outcome == Failure(BreaksRetryably(deadline, x, y.start))
       else
         && y.sent.Some? && y.sent.value.at == y.start + x.handlers.took
         && y.sent.value.ms == Saturate(deadline - y.sent.value.at) / MS
         && (y.outcome.Success? <==> Pleases(o, x))
         && (y.outcome.Success? ==> (y.outcome.body.Some? <==> o.stream))
         && (y.outcome.Failure? ==> (y.outcome.retryable <==> MayBeRetried(o, x)))
  }

  // ---------------------------------------------------------------- what a call comes to

  /** What a call reports: how its last attempt ended, or that its context ended during a backoff. */
  datatype Report = Ended(outcome: Outcome) | ContextEnded

  /** After attempt `n`, ended at `now`, the next backoff ends before the deadline. */
  predicate Room(deadline: int, backoff: (nat, nat) -> int, n: nat, x: Script, now: int) {
    backoff(n, x.draw) < deadline - now
  }

  function Nth(tries: seq<Try>, i: nat): Try
    requires i < |tries|
  {
    tries[i]
  }

  /** The attempts are what the script makes of them. */
  predicate AllMade(o: Options, deadline: int, script: nat -> Script, tries: seq<Try>) {
    forall i {:trigger Nth(tries, i)} :: 0 <= i < |tries| ==> Made(o, deadline, script(i + 1), Nth(tries, i))
  }

  /** Attempt i + 1 was made because attempt i failed retryably, a backoff had room, and its timer fired. */
  predicate Repeated(deadline: int, backoff: (nat, nat) -> int, x: Script, i: nat, y: Try, z: Try) {
    && y.outcome == Failure(true) && Room(deadline, backoff, i, x, y.end) && x.pause.Fires?
    && z.start == y.end + backoff(i, x.draw) + x.pause.late
  }

  predicate AllRepeated(deadline: int, backoff: (nat, nat) -> int, script: nat -> Script, tries: seq<Try>) {
    forall i {:trigger Nth(tries, i)} :: 0 < i < |tries| ==>
      Repeated(deadline, backoff, script(i), i, Nth(tries, i - 1), Nth(tries, i))
  }

  /**
   A whole call: its attempts, why each was repeated, and its end. It ends on a retryable failure
   only for lack of attempts, for lack of time, or because its context ended in the backoff.
   */
  predicate Tells(r: Report, o: Options, deadline: int, backoff: (nat, nat) -> int, script: nat -> Script,
                  start: int, tries: seq<Try>)
  {
    && 0 < |tries| <= Allowed(o) && tries[0].start == start
    && AllMade(o, deadline, script, tries) && AllRepeated(deadline, backoff, script, tries)
    && Closes(r, o, deadline, backoff, script, tries)
  }

  predicate Closes(r: Report, o: Options, deadline: int, backoff: (nat, nat) -> int, script: nat -> Script,
                   tries: seq<Try>)
    requires |tries| > 0
  {
    var n, last := |tries|, tries[|tries| - 1];
    var again := last.outcome == Failure(true) && n < Allowed(o) && Room(deadline, backoff, n, script(n), last.end);
    if r.Ended? then r.outcome == last.outcome && !again else again && script(n).pause.Cancelled?
  }

  /** The request left before the deadline and announced no more than was left of it. */
  predicate InTime(deadline: int, x: Send) {
    x.at < deadline && x.ms * MS <= deadline - x.at
  }

  /** Over a whole call, all under one deadline: requests in time, and every backoff short and ended before it. */
  lemma CallStaysInBudget(r: Report, o: Options, deadline: int, script: nat -> Script, start: int, tries: seq<Try>)
    requires o.retry.Some? && DelaysFit(o)
    requires Tells(r, o, deadline, RetryDelayOf(o.retry.value), script, start, tries)
    ensures |tries| <= Allowed(o)
    ensures forall i :: 0 <= i < |tries| && tries[i].sent.Some? ==> InTime(deadline, tries[i].sent.value)
    ensures forall i :: 0 < i < |tries| ==>
              var delay := RetryDelay.Delay(o.retry.value.baseDelay, o.retry.value.maxDelay, i, script(i).draw);
              0 <= delay < RetryDelay.Cap(o.retry.value.maxDelay) && tries[i - 1].end + delay < deadline
  {
    forall i | 0 <= i < |tries| && tries[i].sent.Some? ensures InTime(deadline, tries[i].sent.value) {
      assert Made(o, deadline, script(i + 1), Nth(tries, i));
    }
    forall i | 0 < i < |tries|
      ensures var delay := RetryDelay.Delay(o.retry.value.baseDelay, o.retry.value.maxDelay, i, script(i).draw);
              0 <= delay < RetryDelay.Cap(o.retry.value.maxDelay) && tries[i - 1].end + delay < deadline
    {
      assert Repeated(deadline, RetryDelayOf(o.retry.value), script(i), i, Nth(tries, i - 1), Nth(tries, i));
    }
  }

  /**
   An attempt is followed by another only if a network error, a retry status outside the expected
   ones or an error of the response handler that may be retried met its request, or the request
   never left because of an error marked retryable.
   */
  lemma RepeatedFor(r: Report, o: Options, deadline: int, backoff: (nat, nat) -> int, script: nat -> Script,
                    start: int, tries: seq<Try>, i: nat)
    requires Tells(r, o, deadline, backoff, script, start, tries) && 0 < i < |tries|
    ensures tries[i - 1].sent.Some? ==>
              match script(i).reply
              case TransportError(network) => network
              case Response(status) =>
                if status !in o.expected then status in o.retryStatus
                else
                  && !o.stream && script(i).handling.AppError?
                  && (script(i).handling.retryable || (o.retry.Some? && o.retry.value.retryAppError))
    ensures tries[i - 1].sent.None? ==>
              || (script(i).handlers.Breaks? && script(i).handlers.retryable)
              || (script(i).handlers.Passes? && script(i).discovery.Breaks? && script(i).discovery.retryable)
  {
    assert Made(o, deadline, script(i), Nth(tries, i - 1));
    assert Repeated(deadline, backoff, script(i), i, Nth(tries, i - 1), Nth(tries, i));
  }

  /** A call ends on a request that may be retried only for lack of attempts, for lack of time, or with its context. */
  lemma EndsOnlyFor(r: Report, o: Options, deadline: int, backoff: (nat, nat) -> int, script: nat -> Script,
                    start: int, tries: seq<Try>)
    requires Tells(r, o, deadline, backoff, script, start, tries) && tries[|tries| - 1].sent.Some?
    requires match script(|tries|).reply
             case TransportError(network) => network
             case Response(status) =>
               if status !in o.expected then status in o.retryStatus
               else
                 && !o.stream && script(|tries|).handling.AppError?
                 && (script(|tries|).handling.retryable || (o.retry.Some? && o.retry.value.retryAppError))
    ensures var n, x := |tries|, script(|tries|);
            || n == Allowed(o)
            || deadline - tries[n - 1].end <= backoff(n, x.draw)
            || (x.pause.Cancelled? && r == ContextEnded)
  {
    assert Made(o, deadline, script(|tries|), Nth(tries, |tries| - 1));
  }

  /** A call reports success exactly if its last request left, got an expected status and, if no stream, was handled. */
  lemma SucceedsIff(r: Report, o: Options, deadline: int, backoff: (nat, nat) -> int, script: nat -> Script,
                    start: int, tries: seq<Try>)
    requires Tells(r, o, deadline, backoff, script, start, tries)
    ensures var n, x := |tries|, script(|tries|);
            (r.Ended? && r.outcome.Success?) <==>
            && tries[n - 1].sent.Some?
            && x.reply.Response? && x.reply.status in o.expected && (o.stream || x.handling.Handled?)
  {
    assert Made(o, deadline, script(|tries|), Nth(tries, |tries| - 1));
  }

  lemma OneMoreTry(o: Options, deadline: int, backoff: (nat, nat) -> int, script: nat -> Script, tries: seq<Try>,
                   y: Try)
    requires AllMade(o, deadline, script, tries) && AllRepeated(deadline, backoff, script, tries)
    requires Made(o, deadline, script(|tries| + 1), y)
    requires tries != [] ==> Repeated(deadline, backoff, script(|tries|), |tries|, tries[|tries| - 1], y)
    ensures AllMade(o, deadline, script, tries + [y]) && AllRepeated(deadline, backoff, script, tries + [y])
  {
    var all := tries + [y];
    forall i | 0 <= i < |all| ensures Made(o, deadline, script(i + 1), Nth(all, i)) {
      assert i < |tries| ==> Nth(all, i) == Nth(tries, i);
    }
    forall i | 0 < i < |all| ensures Repeated(deadline, backoff, script(i), i, Nth(all, i - 1), Nth(all, i)) {
      if i < |tries| {
        assert Nth(all, i) == Nth(tries, i) && Nth(all, i - 1) == Nth(tries, i - 1);
      }
    }
  }

  // ---------------------------------------------------------------- the agent

  /** The clock, the bodies opened and closed, and the attempts of the current call. */
  class Wire {
    var now: int
    var bodies: nat
    var closed: set<nat>
    var tries: seq<Try>

    constructor (start: int)
      ensures Valid() && now == start && bodies == 0 && closed == {} && tries == []
    {
      now, bodies, closed, tries := start, 0, {}, [];
    }

    ghost predicate Valid()
      reads this`bodies, this`closed
    {
      forall b :: b in closed ==> b < bodies
    }

    ghost function OpenBodies(): set<nat>
      reads this`bodies, this`closed
    {
      set b: nat | b < bodies && b !in closed
    }

    method Pass(d: nat)
      modifies this`now
      ensures now == old(now) + d
    {
      now := now + d;
    }
  }

  datatype Prepared = Prepared(sent: Send) | NotPrepared(retryable: bool)

  class Agent {
    var ctx: Ctx
    const opts: Options
    const quota: int

    ghost predicate Ready()
      reads this
    {
      && ctx.recorded == ctx.deadline && ctx.deadline.Some?
      && DelaysFit(opts)
    }

    constructor (c: Ctx, o: Options, q: int)
      ensures ctx == c && quota == q
      ensures opts == o.(expected := if o.expected == [] then [200] else o.expected)
    {
      ctx, quota := c, q;
      opts := o.(expected := if o.expected == [] then [200] else o.expected);
    }

    /** prepareRequest: a request is prepared exactly if time is left for it and nothing on the way breaks. */
    method PrepareRequest(w: Wire, x: Script) returns (r: Prepared)
      requires Ready()
      modifies w`now
      ensures w.now >= old(w.now)
      ensures r.Prepared? <==> Leaves(ctx.deadline.value, x, old(w.now))
      ensures r.Prepared? ==>
                && r.sent.at == old(w.now) + x.handlers.took
                && r.sent.ms == Saturate(ctx.deadline.value - r.sent.at) / MS
      ensures r.NotPrepared? ==> (r.retryable <==> BreaksRetryably(ctx.deadline.value, x, old(w.now)))
    {
      if Saturate(ctx.deadline.value - w.now) <= 0 {
        return NotPrepared(false);
      }
      w.Pass(x.handlers.took);
      if x.handlers.Breaks? {
        return NotPrepared(x.handlers.retryable);
      }
      var at, said := w.now, Announce(ctx, w.now);
      if said.Exhausted? {
        return NotPrepared(false);
      }
      w.Pass(x.discovery.took);
      if x.discovery.Breaks? {
        return NotPrepared(x.discovery.retryable);
      }
      r := Prepared(Send(at, said.ms));
    }

    /** The exchange of a prepared request, up to the judgement of its reply. */
    method Exchange(w: Wire, x: Script) returns (r: Outcome)
      requires w.Valid()
      modifies w`now, w`bodies, w`closed
      ensures w.Valid() && w.now >= old(w.now) && old(w.bodies) <= w.bodies
      ensures r.Success? <==> Pleases(opts, x)
      ensures r.Success? ==> r.body == if opts.stream then Some(old(w.bodies)) else None
      ensures r.Failure? ==> (r.retryable <==> MayBeRetried(opts, x))
      // the reply's body is closed unless a successful stream hands it on
      ensures w.bodies == old(w.bodies) + if x.reply.Response? then 1 else 0
      ensures w.OpenBodies() == old(w.OpenBodies()) + (if r.Success? && r.body.Some? then {r.body.value} else {})
    {
      w.Pass(x.took);
      if x.reply.TransportError? {
        return Failure(x.reply.network);
      }
      var body := w.bodies;
      w.bodies := body + 1;
      if x.reply.status !in opts.expected {
        w.closed := w.closed + {body};
        return Failure(x.reply.status in opts.retryStatus);
      }
      if opts.stream {
        return Success(Some(body));
      }
      w.Pass(x.handlingTook);
      w.closed := w.closed + {body};
      if x.handling.AppError? {
        return Failure(x.handling.retryable || (opts.retry.Some? && opts.retry.value.retryAppError));
      }
      r := Success(None);
    }

    /** doHTTP: one attempt. */
    method DoHTTP(w: Wire, x: Script) returns (r: Outcome)
      requires Ready() && w.Valid()
      modifies w
      ensures w.Valid() && old(w.bodies) <= w.bodies && |w.tries| == |old(w.tries)| + 1
      ensures var y := w.tries[|old(w.tries)|];
              && w.tries == old(w.tries) + [y] && Made(opts, ctx.deadline.value, x, y)
              && y.start == old(w.now) && y.end == w.now && y.outcome == r
      ensures w.OpenBodies() == old(w.OpenBodies()) + Handed(Ended(r))
      ensures r.Failure? ==> w.OpenBodies() == old(w.OpenBodies())
      ensures r.Success? && r.body.Some? ==> r.body.value >= old(w.bodies)
    {
      var start := w.now;
      var p := PrepareRequest(w, x);
      if p.NotPrepared? {
        r := Failure(p.retryable);
        w.tries := w.tries + [Try(start, None, w.now, r)];
      } else {
        r := Exchange(w, x);
        w.tries := w.tries + [Try(start, Some(p.sent), w.now, r)];
      }
    }

    /** The step between two attempts: none if there is no room for it, and `ended` if the context ends in it. */
    method Backoff(w: Wire, n: nat, x: Script, backoff: (nat, nat) -> int) returns (again: bool, ended: bool)
      requires Ready() && Bounded(backoff, MAX)
      modifies w`now
      ensures again || ended <==> Room(ctx.deadline.value, backoff, n, x, old(w.now))
      ensures ended <==> Room(ctx.deadline.value, backoff, n, x, old(w.now)) && x.pause.Cancelled?
      ensures again ==> x.pause.Fires? && w.now == old(w.now) + backoff(n, x.draw) + x.pause.late
    {
      var delay := backoff(n, x.draw);
      if Saturate(ctx.deadline.value - w.now) <= delay {
        return false, false;
      }
      if x.pause.Cancelled? {
        w.Pass(x.pause.after);
        return false, true;
      }
      w.Pass(delay + x.pause.late);
      return true, false;
    }

    /** retryDoHTTP, on a record that is still empty; `backoff` is the agent's retryDelay. */
    method RetryDoHTTP(w: Wire, script: nat -> Script, backoff: (nat, nat) -> int) returns (r: Report)
      requires Ready() && w.Valid() && opts.retry.Some? && Bounded(backoff, MAX) && w.tries == []
      modifies w
      ensures w.Valid() && Tells(r, opts, ctx.deadline.value, backoff, script, old(w.now), w.tries)
      ensures w.OpenBodies() == old(w.OpenBodies()) + Handed(r)
    {
      var attempts := if opts.retry.value.attempts <= 0 then DEFAULT_ATTEMPTS else opts.retry.value.attempts;
      if !CanRetry(opts) {
        attempts := 1;
      }
      var attempt := 1;
      while true
        invariant 1 <= attempt <= attempts == Allowed(opts) && |w.tries| == attempt - 1
        invariant w.Valid() && w.OpenBodies() == old(w.OpenBodies())
        invariant if w.tries == [] then w.now == old(w.now)
                  else w.tries[0].start == old(w.now) && Waited(w.tries, ctx.deadline.value, backoff, script, w.now)
        invariant AllMade(opts, ctx.deadline.value, script, w.tries)
        invariant AllRepeated(ctx.deadline.value, backoff, script, w.tries)
        decreases attempts - attempt
      {
        var x := script(attempt);
        ghost var before := w.tries;
        var outcome := DoHTTP(w, x);
        OneMoreTry(opts, ctx.deadline.value, backoff, script, before, w.tries[attempt - 1]);
        if outcome.Success? || attempt == attempts || !outcome.retryable {
          return Ended(outcome);
        }
        var again, ended := Backoff(w, attempt, x, backoff);
        if ended {
          return ContextEnded;
        }
        if !again {
          return Ended(outcome);
        }
        attempt := attempt + 1;
      }
    }

    /** executeHTTP behind Do and DoStream: one attempt, or as many as the retry options allow. */
    method Execute(w: Wire, script: nat -> Script) returns (r: Report)
      requires w.Valid() && DelaysFit(opts)
      modifies this`ctx, w
      ensures Ready() && ctx == InitContext(old(ctx), quota, old(w.now))
      ensures w.Valid()
      ensures opts.retry.Some? ==>
                Tells(r, opts, ctx.deadline.value, RetryDelayOf(opts.retry.value), script, old(w.now), w.tries)
      ensures opts.retry.None? ==>
                && |w.tries| == 1 && w.tries[0].start == old(w.now) && r == Ended(w.tries[0].outcome)
                && Made(opts, ctx.deadline.value, script(1), w.tries[0])
      // every body is closed but the one a successful stream returns
      ensures w.OpenBodies() == old(w.OpenBodies()) + Handed(r)
    {
      CallAnnouncesItsDeadline(ctx, quota, w.now, w.now);
      ctx := InitContext(ctx, quota, w.now);
      w.tries := [];
      if opts.retry.None? {
        var outcome := DoHTTP(w, script(1));
        r := Ended(outcome);
      } else {
        r := RetryDoHTTP(w, script, RetryDelayOf(opts.retry.value));
      }
    }
  }

  /** The last attempt failed retryably and its backoff is over. */
  predicate Waited(tries: seq<Try>, deadline: int, backoff: (nat, nat) -> int, script: nat -> Script, now: int)
    requires tries != []
  {
    var n, y := |tries|, tries[|tries| - 1];
    && y.outcome == Failure(true) && Room(deadline, backoff, n, script(n), y.end) && script(n).pause.Fires?
    && now == y.end + backoff(n, script(n).draw) + script(n).pause.late
  }

  /** retryDelay of an agent, by attempt and random draw. */
  function RetryDelayOf(opt: RetryOpt): (f: (nat, nat) -> int)
    requires Fits(opt.baseDelay) && Fits(opt.maxDelay)
    ensures Bounded(f, MAX)
  {
    (n: nat, draw: nat) => if n == 0 then 0 else RetryDelay.Delay(opt.baseDelay, opt.maxDelay, n, draw)
  }

  ghost predicate Bounded(backoff: (nat, nat) -> int, cap: int) {
    forall n: nat, draw: nat :: 0 <= backoff(n, draw) < cap
  }

  /** The body a report hands to the caller. */
  function Handed(r: Report): set<nat> {
    if r.Ended? && r.outcome.Success? && r.outcome.body.Some? then {r.outcome.body.value} else {}
  }
}
