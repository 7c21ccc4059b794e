/**
 Critical sections on MongoDB: MutexDo and MutexTryDo make a context that ends one
 default TTL after the call, lock a fresh mutex for that same TTL, run the action under
 the context and unlock. Replies may be lost: the fresh mutex is then dropped and its
 last write may land at any later time.
 */
module MongoCriticalSection {
  import opened Common
  import opened MongoMutex

  /** Between a successful lock and the deferred Unlock. */
  predicate InAction(s: Sys, h: nat) {
    h in s.handles && s.handles[h].mode.Scoped? && s.handles[h].detail.Some? && s.handles[h].pc.Idle?
  }

  predicate Acts(s: Sys, h: nat, key: string) {
    InAction(s, h) && s.handles[h].key == key
  }

  /** No lease of a MutexDo call is asked for that would end before its context does. */
  predicate Budgeted(s: Sys, hd: Handle) {
    hd.mode.Scoped? ==>
      && hd.mode.deadline <= s.now + hd.mode.ttl
      && (InFlight(hd).Insert? || InFlight(hd).Swap? ==> hd.mode.deadline <= InFlight(hd).expires)
      && (hd.detail.Some? ==> hd.mode.deadline <= hd.detail.value.expires)
  }

  predicate AllBudgeted(s: Sys) {
    forall h :: h in s.handles ==> Budgeted(s, s.handles[h])
  }

  lemma BudgetedOwn(s: Sys, hd: Handle, e: Event, t: Sys)
    requires Budgeted(s, hd) && Ordered(s, hd) && t.now == s.now
    ensures Budgeted(t, HandleAfter(s, hd, e))
  {
  }

  lemma BudgetedStep(s: Sys, e: Event)
    requires Tidy(s) && AllBudgeted(s)
    ensures AllBudgeted(Next(s, e))
  {
    OthersUntouched(s, e);
    forall g | g in Next(s, e).handles ensures Budgeted(Next(s, e), Next(s, e).handles[g]) {
      if g in s.handles {
        assert Budgeted(s, s.handles[g]) && Ordered(s, s.handles[g]);
        if Actor(e) == Some(g) && !e.NewMutex? && !e.StartDo? {
          BudgetedOwn(s, s.handles[g], e, Next(s, e));
        }
      }
    }
  }

  lemma {:induction false} BudgetedRun(evs: seq<Event>)
    ensures AllBudgeted(Run(INIT, evs))
    decreases |evs|
  {
    if evs != [] {
      BudgetedRun(evs[..|evs| - 1]);
      TidyRun(evs[..|evs| - 1]);
      BudgetedStep(Run(INIT, evs[..|evs| - 1]), evs[|evs| - 1]);
    }
  }

  /** The context of a running action outlives its stored lease by less than a millisecond, if at all. */
  lemma DeadlineNearLease(evs: seq<Event>, h: nat)
    requires InAction(Run(INIT, evs), h)
    ensures var hd := Run(INIT, evs).handles[h];
            && Trunc(hd.mode.deadline) <= Trunc(hd.detail.value.expires)
            && hd.mode.deadline < Trunc(hd.detail.value.expires) + MS
            && (hd.mode.deadline % MS == 0 ==> hd.mode.deadline <= Trunc(hd.detail.value.expires))
  {
    BudgetedRun(evs);
    var hd := Run(INIT, evs).handles[h];
    assert Budgeted(Run(INIT, evs), hd);
    TruncMonotone(hd.mode.deadline, hd.detail.value.expires);
  }

  /**
   Two actions on one key are never both within their deadlines, counted to the last
   whole millisecond, across any number of clients and lost replies.
   */
  lemma ActionsNeverOverlap(evs: seq<Event>, key: string, a: nat, b: nat)
    requires Anonymous(evs, key)
    requires Acts(Run(INIT, evs), a, key) && Acts(Run(INIT, evs), b, key)
    requires Run(INIT, evs).now <= Trunc(Run(INIT, evs).handles[a].mode.deadline)
    requires Run(INIT, evs).now <= Trunc(Run(INIT, evs).handles[b].mode.deadline)
    ensures a == b
  {
    DeadlineNearLease(evs, a);
    DeadlineNearLease(evs, b);
    MutualExclusion(evs, key, a, b);
  }

  // ---------------------------------------------------------------- deadlines within a millisecond

  /** A call of MutexDo: when it began and the TTL of its lock and its context. */
  datatype Call = Call(start: Time, ttl: Time)

  function Deadline(x: Call): Time {
    x.start + x.ttl
  }

  /** The handle is in the action of call `x` on the key, within the call's exact deadline. */
  predicate Within(s: Sys, h: nat, key: string, x: Call) {
    Acts(s, h, key) && s.handles[h].mode == Scoped(x.ttl, Deadline(x)) && s.now <= Deadline(x)
  }

  /** In some run without identities on the key, actions of two such calls go on at once. */
  ghost predicate MayOverlap(key: string, x: Call, y: Call) {
    exists s, a, b :: Within(s, a, key, x) && Within(s, b, key, y) && a != b && Reachable(s, Use(key, NONE))
  }

  /** The earlier of the two deadlines. */
  function Earlier(x: Call, y: Call): Time {
    if Deadline(x) <= Deadline(y) then Deadline(x) else Deadline(y)
  }

  /**
   The store keeps leases to the millisecond, contexts are exact: two calls on a key can
   overlap within both their deadlines exactly if both have begun by the earlier deadline
   and that deadline is not a whole millisecond.
   */
  lemma OverlapIff(key: string, x: Call, y: Call)
    ensures MayOverlap(key, x, y) <==>
            x.start <= Earlier(x, y) && y.start <= Earlier(x, y) && Earlier(x, y) % MS != 0
  {
    if MayOverlap(key, x, y) {
      OverlapOnlyIf(key, x, y);
    }
    if x.start <= Earlier(x, y) && y.start <= Earlier(x, y) && Earlier(x, y) % MS != 0 {
      if Deadline(x) <= Deadline(y) {
        OverlapIf(key, x, y);
      } else {
        OverlapIf(key, y, x);
      }
    }
  }

  /** Calls whose deadlines are all whole milliseconds never overlap within them. */
  lemma WholeDeadlinesNeverOverlap(key: string, x: Call, y: Call)
    requires Deadline(x) % MS == 0 && Deadline(y) % MS == 0
    ensures !MayOverlap(key, x, y)
  {
    OverlapIff(key, x, y);
  }

  lemma OverlapOnlyIf(key: string, x: Call, y: Call)
    requires MayOverlap(key, x, y)
    ensures x.start <= Earlier(x, y) && y.start <= Earlier(x, y) && Earlier(x, y) % MS != 0
  {
    var s, a, b :| Within(s, a, key, x) && Within(s, b, key, y) && a != b && Reachable(s, Use(key, NONE));
    var evs: seq<Event> :| Run(INIT, evs) == s && UsesOnly(NONE, evs, key);
    BudgetedRun(evs);
    assert Budgeted(s, s.handles[a]) && Budgeted(s, s.handles[b]);
    if Earlier(x, y) % MS == 0 {
      TruncMonotone(Earlier(x, y), Deadline(x));
      TruncMonotone(Earlier(x, y), Deadline(y));
      ActionsNeverOverlap(evs, key, a, b);
    }
  }

  function Caller(key: string, x: Call): Handle {
    Handle(key, Scoped(x.ttl, Deadline(x)), None, Idle)
  }

  lemma ReachTime(s: Sys, u: Use, now: Time)
    requires Reachable(s, u) && s.now <= now
    ensures Reachable(s.(now := now), u)
  {
    ReachNext(s, Tick(now - s.now), u);
  }

  /** At the beginning of `x`, its handle is made. */
  lemma ReachStart(s: Sys, u: Use, h: nat, x: Call)
    requires Reachable(s, u) && s.now <= x.start && h !in s.handles
    ensures Reachable(With(s, h, Caller(u.key, x)).(now := x.start), u)
  {
    var t := s.(now := x.start);
    ReachTime(s, u, x.start);
    ReachNext(t, StartDo(h, u.key, x.ttl), u);
    assert Next(t, StartDo(h, u.key, x.ttl)) == With(s, h, Caller(u.key, x)).(now := x.start);
  }

  /** The first call has won its lock at once; the second has begun; it is the first one's deadline. */
  predicate Staged(s: Sys, key: string, x: Call, y: Call) {
    && s.now == Deadline(x) && 1 in s.handles && 2 in s.handles && 3 !in s.handles
    && Acts(s, 1, key) && s.handles[1].mode == Scoped(x.ttl, Deadline(x))
    && s.handles[2] == Caller(key, y)
    && key in s.store && s.store[key].expires == Trunc(Deadline(x))
  }

  lemma WonAtStart(s: Sys, u: Use, x: Call) returns (t: Sys)
    requires Reachable(s, u) && s.now <= x.start && 1 !in s.handles && u.key !in s.store && "" in u.ids
    ensures Reachable(t, u) && t.now == x.start && Acts(t, 1, u.key) && t.handles[1].mode == Scoped(x.ttl, Deadline(x))
    ensures t.handles.Keys == s.handles.Keys + {1} && (forall h :: h in s.handles ==> t.handles[h] == s.handles[h])
    ensures u.key in t.store && t.store[u.key].expires == Trunc(Deadline(x))
  {
    ReachStart(s, u, 1, x);
    var begun := With(s, 1, Caller(u.key, x)).(now := x.start);
    InsertWins(begun, 1, LockOpt(x.ttl, ""), u);
    t := Won(begun, 1, LockOpt(x.ttl, ""));
  }

  lemma ReachStaged(key: string, x: Call, y: Call) returns (s: Sys)
    requires x.start <= Deadline(x) && y.start <= Deadline(x)
    ensures Reachable(s, Use(key, NONE)) && Staged(s, key, x, y)
  {
    var u := Use(key, NONE);
    ReachInit(u);
    if x.start <= y.start {
      var t := WonAtStart(INIT, u, x);
      ReachStart(t, u, 2, y);
      s := With(t, 2, Caller(key, y)).(now := y.start);
    } else {
      ReachStart(INIT, u, 2, y);
      s := WonAtStart(With(INIT, 2, Caller(key, y)).(now := y.start), u, x);
    }
    ReachTime(s, u, Deadline(x));
    s := s.(now := Deadline(x));
  }

  /** A third client takes the expired lock and gives it back: the key is free. */
  lemma Cleared(s: Sys, u: Use, h: nat) returns (t: Sys)
    requires Reachable(s, u) && "" in u.ids && h !in s.handles && u.key in s.store && s.store[u.key].expires < s.now
    ensures Reachable(t, u) && t.now == s.now && u.key !in t.store
    ensures forall g :: g in s.handles ==> g in t.handles && t.handles[g] == s.handles[g]
  {
    ReachNext(s, NewMutex(h, u.key), u);
    var s1 := With(s, h, Blank(u.key));
    SwapWins(s1, h, LockOpt(MS, ""), u);
    var s2 := Won(s1, h, LockOpt(MS, ""));
    UnlockWins(s2, h, u);
    t := With(s2, h, Blank(u.key)).(store := s2.store - {u.key});
  }

  lemma OverlapIf(key: string, x: Call, y: Call)
    requires Deadline(x) <= Deadline(y) && y.start <= Deadline(x) && Deadline(x) % MS != 0
    ensures MayOverlap(key, x, y) && MayOverlap(key, y, x)
  {
    var u := Use(key, NONE);
    var s := ReachStaged(key, x, y);
    var t := Cleared(s, u, 3);
    InsertWins(t, 2, LockOpt(y.ttl, ""), u);
    var v := Won(t, 2, LockOpt(y.ttl, ""));
    assert Within(v, 1, key, x) && Within(v, 2, key, y);
  }
}
