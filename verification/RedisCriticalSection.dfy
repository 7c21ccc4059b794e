/**
 Critical sections on Redis: MutexDo and MutexTryDo make a context that ends one default TTL
 after the call and lock a fresh mutex for that same TTL, of which Redis keeps the whole
 milliseconds. Replies may be lost, as on MongoDB.
 */
module RedisCriticalSection {
  import opened Common
  import opened RedisMutex

  /** Between a successful lock and the deferred Unlock. */
  predicate InAction(s: Sys, h: nat) {
    h in s.handles && s.handles[h].mode.Scoped? && s.handles[h].held.Some? && s.handles[h].pc.Idle?
  }

  predicate Acts(s: Sys, h: nat, key: string) {
    InAction(s, h) && s.handles[h].key == key
  }

  /** The lease an action runs under ends no earlier than the call's start plus its TTL as stored. */
  lemma LeaseNearDeadline(evs: seq<Event>, h: nat)
    requires InAction(Run(INIT, evs), h)
    ensures var hd := Run(INIT, evs).handles[h];
            && hd.held.value.value.Token? && Leased(hd.mode, hd.held.value.until)
            && hd.mode.deadline <= Run(INIT, evs).now + hd.mode.ttl
  {
    InvRun(evs);
    assert Sane(Run(INIT, evs), Run(INIT, evs).handles[h]);
  }

  /** Actions whose leases are running never overlap, across any clients and lost replies. */
  lemma ActionsNeverOverlap(evs: seq<Event>, key: string, a: nat, b: nat)
    requires Acts(Run(INIT, evs), a, key) && Acts(Run(INIT, evs), b, key)
    requires Run(INIT, evs).now <= Run(INIT, evs).handles[a].held.value.until
    requires Run(INIT, evs).now <= Run(INIT, evs).handles[b].held.value.until
    ensures a == b
  {
    LeaseNearDeadline(evs, a);
    LeaseNearDeadline(evs, b);
    MutualExclusion(evs, a, b);
  }

  // ---------------------------------------------------------------- calls

  /** A call of MutexDo: when it began and the TTL of its lock and its context. */
  datatype Call = Call(start: Time, ttl: Time)

  function Deadline(x: Call): Time {
    x.start + x.ttl
  }

  /** The earliest moment the lease of a call can end at. */
  function LeaseEnd(x: Call): Time {
    x.start + StoredTTL(x.ttl)
  }

  function Earlier(x: Call, y: Call): Time {
    if Deadline(x) <= Deadline(y) then Deadline(x) else Deadline(y)
  }

  /** The handle is in the action of call `x` on the key, within the call's exact deadline. */
  predicate Within(s: Sys, h: nat, key: string, x: Call) {
    Acts(s, h, key) && s.handles[h].mode == Scoped(x.ttl, Deadline(x)) && s.now <= Deadline(x)
  }

  ghost predicate Reachable(s: Sys) {
    exists evs :: Run(INIT, evs) == s
  }

  /** In some run, actions of two such calls go on at once. */
  ghost predicate MayOverlap(key: string, x: Call, y: Call) {
    exists s, a, b :: Within(s, a, key, x) && Within(s, b, key, y) && a != b && Reachable(s)
  }

  /**
   Two calls on a key can overlap within both their deadlines exactly if both have begun by
   the earlier deadline and the stored TTL of one of them has run out before it.
   */
  lemma OverlapIff(key: string, x: Call, y: Call)
    requires x.ttl > 0 && y.ttl > 0
    ensures MayOverlap(key, x, y) <==>
            && x.start <= Earlier(x, y) && y.start <= Earlier(x, y)
            && (LeaseEnd(x) < Earlier(x, y) || LeaseEnd(y) < Earlier(x, y))
  {
    if MayOverlap(key, x, y) {
      OverlapOnlyIf(key, x, y);
    }
    if x.start <= Earlier(x, y) && y.start <= Earlier(x, y) {
      if LeaseEnd(x) < Earlier(x, y) {
        OverlapIf(key, x, y);
      } else if LeaseEnd(y) < Earlier(x, y) {
        OverlapIf(key, y, x);
      }
    }
  }

  /** TTLs of whole milliseconds, and TTLs below one, keep every action within its lease. */
  lemma WholeTTLsNeverOverlap(key: string, x: Call, y: Call)
    requires x.ttl > 0 && y.ttl > 0 && x.ttl <= StoredTTL(x.ttl) && y.ttl <= StoredTTL(y.ttl)
    ensures !MayOverlap(key, x, y)
  {
    OverlapIff(key, x, y);
  }

  lemma OverlapOnlyIf(key: string, x: Call, y: Call)
    requires MayOverlap(key, x, y)
    ensures x.start <= Earlier(x, y) && y.start <= Earlier(x, y)
    ensures LeaseEnd(x) < Earlier(x, y) || LeaseEnd(y) < Earlier(x, y)
  {
    var s, a, b :| Within(s, a, key, x) && Within(s, b, key, y) && a != b && Reachable(s);
    var evs :| Run(INIT, evs) == s;
    LeaseNearDeadline(evs, a);
    LeaseNearDeadline(evs, b);
    if Earlier(x, y) <= LeaseEnd(x) && Earlier(x, y) <= LeaseEnd(y) {
      ActionsNeverOverlap(evs, key, a, b);
    }
  }

  // ---------------------------------------------------------------- a run in which they overlap

  lemma ReachNext(s: Sys, e: Event)
    requires Reachable(s)
    ensures Reachable(Next(s, e))
  {
    var evs :| Run(INIT, evs) == s;
    assert (evs + [e])[..|evs|] == evs;
    assert Run(INIT, evs + [e]) == Next(s, e);
  }

  function Caller(key: string, x: Call): Handle {
    Handle(0, key, Scoped(x.ttl, Deadline(x)), None, Idle)
  }

  /** `t` differs from `s` at handle `h` and in time at most. */
  predicate Besides(s: Sys, t: Sys, h: nat) {
    forall g :: g in s.handles && g != h ==> g in t.handles && t.handles[g] == s.handles[g]
  }

  lemma ReachTime(s: Sys, now: Time)
    requires Reachable(s) && s.now <= now
    ensures Reachable(s.(now := now))
  {
    ReachNext(s, Tick(now - s.now));
  }

  lemma ReachStart(s: Sys, key: string, h: nat, x: Call) returns (t: Sys)
    requires Reachable(s) && s.now <= x.start && h !in s.handles
    ensures Reachable(t) && t.now == x.start && t.store == s.store && Besides(s, t, h)
    ensures t.handles.Keys == s.handles.Keys + {h} && t.handles[h] == Caller(key, x)
  {
    ReachTime(s, x.start);
    ReachNext(s.(now := x.start), StartDo(h, 0, key, x.ttl));
    t := Next(s.(now := x.start), StartDo(h, 0, key, x.ttl));
  }

  /** Alone, a call wins a key that is not live. */
  lemma SetWins(s: Sys, key: string, h: nat, x: Call) returns (t: Sys)
    requires Reachable(s) && h in s.handles && s.handles[h] == Caller(key, x) && !Live(s, key) && x.ttl > 0
    ensures Reachable(t) && t.now == s.now && Besides(s, t, h) && t.handles.Keys == s.handles.Keys
    ensures Acts(t, h, key) && t.handles[h].mode == Scoped(x.ttl, Deadline(x))
    ensures key in t.store && t.store[key].until == s.now + StoredTTL(x.ttl)
  {
    var opt := LockOpt(x.ttl, "");
    ReachNext(s, Begin(h, opt));
    var begun := Next(s, Begin(h, opt));
    assert begun.handles[h] == s.handles[h].(pc := Sending(SetNX(opt, NextValue(s, 0, opt))));
    assert begun.store == s.store && begun.now == s.now;
    ReachNext(begun, Execute(h));
    t := Next(begun, Execute(h));
  }

  /** The first call has won its lock at once, and the second has begun. */
  lemma Staged(key: string, x: Call, y: Call) returns (s: Sys)
    requires x.ttl > 0
    ensures Reachable(s) && s.now == (if x.start <= y.start then y.start else x.start)
    ensures Acts(s, 1, key) && s.handles[1].mode == Scoped(x.ttl, Deadline(x))
    ensures 2 in s.handles && s.handles[2] == Caller(key, y)
    ensures key in s.store && s.store[key].until == LeaseEnd(x)
  {
    assert Run(INIT, []) == INIT;
    if x.start <= y.start {
      s := ReachStart(INIT, key, 1, x);
      s := SetWins(s, key, 1, x);
      s := ReachStart(s, key, 2, y);
    } else {
      s := ReachStart(INIT, key, 2, y);
      s := ReachStart(s, key, 1, x);
      s := SetWins(s, key, 1, x);
    }
  }

  lemma OverlapIf(key: string, x: Call, y: Call)
    requires x.ttl > 0 && y.ttl > 0 && x.start <= Earlier(x, y) && y.start <= Earlier(x, y)
    requires LeaseEnd(x) < Earlier(x, y)
    ensures MayOverlap(key, x, y) && MayOverlap(key, y, x)
  {
    var s := Staged(key, x, y);
    ReachTime(s, Earlier(x, y));
    var t := s.(now := Earlier(x, y));
    var u := SetWins(t, key, 2, y);
    assert Within(u, 1, key, x) && Within(u, 2, key, y);
  }
}
