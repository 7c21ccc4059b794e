/**
 `tryLock`, `Lock` and `Unlock` of the Redis mutex as written, over a shared server with
 arbitrary steps of other clients and of the clock in every gap between two commands.
 */
module RedisMutexCode {
  import opened Common
  import opened RedisMutex
  import CS = RedisCriticalSection

  predicate ByOthers(evs: seq<Event>, me: nat) {
    forall i :: 0 <= i < |evs| ==> Actor(evs[i]) != Some(me)
  }

  predicate Foreign(gaps: seq<Gap<Event>>, me: nat) {
    |gaps| == 2 && forall i :: 0 <= i < |gaps| ==> ByOthers(gaps[i].others, me)
  }

  class Cluster {
    var s: Sys
    ghost var log: seq<Event>

    ghost predicate Valid()
      reads this
    {
      s == Run(INIT, log)
    }

    constructor ()
      ensures Valid() && s == INIT && log == []
    {
      s := INIT;
      log := [];
    }

    /** A step of handle `h`. */
    method Mine(h: nat, e: Event)
      requires Valid() && h in s.handles && Actor(e) == Some(h) && !e.NewMutex? && !e.StartDo?
      modifies this
      ensures Valid() && log == old(log) + [e]
      ensures h in s.handles && s.handles[h] == HandleAfter(old(s), old(s).handles[h], e)
      ensures s.now == old(s.now)
      ensures s.store == if e.Execute? then Apply(old(s), h, old(s).handles[h].key, InFlight(old(s).handles[h])).store
                         else old(s).store
    {
      s := Next(s, e);
      log := log + [e];
      assert log[..|log| - 1] == old(log);
    }

    /** Everybody else moves; `me` does not. */
    method Others(evs: seq<Event>, ghost me: nat)
      requires Valid() && me in s.handles && ByOthers(evs, me)
      modifies this
      ensures Valid() && log == old(log) + evs
      ensures me in s.handles && s.handles[me] == old(s.handles[me])
    {
      for i := 0 to |evs|
        invariant Valid() && log == old(log) + evs[..i]
        invariant me in s.handles && s.handles[me] == old(s.handles[me])
      {
        OthersUntouched(s, evs[i]);
        s := Next(s, evs[i]);
        ghost var before := log;
        log := log + [evs[i]];
        assert log[..|log| - 1] == before;
        assert evs[..i + 1] == evs[..i] + [evs[i]];
      }
      assert evs[..|evs|] == evs;
    }
  }

  datatype TryResult = Locked | NotLocked | Failed

  predicate AtRest(s: Sys, h: nat) {
    h in s.handles && (s.handles[h].pc.Idle? || s.handles[h].pc == Dropped(Nothing))
  }

  /** It is at rest, with the key and the mode it had. */
  predicate SameHandle(s: Sys, h: nat, was: Handle) {
    AtRest(s, h) && s.handles[h].key == was.key && s.handles[h].mode == was.mode
  }

  function At(log: seq<Event>, k: nat): Sys
    requires k <= |log|
  {
    Run(INIT, log[..k])
  }

  lemma SamePast(log: seq<Event>, longer: seq<Event>, k: nat)
    requires log <= longer && k <= |log|
    ensures At(longer, k) == At(log, k)
  {
    assert longer[..k] == log[..k];
  }

  lemma NowAt(log: seq<Event>)
    ensures At(log, |log|) == Run(INIT, log)
  {
    assert log[..|log|] == log;
  }

  /** The live entry of the key carries the identity. */
  predicate Carries(s: Sys, key: string, identity: string) {
    Live(s, key) && s.store[key].value == Ident(identity)
  }

  /** When SETNX is executed, in an attempt that begins behind `from` events. */
  function SetAt(from: nat, gaps: seq<Gap<Event>>): nat
    requires |gaps| == 2
  {
    from + 1 + |gaps[0].others|
  }

  /** When GET is executed. */
  function GetAt(from: nat, gaps: seq<Gap<Event>>): nat
    requires |gaps| == 2
  {
    SetAt(from, gaps) + 1 + |gaps[1].others|
  }

  /**
   What an attempt answers: it fails exactly if one of its commands does; it locks if the key
   is not live at SETNX, or else if the entry carries the caller's identity at GET.
   */
  predicate Told(log: seq<Event>, from: nat, gaps: seq<Gap<Event>>, key: string, opt: LockOpt, r: TryResult)
    requires |gaps| == 2
  {
    if gaps[0].fails then r == Failed
    else
      && SetAt(from, gaps) < |log|
      && if !Live(At(log, SetAt(from, gaps)), key) then r == Locked
         else if opt.identity == "" then r == NotLocked
         else if gaps[1].fails then r == Failed
         else
           && GetAt(from, gaps) < |log|
           && r == if Carries(At(log, GetAt(from, gaps)), key, opt.identity) then Locked else NotLocked
  }

  /** TryLock. `gaps`: before SETNX, before GET. */
  method TryLock(c: Cluster, h: nat, opt: LockOpt, gaps: seq<Gap<Event>>) returns (r: TryResult)
    requires c.Valid() && h in c.s.handles && c.s.handles[h].pc.Idle? && OptFits(c.s.handles[h].mode, opt)
    requires Foreign(gaps, h)
    modifies c
    ensures c.Valid() && old(c.log) <= c.log && SameHandle(c.s, h, old(c.s.handles[h]))
    ensures r != Failed ==> c.s.handles[h].pc.Idle?
    ensures r == Locked <==> c.s.handles[h].held.Some?
    // a handle that still remembers a lock reports it without asking the server
    ensures old(c.s.handles[h].held.Some?) ==> r == Locked && c.s == old(c.s)
    // otherwise it answers by what it met, and a lock in hand is the stored entry when the call returns
    ensures old(c.s.handles[h].held.None?) ==>
              old(c.log) < c.log && Told(c.log, |old(c.log)|, gaps, old(c.s.handles[h].key), opt, r)
    ensures old(c.s.handles[h].held.None?) && r == Locked ==> Attached(c.s, h) && Owns(c.s, h, opt)
  {
    if c.s.handles[h].held.Some? {
      return Locked;
    }
    var failed := SetFirst(c, h, opt, gaps[0]);
    if failed {
      return Failed;
    }
    if c.s.handles[h].pc.Idle? {
      return if c.s.handles[h].held.Some? then Locked else NotLocked;
    }
    ghost var asked := c.log;
    r := AskHolder(c, h, gaps[1]);
    SamePast(asked, c.log, SetAt(|old(c.log)|, gaps));
  }

  /** The lock in hand is a fresh token for its TTL, or the entry of the caller's identity. */
  predicate Owns(s: Sys, h: nat, opt: LockOpt)
    requires Attached(s, h)
  {
    if opt.identity != "" then s.handles[h].held.value.value == Ident(opt.identity)
    else
      && s.handles[h].held.value.value.Token? && s.store[s.handles[h].key].owner == h
      && s.handles[h].held.value.until == s.now + StoredTTL(opt.ttl) == s.store[s.handles[h].key].until
  }

  /** The first half of tryLock: SETNX, which takes exactly if the key is not live. */
  method SetFirst(c: Cluster, h: nat, opt: LockOpt, gap: Gap<Event>) returns (failed: bool)
    requires c.Valid() && h in c.s.handles && c.s.handles[h].pc.Idle? && OptFits(c.s.handles[h].mode, opt)
    requires c.s.handles[h].held.None? && ByOthers(gap.others, h)
    modifies c
    ensures c.Valid() && old(c.log) <= c.log && |c.log| == |old(c.log)| + 2 + |gap.others| && h in c.s.handles
    ensures c.s.handles[h].key == old(c.s.handles[h].key) && c.s.handles[h].mode == old(c.s.handles[h].mode)
    ensures failed <==> gap.fails
    ensures failed ==> AtRest(c.s, h) && c.s.handles[h].held.None?
    ensures !failed ==>
              (c.s.handles[h].held.Some? <==> !Live(At(c.log, |c.log| - 1), old(c.s.handles[h].key)))
    ensures c.s.handles[h].held.Some? ==> c.s.handles[h].pc.Idle? && Attached(c.s, h) && Owns(c.s, h, opt)
    ensures !failed && c.s.handles[h].held.None? ==>
              c.s.handles[h].pc == if opt.identity == "" then Idle else Sending(Get(opt))
  {
    c.Mine(h, Begin(h, opt));
    c.Others(gap.others, h);
    failed := gap.fails;
    ghost var asked := c.log;
    NowAt(asked);
    if failed {
      c.Mine(h, Fail(h));
    } else {
      c.Mine(h, Execute(h));
      SamePast(asked, c.log, |asked|);
    }
  }

  /** The reentrant half of tryLock: GET, and compare with the caller's identity. */
  method AskHolder(c: Cluster, h: nat, gap: Gap<Event>) returns (r: TryResult)
    requires c.Valid() && h in c.s.handles && c.s.handles[h].held.None?
    requires c.s.handles[h].pc.Sending? && c.s.handles[h].pc.cmd.Get? && ByOthers(gap.others, h)
    requires c.s.handles[h].pc.cmd.opt.identity != ""
    modifies c
    ensures c.Valid() && old(c.log) <= c.log && |c.log| == |old(c.log)| + |gap.others| + 1
    ensures SameHandle(c.s, h, old(c.s.handles[h]))
    ensures r != Failed ==> c.s.handles[h].pc.Idle?
    ensures r == Locked <==> c.s.handles[h].held.Some?
    ensures r == Failed <==> gap.fails
    ensures r != Failed ==>
              var opt := old(c.s.handles[h].pc.cmd.opt);
              r == Locked <==> Carries(At(c.log, |c.log| - 1), old(c.s.handles[h].key), opt.identity)
    ensures r == Locked ==> Attached(c.s, h) && Owns(c.s, h, old(c.s.handles[h].pc.cmd.opt))
  {
    c.Others(gap.others, h);
    if gap.fails {
      c.Mine(h, Fail(h));
      return Failed;
    }
    ghost var asked := c.log;
    NowAt(asked);
    c.Mine(h, Execute(h));
    SamePast(asked, c.log, |asked|);
    r := if c.s.handles[h].held.Some? then Locked else NotLocked;
  }

  datatype UnlockResult = Unlocked | AlreadyUnlocked | UnlockFailed

  /** What the delete script made of the store it met, and what was answered. */
  predicate Released(met: Sys, left: Sys, key: string, value: Value, fails: bool, r: UnlockResult) {
    && (r == UnlockFailed <==> fails)
    && (r == Unlocked <==> !fails && Live(met, key) && met.store[key].value == value)
    && left.store == if r == Unlocked then met.store - {key} else met.store
  }

  /** Unlock: the script deletes the entry only while it carries the handle's own value. */
  method Unlock(c: Cluster, h: nat, gap: Gap<Event>) returns (r: UnlockResult)
    requires c.Valid() && h in c.s.handles && c.s.handles[h].pc.Idle? && ByOthers(gap.others, h)
    modifies c
    ensures c.Valid() && old(c.log) <= c.log && SameHandle(c.s, h, old(c.s.handles[h]))
    ensures old(c.s.handles[h].held.None?) ==> r == AlreadyUnlocked && c.s == old(c.s)
    ensures old(c.s.handles[h].held.Some?) ==>
              && |c.log| == |old(c.log)| + 2 + |gap.others|
              && Released(At(c.log, |c.log| - 1), c.s, old(c.s.handles[h].key), old(c.s.handles[h].held.value.value),
                          gap.fails, r)
    ensures r == Unlocked ==> c.s.handles[h].held.None?
    ensures old(c.s.handles[h].mode.Plain?) && r != Unlocked ==> c.s.handles[h] == old(c.s.handles[h])
    // a token whose lease is still running is given back, in every run
    ensures old(c.s.handles[h].held.Some?) && old(c.s.handles[h].held.value.value.Token?) && !gap.fails ==>
              At(c.log, |c.log| - 1).now <= old(c.s.handles[h].held.value.until) ==> r == Unlocked
  {
    if c.s.handles[h].held.None? {
      return AlreadyUnlocked;
    }
    c.Mine(h, BeginUnlock(h));
    c.Others(gap.others, h);
    ghost var asked := c.log;
    NowAt(asked);
    TokenFound(asked, h);
    r := DeleteIfValue(c, h, gap.fails);
    SamePast(asked, c.log, |asked|);
  }

  /** A token whose lease runs is the stored value. */
  lemma TokenFound(log: seq<Event>, h: nat)
    requires h in Run(INIT, log).handles && Run(INIT, log).handles[h].held.Some?
    ensures var s := Run(INIT, log); var hd := s.handles[h];
            hd.held.value.value.Token? && s.now <= hd.held.value.until ==>
              Live(s, hd.key) && s.store[hd.key].value == hd.held.value.value
  {
    var hd := Run(INIT, log).handles[h];
    if hd.held.value.value.Token? && Run(INIT, log).now <= hd.held.value.until {
      TokenLeaseKept(log, h);
    }
  }

  /** The script on its way is executed, or fails. */
  method DeleteIfValue(c: Cluster, h: nat, fails: bool) returns (r: UnlockResult)
    requires c.Valid() && h in c.s.handles && c.s.handles[h].held.Some?
    requires c.s.handles[h].pc == Sending(DeleteIf(c.s.handles[h].held.value.value))
    modifies c
    ensures c.Valid() && |c.log| == |old(c.log)| + 1 && old(c.log) <= c.log && SameHandle(c.s, h, old(c.s.handles[h]))
    ensures Released(old(c.s), c.s, old(c.s.handles[h].key), old(c.s.handles[h].held.value.value), fails, r)
    ensures r == Unlocked ==> c.s.handles[h].held.None?
    ensures old(c.s.handles[h].mode.Plain?) && r != Unlocked ==> c.s.handles[h] == old(c.s.handles[h]).(pc := Idle)
  {
    if fails {
      c.Mine(h, Fail(h));
      return UnlockFailed;
    }
    r := if Takes(c.s, c.s.handles[h].key, c.s.handles[h].pc.cmd) then Unlocked else AlreadyUnlocked;
    c.Mine(h, Execute(h));
  }

  datatype Spin = Ticker(gaps: seq<Gap<Event>>) | MaxWait | Canceled

  datatype LockResult = Acquired | NotAcquired | ContextError | CallFailed | StillWaiting

  /** One attempt of a Lock call: its answer, and the log before and after it. */
  datatype Try = Try(result: TryResult, before: seq<Event>, after: seq<Event>)

  function GapsOf(first: seq<Gap<Event>>, spins: seq<Spin>, k: nat): seq<Gap<Event>> {
    if k == 0 || k > |spins| || !spins[k - 1].Ticker? then first else spins[k - 1].gaps
  }

  ghost predicate Attempted(y: Try, gaps: seq<Gap<Event>>, key: string, opt: LockOpt) {
    |gaps| == 2 && y.before < y.after && Told(y.after, |y.before|, gaps, key, opt, y.result)
  }

  /** The attempts of a call, each beginning where the one before it ended. */
  ghost predicate Attempts(log: seq<Event>, tries: seq<Try>, first: seq<Gap<Event>>, spins: seq<Spin>,
                           key: string, opt: LockOpt) {
    forall k {:trigger Nth(tries, k)} :: 0 <= k < |tries| ==>
      Attempted(Nth(tries, k), GapsOf(first, spins, k), key, opt) && Nth(tries, k).before == EndOf(log, tries, k)
  }

  function Nth(tries: seq<Try>, k: nat): Try
    requires k < |tries|
  {
    tries[k]
  }

  function EndOf(log: seq<Event>, tries: seq<Try>, k: nat): seq<Event>
    requires k <= |tries|
  {
    if k == 0 then log else tries[k - 1].after
  }

  /** All attempts so far were refused, each but the first made on a tick. */
  predicate Spinning(tries: seq<Try>, spins: seq<Spin>) {
    && 0 < |tries| <= |spins| + 1
    && (forall i :: 0 <= i < |tries| - 1 ==> spins[i].Ticker? && tries[i].result == NotLocked)
  }

  /** All attempts but the last were refused, and the last one, or what fired then, decides. */
  predicate Concludes(r: LockResult, tries: seq<Try>, spins: seq<Spin>) {
    Spinning(tries, spins) && Answer(tries[|tries| - 1].result, spins[|tries| - 1..], r)
  }

  predicate Answer(t: TryResult, next: seq<Spin>, r: LockResult) {
    match r
    case Acquired => t == Locked
    case CallFailed => t == Failed
    case StillWaiting => t == NotLocked && next == []
    case NotAcquired => t == NotLocked && next != [] && next[0] == MaxWait
    case ContextError => t == NotLocked && next != [] && next[0] == Canceled
  }

  lemma OneMore(log: seq<Event>, tries: seq<Try>, y: Try, first: seq<Gap<Event>>, spins: seq<Spin>, key: string,
                opt: LockOpt)
    requires Attempts(log, tries, first, spins, key, opt) && y.before == EndOf(log, tries, |tries|)
    requires Attempted(y, GapsOf(first, spins, |tries|), key, opt)
    ensures Attempts(log, tries + [y], first, spins, key, opt)
  {
    var all := tries + [y];
    forall k | 0 <= k < |all|
      ensures Attempted(Nth(all, k), GapsOf(first, spins, k), key, opt) && Nth(all, k).before == EndOf(log, all, k)
    {
      if k < |tries| {
        assert Nth(all, k) == Nth(tries, k) && EndOf(log, all, k) == EndOf(log, tries, k);
      }
    }
  }

  /** The next attempt of a call may be made: it is the first, or all were refused and a tick fired. */
  predicate MayTry(tries: seq<Try>, spins: seq<Spin>) {
    tries == [] || (Spinning(tries, spins) && tries[|tries| - 1].result == NotLocked && |tries| <= |spins|
                    && spins[|tries| - 1].Ticker?)
  }

  /** One more attempt of a call, recorded. */
  method TryAgain(c: Cluster, h: nat, opt: LockOpt, gaps: seq<Gap<Event>>, ghost log: seq<Event>, ghost tries: seq<Try>,
                  ghost first: seq<Gap<Event>>, ghost spins: seq<Spin>)
    returns (r: TryResult, ghost more: seq<Try>)
    requires c.Valid() && h in c.s.handles && c.s.handles[h].pc.Idle? && OptFits(c.s.handles[h].mode, opt)
    requires c.s.handles[h].held.None? && Foreign(gaps, h) && gaps == GapsOf(first, spins, |tries|)
    requires Attempts(log, tries, first, spins, c.s.handles[h].key, opt) && MayTry(tries, spins)
    requires c.log == EndOf(log, tries, |tries|)
    modifies c
    ensures c.Valid() && old(c.log) < c.log && SameHandle(c.s, h, old(c.s.handles[h]))
    ensures r != Failed ==> c.s.handles[h].pc.Idle?
    ensures r == Locked <==> c.s.handles[h].held.Some?
    ensures r == Locked ==> Attached(c.s, h) && Owns(c.s, h, opt)
    ensures Attempts(log, more, first, spins, old(c.s.handles[h].key), opt) && Spinning(more, spins)
    ensures |more| == |tries| + 1 && more[|tries|].result == r && more[|tries|].after == c.log
  {
    r := TryLock(c, h, opt, gaps);
    ghost var y := Try(r, old(c.log), c.log);
    OneMore(log, tries, y, first, spins, old(c.s.handles[h].key), opt);
    more := tries + [y];
  }

  /** Lock: one attempt, then one attempt per tick until something else fires. */
  method Lock(c: Cluster, h: nat, opt: LockOpt, first: seq<Gap<Event>>, spins: seq<Spin>)
    returns (r: LockResult, ghost tries: seq<Try>)
    requires c.Valid() && h in c.s.handles && c.s.handles[h].pc.Idle? && OptFits(c.s.handles[h].mode, opt)
    requires Foreign(first, h)
    requires forall i :: 0 <= i < |spins| && spins[i].Ticker? ==> Foreign(spins[i].gaps, h)
    modifies c
    ensures c.Valid() && old(c.log) <= c.log && SameHandle(c.s, h, old(c.s.handles[h]))
    ensures r == Acquired <==> c.s.handles[h].held.Some?
    ensures old(c.s.handles[h].held.Some?) ==> r == Acquired && c.s == old(c.s)
    ensures old(c.s.handles[h].held.None?) && r == Acquired ==> Attached(c.s, h) && Owns(c.s, h, opt)
    // it tries at once and on every tick until an attempt locks or fails or something else fires
    ensures old(c.s.handles[h].held.None?) ==>
              && Attempts(old(c.log), tries, first, spins, old(c.s.handles[h].key), opt)
              && Concludes(r, tries, spins) && EndOf(old(c.log), tries, |tries|) == c.log
  {
    if c.s.handles[h].held.Some? {
      return Acquired, [];
    }
    var t;
    t, tries := TryAgain(c, h, opt, first, old(c.log), [], first, spins);
    var i := 0;
    while t == NotLocked && i < |spins| && spins[i].Ticker?
      invariant 0 <= i <= |spins| && c.Valid() && old(c.log) <= c.log && SameHandle(c.s, h, old(c.s.handles[h]))
      invariant t != Failed ==> c.s.handles[h].pc.Idle?
      invariant t == Locked <==> c.s.handles[h].held.Some?
      invariant t == Locked ==> Attached(c.s, h) && Owns(c.s, h, opt)
      invariant |tries| == i + 1 && tries[i].result == t && tries[i].after == c.log && Spinning(tries, spins)
      invariant Attempts(old(c.log), tries, first, spins, old(c.s.handles[h].key), opt)
      decreases |spins| - i
    {
      t, tries := TryAgain(c, h, opt, spins[i].gaps, old(c.log), tries, first, spins);
      i := i + 1;
    }
    r := match t
      case Locked => Acquired
      case Failed => CallFailed
      case NotLocked =>
        if i == |spins| then StillWaiting else if spins[i] == MaxWait then NotAcquired else ContextError;
  }

  /** What MutexTryDo returns: the lock's error, the action's, the unlock's, or the last two folded together. */
  datatype DoError =
    | NoError
    | LockError
    | ActionError
    | UnlockError(unlock: UnlockResult)
    | BothErrors(unlock: UnlockResult)

  /** The answer of a call whose action ran, from the answers of the action and of Unlock. */
  predicate Folds(err: DoError, actionFails: bool, u: UnlockResult) {
    match err
    case NoError => u == Unlocked && !actionFails
    case ActionError => u == Unlocked && actionFails
    case UnlockError(v) => v == u && u != Unlocked && !actionFails
    case BothErrors(v) => v == u && u != Unlocked && actionFails
    case LockError => false
  }

  /** From `before` on, the others moved and the delete script was sent: what it found and left. */
  ghost predicate GivenBack(before: seq<Event>, log: seq<Event>, s: Sys, h: nat, gap: Gap<Event>, u: UnlockResult) {
    && h in Run(INIT, before).handles && Run(INIT, before).handles[h].held.Some?
    && |log| == |before| + 2 + |gap.others| && before <= log
    && var hd := Run(INIT, before).handles[h];
       Released(At(log, |log| - 1), s, hd.key, hd.held.value.value, gap.fails, u)
  }

  /** A fresh mutex under a context of one TTL. */
  method StartScope(c: Cluster, h: nat, pid: nat, key: string, ttl: Time)
    requires c.Valid() && h !in c.s.handles
    modifies c
    ensures c.Valid() && c.log == old(c.log) + [StartDo(h, pid, key, ttl)]
    ensures h in c.s.handles && c.s.handles[h] == Handle(pid, key, Scoped(ttl, old(c.s.now) + ttl), None, Idle)
  {
    c.s := Next(c.s, StartDo(h, pid, key, ttl));
    c.log := c.log + [StartDo(h, pid, key, ttl)];
    assert c.log[..|c.log| - 1] == old(c.log);
  }

  /** MutexTryDo on a fresh mutex: one attempt, then the action, and unlock whatever the action did. */
  method MutexTryDo(c: Cluster, h: nat, pid: nat, key: string, ttl: Time, gaps: seq<Gap<Event>>,
                    action: seq<Event>, actionFails: bool, last: Gap<Event>)
    returns (got: bool, err: DoError, ghost start: seq<Event>, ghost u: UnlockResult)
    requires c.Valid() && h !in c.s.handles && ttl > 0
    requires Foreign(gaps, h) && ByOthers(action, h) && ByOthers(last.others, h)
    modifies c
    ensures c.Valid() && old(c.log) <= c.log
    // the action runs exactly if the one attempt locks; an error without it is a failed command
    ensures start <= c.log && |start| > |old(c.log)| + 1
    ensures Told(start, |old(c.log)| + 1, gaps, key, LockOpt(ttl, ""),
                 if got then Locked else if err == LockError then Failed else NotLocked)
    ensures !got ==> err == NoError || err == LockError
    // during the whole action the call is in its critical section
    ensures got ==> forall k :: 0 <= k <= |action| ==> CS.Acts(Run(INIT, start + action[..k]), h, key)
    // the lock is given back exactly if the script finds it, and the error says what was not done
    ensures got ==> GivenBack(start + action, c.log, c.s, h, last, u) && Folds(err, actionFails, u)
    // a lease that is still running when the script is executed is given back
    ensures got && !last.fails ==>
              At(c.log, |c.log| - 1).now <= Run(INIT, start + action).handles[h].held.value.until ==>
              err == NoError || err == ActionError
  {
    StartScope(c, h, pid, key, ttl);
    var t := TryLock(c, h, LockOpt(ttl, ""), gaps);
    start := c.log;
    if t != Locked {
      return false, if t == Failed then LockError else NoError, start, AlreadyUnlocked;
    }
    got := true;
    err, u := ActAndUnlock(c, h, action, actionFails, last);
  }

  /** The action, under whatever the others do meanwhile, and the deferred Unlock. */
  method ActAndUnlock(c: Cluster, h: nat, action: seq<Event>, actionFails: bool, last: Gap<Event>)
    returns (err: DoError, ghost u: UnlockResult)
    requires c.Valid() && CS.InAction(c.s, h) && c.s.handles[h].held.value.value.Token?
    requires ByOthers(action, h) && ByOthers(last.others, h)
    modifies c
    ensures c.Valid() && old(c.log) <= c.log
    ensures forall k :: 0 <= k <= |action| ==> CS.Acts(Run(INIT, old(c.log) + action[..k]), h, old(c.s.handles[h].key))
    ensures GivenBack(old(c.log) + action, c.log, c.s, h, last, u) && Folds(err, actionFails, u)
    ensures !last.fails ==>
              At(c.log, |c.log| - 1).now <= Run(INIT, old(c.log) + action).handles[h].held.value.until ==> u == Unlocked
  {
    InActionThrough(c.log, action, h, c.s.handles[h].key);
    c.Others(action, h);
    var un := Unlock(c, h, last);
    u := un;
    err := if un == Unlocked then (if actionFails then ActionError else NoError)
           else if actionFails then BothErrors(un) else UnlockError(un);
  }

  lemma ActsStays(s: Sys, e: Event, h: nat, key: string)
    requires CS.Acts(s, h, key) && Actor(e) != Some(h)
    ensures CS.Acts(Next(s, e), h, key)
  {
    OthersUntouched(s, e);
  }

  lemma {:induction false} InActionThrough(log: seq<Event>, action: seq<Event>, h: nat, key: string)
    requires CS.Acts(Run(INIT, log), h, key) && ByOthers(action, h)
    ensures forall k :: 0 <= k <= |action| ==> CS.Acts(Run(INIT, log + action[..k]), h, key)
    decreases |action|
  {
    if action == [] {
      assert log + action[..0] == log;
    } else {
      var n := |action| - 1;
      InActionThrough(log, action[..n], h, key);
      assert forall k :: 0 <= k <= n ==> action[..n][..k] == action[..k];
      assert (log + action[..|action|])[..|log| + n] == log + action[..n];
      ActsStays(Run(INIT, log + action[..n]), action[n], h, key);
    }
  }
}
