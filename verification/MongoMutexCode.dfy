/**
 `tryLock`, `Lock`, `Unlock` and the MutexDo helpers as written: straight-line code and one
 retry loop over a shared database, with arbitrary steps of other clients, of the clock and
 of the TTL reaper in every gap between two commands. Each call is shown to be a piece of a
 run of the transition system, so everything proved of runs holds of the code.
 */
module MongoMutexCode {
  import opened Common
  import opened MongoMutex
  import CS = MongoCriticalSection

  predicate ByOthers(evs: seq<Event>, me: nat) {
    forall i :: 0 <= i < |evs| ==> Actor(evs[i]) != Some(me)
  }

  predicate Foreign(gaps: seq<Gap<Event>>, me: nat) {
    forall i :: 0 <= i < |gaps| ==> ByOthers(gaps[i].others, me)
  }

  /** The database, the clock and all handles; `log` is the run so far. */
  class Cluster {
    var s: Sys
    ghost var log: seq<Event>

    ghost predicate Valid()
      reads this
    {
      s == Run(INIT, log)
    }

    constructor ()
      ensures Valid() && s == INIT && log == []
    {
      s := INIT;
      log := [];
    }

    method Step(e: Event)
      requires Valid()
      modifies this
      ensures Valid() && s == Next(old(s), e) && log == old(log) + [e]
    {
      s := Next(s, e);
      log := log + [e];
      assert log[..|log| - 1] == old(log);
    }

    /** A step of handle `h`. */
    method Mine(h: nat, e: Event)
      requires Valid() && h in s.handles && Actor(e) == Some(h) && !e.NewMutex? && !e.StartDo?
      modifies this
      ensures Valid() && log == old(log) + [e]
      ensures h in s.handles && s.handles[h] == HandleAfter(old(s), old(s).handles[h], e)
      ensures s.store == if e.Execute? then Apply(old(s), h, old(s).handles[h].key, InFlight(old(s).handles[h])).store
                         else old(s).store
    {
      Step(e);
    }

    /** Everybody else moves; `me` does not. */
    method Others(evs: seq<Event>, ghost me: nat)
      requires Valid() && me in s.handles && ByOthers(evs, me)
      modifies this
      ensures Valid() && log == old(log) + evs
      ensures me in s.handles && s.handles[me] == old(s.handles[me])
    {
      for i := 0 to |evs|
        invariant Valid() && log == old(log) + evs[..i]
        invariant me in s.handles && s.handles[me] == old(s.handles[me])
      {
        OthersUntouched(s, evs[i]);
        Step(evs[i]);
        assert evs[..i + 1] == evs[..i] + [evs[i]];
      }
      assert evs[..|evs|] == evs;
    }
  }

  datatype TryResult = Locked | NotLocked | Failed

  /** The handle is back with its caller. */
  predicate AtRest(s: Sys, h: nat) {
    h in s.handles && (s.handles[h].pc.Idle? || s.handles[h].pc == Dropped(Nothing))
  }

  /** It is at rest, with the key and the mode it had. */
  predicate SameHandle(s: Sys, h: nat, was: Handle) {
    AtRest(s, h) && s.handles[h].key == was.key && s.handles[h].mode == was.mode
  }

  /** An unexpired document is stored for the key. */
  predicate Live(s: Sys, key: string) {
    key in s.store && s.now <= s.store[key].expires
  }

  /**
   The moments of one attempt, as lengths of the log: just before FindOne, before the clock
   is compared, before the expiry is stamped, and before the write is executed.
   */
  datatype Trace = Trace(look: nat, check: nat, stamp: nat, write: nat)

  predicate InCall(t: Trace, from: nat, to: nat) {
    from <= t.look <= t.check <= t.stamp <= t.write <= to
  }

  function At(log: seq<Event>, k: nat): Sys
    requires k <= |log|
  {
    Run(INIT, log[..k])
  }

  /**
   What decides an attempt: a key that was absent must still be absent; an unexpired document
   must carry the caller's identity; an expired one must be swapped.
   */
  predicate Wins(log: seq<Event>, t: Trace, key: string, opt: LockOpt)
    requires InCall(t, 0, |log|)
  {
    var found := At(log, t.look).store;
    if key !in found then key !in At(log, t.write).store
    else if At(log, t.check).now <= found[key].expires then opt.identity != "" && found[key].identity == opt.identity
    else SwapMatches(At(log, t.write), key, opt, found[key], At(log, t.stamp).now + opt.ttl)
  }

  /** The document read, if any, is expired when the clock is compared: a write is sent. */
  predicate Undecided(log: seq<Event>, t: Trace, key: string)
    requires InCall(t, 0, |log|)
  {
    key !in At(log, t.look).store || At(log, t.look).store[key].expires < At(log, t.check).now
  }

  /** The moments follow from the length of the gaps: each command comes right behind its gap. */
  predicate Timed(log: seq<Event>, t: Trace, from: nat, gaps: seq<Gap<Event>>, key: string)
    requires InCall(t, 0, |log|) && |gaps| == 4
  {
    && t.look == from + 1 + |gaps[0].others| && t.check == t.look + 1 + |gaps[1].others|
    && (if Undecided(log, t, key)
        then && t.stamp == t.check + (if key in At(log, t.look).store then 1 + |gaps[2].others| else 0)
             && t.write == t.stamp + 1 + |gaps[3].others|
        else t.stamp == t.check && t.write == t.check)
  }

  /** The lease a winning attempt comes away with: its own TTL from the stamp, or the shared document's. */
  predicate Got(log: seq<Event>, t: Trace, key: string, opt: LockOpt, d: Detail)
    requires InCall(t, 0, |log|)
  {
    if Undecided(log, t, key) then d.expires == At(log, t.stamp).now + opt.ttl && d.identity == opt.identity
    else
      var rec := At(log, t.look).store[key];
      d == Detail(rec.expires, rec.identity, rec.gen)
  }

  lemma {:induction false} ClockForward(log: seq<Event>, i: nat, j: nat)
    requires i <= j <= |log|
    ensures At(log, i).now <= At(log, j).now
    decreases j
  {
    if i < j {
      RunAt(log, j - 1);
      StepMoves(At(log, j - 1), log[j - 1]);
      ClockForward(log, i, j - 1);
    }
  }

  /**
   Why an attempt is refused: the key was held when it looked; a document came between look
   and insert; the expired document it read was gone or replaced before the swap; or, with a
   TTL below a millisecond, the swap would have changed nothing.
   */
  lemma RefusalReasons(log: seq<Event>, t: Trace, key: string, opt: LockOpt)
    requires InCall(t, 0, |log|) && !Wins(log, t, key, opt)
    ensures var found, met := At(log, t.look).store, At(log, t.write).store;
            || Live(At(log, t.look), key)
            || (key !in found && key in met)
            || (key in found && (key !in met || met[key].expires != found[key].expires))
            || opt.ttl < MS
  {
    ClockForward(log, t.look, t.check);
    ClockForward(log, t.check, t.stamp);
  }

  lemma SamePast(log: seq<Event>, longer: seq<Event>, k: nat)
    requires log <= longer && k <= |log|
    ensures At(longer, k) == At(log, k)
  {
    assert longer[..k] == log[..k];
  }

  lemma NowAt(log: seq<Event>)
    ensures At(log, |log|) == Run(INIT, log)
  {
    assert log[..|log|] == log;
  }

  /** What an attempt answers: it fails exactly if one of its commands does, and locks exactly if it wins. */
  predicate Told(log: seq<Event>, t: Trace, from: nat, gaps: seq<Gap<Event>>, key: string, opt: LockOpt, r: TryResult)
    requires |gaps| == 4
  {
    if gaps[0].fails then r == Failed
    else
      && InCall(t, from, |log|) && Timed(log, t, from, gaps, key)
      && (r == Failed <==> Undecided(log, t, key) && gaps[3].fails)
      && (r != Failed ==> (r == Locked <==> Wins(log, t, key, opt)))
  }

  /** TryLock. `gaps`: before FindOne, before the clock is read, before the stamp, before the write. */
  method TryLock(c: Cluster, h: nat, opt: LockOpt, gaps: seq<Gap<Event>>) returns (r: TryResult, ghost t: Trace)
    requires c.Valid() && h in c.s.handles && c.s.handles[h].pc.Idle? && OptFits(c.s.handles[h].mode, opt)
    requires |gaps| == 4 && Foreign(gaps, h)
    modifies c
    ensures c.Valid() && old(c.log) <= c.log
    ensures SameHandle(c.s, h, old(c.s.handles[h]))
    ensures r != Failed ==> c.s.handles[h].pc.Idle?
    ensures r == Locked <==> c.s.handles[h].detail.Some?
    // a handle that still remembers a lock reports it without asking the server
    ensures old(c.s.handles[h].detail.Some?) ==> r == Locked && c.s == old(c.s)
    // otherwise it locks exactly if what it met at the moments of the attempt lets it
    ensures old(c.s.handles[h].detail.None?) ==> Told(c.log, t, |old(c.log)|, gaps, old(c.s.handles[h].key), opt, r)
    ensures old(c.s.handles[h].detail.None?) && r == Locked ==>
              Got(c.log, t, old(c.s.handles[h].key), opt, c.s.handles[h].detail.value)
    // without identities on the key, what TryLock reports is the stored document or has run out
    ensures Anonymous(c.log, c.s.handles[h].key) && r == Locked ==> Backed(c.s, h, c.s.handles[h])
  {
    if c.s.handles[h].detail.Some? {
      BackedLater(c.log, h);
      return Locked, Trace(0, 0, 0, 0);
    }
    r, t := Attempt(c, h, opt, gaps);
    BackedLater(c.log, h);
  }

  /** An attempt of a handle that remembers no lock. */
  method Attempt(c: Cluster, h: nat, opt: LockOpt, gaps: seq<Gap<Event>>) returns (r: TryResult, ghost t: Trace)
    requires c.Valid() && h in c.s.handles && c.s.handles[h].pc.Idle? && OptFits(c.s.handles[h].mode, opt)
    requires c.s.handles[h].detail.None? && |gaps| == 4 && Foreign(gaps, h)
    modifies c
    ensures c.Valid() && old(c.log) < c.log && SameHandle(c.s, h, old(c.s.handles[h]))
    ensures r != Failed ==> c.s.handles[h].pc.Idle?
    ensures r == Locked <==> c.s.handles[h].detail.Some?
    ensures Told(c.log, t, |old(c.log)|, gaps, old(c.s.handles[h].key), opt, r)
    ensures r == Locked ==> Got(c.log, t, old(c.s.handles[h].key), opt, c.s.handles[h].detail.value)
  {
    var failed, decided, look, check := Read(c, h, opt, gaps);
    t := Trace(look, check, check, check);
    if failed {
      return Failed, t;
    }
    if decided {
      return if c.s.handles[h].detail.Some? then Locked else NotLocked, t;
    }
    ghost var judged := c.log;
    ghost var stamp, write;
    r, stamp, write := Write(c, h, gaps[3]);
    SamePast(judged, c.log, look);
    SamePast(judged, c.log, check);
    t := Trace(look, check, stamp, write);
  }

  /** The reading half of tryLock: FindOne at the moment `look`, and the clock at the moment `check`. */
  method Read(c: Cluster, h: nat, opt: LockOpt, gaps: seq<Gap<Event>>)
    returns (failed: bool, decided: bool, ghost look: nat, ghost check: nat)
    requires c.Valid() && h in c.s.handles && c.s.handles[h].pc.Idle? && OptFits(c.s.handles[h].mode, opt)
    requires c.s.handles[h].detail.None? && |gaps| == 4 && Foreign(gaps, h)
    modifies c
    ensures c.Valid() && old(c.log) < c.log && (failed <==> gaps[0].fails)
    ensures failed ==> SameHandle(c.s, h, old(c.s.handles[h])) && c.s.handles[h].detail.None?
    ensures !failed ==> look == |old(c.log)| + 1 + |gaps[0].others| && check == look + 1 + |gaps[1].others| <= |c.log|
    ensures !failed ==>
              var key, found := old(c.s.handles[h].key), At(c.log, look).store;
              && (decided <==> key in found && At(c.log, check).now <= found[key].expires)
              && h in c.s.handles && c.s.handles[h] == AfterRead(old(c.s.handles[h]), opt, found, decided)
              && (!decided ==> |c.log| == check + if key in found then 1 + |gaps[2].others| else 0)
  {
    failed, look := Look(c, h, opt, gaps[0], gaps[1]);
    check := |c.log|;
    decided := false;
    if !failed {
      NowAt(c.log);
      if c.s.handles[h].pc.Found? {
        decided := Judge(c, h, opt, gaps[2], look);
      }
    }
  }

  /** The handle after it has read `found`: it shares an unexpired document, or is about to write. */
  function AfterRead(hd: Handle, opt: LockOpt, found: map<string, Rec>, decided: bool): Handle {
    if hd.key !in found then hd.(pc := Absent(opt))
    else if decided then hd.(detail := Shared(opt, found[hd.key]))
    else hd.(pc := Stale(opt, found[hd.key]))
  }

  /** What an unexpired document gives a caller: a share in it, if it carries the caller's identity. */
  function Shared(opt: LockOpt, seen: Rec): Option<Detail> {
    if opt.identity != "" && seen.identity == opt.identity
    then Some(Detail(seen.expires, seen.identity, seen.gen)) else None
  }

  /** The comparison of the found expiry with the clock: it decides, or an expired document is left to swap. */
  method Judge(c: Cluster, h: nat, opt: LockOpt, gap: Gap<Event>, ghost look: nat) returns (decided: bool)
    requires c.Valid() && h in c.s.handles && c.s.handles[h].detail.None? && look <= |c.log|
    requires c.s.handles[h].key in At(c.log, look).store && ByOthers(gap.others, h)
    requires c.s.handles[h].pc == Found(opt, At(c.log, look).store[c.s.handles[h].key])
    modifies c
    ensures c.Valid() && old(c.log) <= c.log && h in c.s.handles
    ensures |c.log| == |old(c.log)| + 1 + if decided then 0 else |gap.others|
    ensures At(c.log, look) == At(old(c.log), look) && At(c.log, |old(c.log)|) == old(c.s)
    ensures c.s.handles[h].key == old(c.s.handles[h].key) && c.s.handles[h].mode == old(c.s.handles[h].mode)
    ensures var seen := old(c.s.handles[h].pc.seen);
            && (decided <==> old(c.s.now) <= seen.expires)
            && (!decided ==> c.s.handles[h].pc == Stale(opt, seen) && c.s.handles[h].detail.None?)
            && (decided ==> c.s.handles[h].pc.Idle?)
            && (decided ==> c.s.handles[h].detail == Shared(opt, seen))
  {
    NowAt(c.log);
    c.Mine(h, CheckExpiry(h));
    decided := c.s.handles[h].pc.Idle?;
    if !decided {
      c.Others(gap.others, h);
    }
    SamePast(old(c.log), c.log, look);
    SamePast(old(c.log), c.log, |old(c.log)|);
  }

  /** The first half of tryLock: FindOne, at the moment `look`. */
  method Look(c: Cluster, h: nat, opt: LockOpt, before: Gap<Event>, after: Gap<Event>)
    returns (failed: bool, ghost look: nat)
    requires c.Valid() && h in c.s.handles && c.s.handles[h].pc.Idle? && OptFits(c.s.handles[h].mode, opt)
    requires c.s.handles[h].detail.None? && ByOthers(before.others, h) && ByOthers(after.others, h)
    modifies c
    ensures c.Valid() && old(c.log) <= c.log && h in c.s.handles
    ensures look == |old(c.log)| + 1 + |before.others| <= |c.log| && (failed <==> before.fails)
    ensures !failed ==> |c.log| == look + 1 + |after.others|
    ensures failed ==> AtRest(c.s, h) && c.s.handles[h].detail.None?
    ensures failed ==> c.s.handles[h].key == old(c.s.handles[h].key) && c.s.handles[h].mode == old(c.s.handles[h].mode)
    ensures !failed ==>
              var found, hd := At(c.log, look).store, old(c.s.handles[h]);
              c.s.handles[h] == hd.(pc := if hd.key in found then Found(opt, found[hd.key]) else Absent(opt))
  {
    c.Mine(h, Begin(h, opt));
    c.Others(before.others, h);
    look := |c.log|;
    if before.fails {
      c.Mine(h, Fail(h));
      return true, look;
    }
    ghost var sofar := c.log;
    c.Mine(h, FindOne(h));
    c.Others(after.others, h);
    NowAt(sofar);
    SamePast(sofar, c.log, look);
    failed := false;
  }

  lemma BackedLater(log: seq<Event>, h: nat)
    requires h in Run(INIT, log).handles
    ensures Anonymous(log, Run(INIT, log).handles[h].key) ==> Backed(Run(INIT, log), h, Run(INIT, log).handles[h])
  {
    if Anonymous(log, Run(INIT, log).handles[h].key) {
      ExclusiveRun(log, Run(INIT, log).handles[h].key);
    }
  }

  /** The write a handle that has read is about to send, when it stamps at `now`. */
  function Sends(hd: Handle, now: Time): Command
    requires hd.pc.Absent? || hd.pc.Stale?
  {
    if hd.pc.Absent? then Insert(hd.pc.opt, now + hd.pc.opt.ttl) else Swap(hd.pc.opt, hd.pc.seen, now + hd.pc.opt.ttl)
  }

  /** The lease is the one the write asked for. */
  predicate Leases(d: Detail, cmd: Command)
    requires cmd.Insert? || cmd.Swap?
  {
    d.expires == cmd.expires && d.identity == cmd.opt.identity
  }

  /** The write on its way is executed at the moment `write`, or fails. */
  method Deliver(c: Cluster, h: nat, gap: Gap<Event>) returns (r: TryResult, ghost write: nat)
    requires c.Valid() && h in c.s.handles && c.s.handles[h].pc.Sending? && c.s.handles[h].detail.None?
    requires (c.s.handles[h].pc.cmd.Insert? || c.s.handles[h].pc.cmd.Swap?) && ByOthers(gap.others, h)
    modifies c
    ensures c.Valid() && old(c.log) <= c.log && write == |old(c.log)| + |gap.others| <= |c.log|
    ensures SameHandle(c.s, h, old(c.s.handles[h]))
    ensures r != Failed ==> c.s.handles[h].pc.Idle?
    ensures r == Locked <==> c.s.handles[h].detail.Some?
    ensures r == Failed <==> gap.fails
    ensures r != Failed ==>
              (r == Locked <==> Takes(At(c.log, write), old(c.s.handles[h].key), old(c.s.handles[h].pc.cmd)))
    ensures r == Locked ==> Leases(c.s.handles[h].detail.value, old(c.s.handles[h].pc.cmd))
  {
    c.Others(gap.others, h);
    write := |c.log|;
    NowAt(c.log);
    ghost var sofar := c.log;
    if gap.fails {
      c.Mine(h, Fail(h));
      return Failed, write;
    }
    c.Mine(h, Execute(h));
    SamePast(sofar, c.log, write);
    r := if c.s.handles[h].detail.Some? then Locked else NotLocked;
  }

  /** The second half of tryLock: stamp the expiry, send the write, read the reply. */
  method Write(c: Cluster, h: nat, gap: Gap<Event>) returns (r: TryResult, ghost stamp: nat, ghost write: nat)
    requires c.Valid() && h in c.s.handles && (c.s.handles[h].pc.Absent? || c.s.handles[h].pc.Stale?)
    requires ByOthers(gap.others, h) && c.s.handles[h].detail.None?
    modifies c
    ensures c.Valid() && old(c.log) <= c.log && stamp == |old(c.log)|
    ensures write == stamp + 1 + |gap.others| <= |c.log| && (r == Failed <==> gap.fails)
    ensures SameHandle(c.s, h, old(c.s.handles[h]))
    ensures r != Failed ==> c.s.handles[h].pc.Idle?
    ensures r == Locked <==> c.s.handles[h].detail.Some?
    ensures At(c.log, stamp) == old(c.s)
    ensures r != Failed ==>
              var sent := Sends(old(c.s.handles[h]), old(c.s.now));
              r == Locked <==> Takes(At(c.log, write), old(c.s.handles[h].key), sent)
    ensures r == Locked ==> Leases(c.s.handles[h].detail.value, Sends(old(c.s.handles[h]), old(c.s.now)))
  {
    stamp := |c.log|;
    NowAt(c.log);
    c.Mine(h, Stamp(h));
    r, write := Deliver(c, h, gap);
    SamePast(old(c.log), c.log, stamp);
  }

  /** What the select statement of Lock fires next. */
  datatype Spin = Ticker(gaps: seq<Gap<Event>>) | MaxWait | Canceled

  datatype LockResult = Acquired | NotAcquired | ContextError | CallFailed | StillWaiting

  /** One attempt of a Lock call: its answer, its moments, and the log before and after it. */
  datatype Try = Try(result: TryResult, t: Trace, before: seq<Event>, after: seq<Event>)

  /** The gaps of the k-th attempt. */
  function GapsOf(first: seq<Gap<Event>>, spins: seq<Spin>, k: nat): seq<Gap<Event>> {
    if k == 0 || k > |spins| || !spins[k - 1].Ticker? then first else spins[k - 1].gaps
  }

  /** The attempt took its stretch of the log and answered as it had to. */
  ghost predicate Attempted(y: Try, gaps: seq<Gap<Event>>, key: string, opt: LockOpt) {
    |gaps| == 4 && y.before < y.after && Told(y.after, y.t, |y.before|, gaps, key, opt, y.result)
  }

  /** The attempts of a call, each beginning where the one before it ended. */
  ghost predicate Attempts(log: seq<Event>, tries: seq<Try>, first: seq<Gap<Event>>, spins: seq<Spin>,
                           key: string, opt: LockOpt) {
    forall k {:trigger Nth(tries, k)} :: 0 <= k < |tries| ==>
      Attempted(Nth(tries, k), GapsOf(first, spins, k), key, opt) && Nth(tries, k).before == EndOf(log, tries, k)
  }

  function Nth(tries: seq<Try>, k: nat): Try
    requires k < |tries|
  {
    tries[k]
  }

  /** The log before the k-th attempt of a call that began with `log`. */
  function EndOf(log: seq<Event>, tries: seq<Try>, k: nat): seq<Event>
    requires k <= |tries|
  {
    if k == 0 then log else tries[k - 1].after
  }

  /** All attempts so far were refused, each but the first made on a tick. */
  predicate Spinning(tries: seq<Try>, spins: seq<Spin>) {
    && 0 < |tries| <= |spins| + 1
    && (forall i :: 0 <= i < |tries| - 1 ==> spins[i].Ticker? && tries[i].result == NotLocked)
  }

  /** All attempts but the last were refused, and the last one, or what fired then, decides. */
  predicate Concludes(r: LockResult, tries: seq<Try>, spins: seq<Spin>) {
    Spinning(tries, spins) && Answer(tries[|tries| - 1].result, spins[|tries| - 1..], r)
  }

  /** What Lock answers after an attempt, given what fires next. */
  predicate Answer(t: TryResult, next: seq<Spin>, r: LockResult) {
    match r
    case Acquired => t == Locked
    case CallFailed => t == Failed
    case StillWaiting => t == NotLocked && next == []
    case NotAcquired => t == NotLocked && next != [] && next[0] == MaxWait
    case ContextError => t == NotLocked && next != [] && next[0] == Canceled
  }

  lemma OneMore(log: seq<Event>, tries: seq<Try>, y: Try, first: seq<Gap<Event>>, spins: seq<Spin>, key: string,
                opt: LockOpt)
    requires Attempts(log, tries, first, spins, key, opt) && y.before == EndOf(log, tries, |tries|)
    requires Attempted(y, GapsOf(first, spins, |tries|), key, opt)
    ensures Attempts(log, tries + [y], first, spins, key, opt)
  {
    var all := tries + [y];
    forall k | 0 <= k < |all|
      ensures Attempted(Nth(all, k), GapsOf(first, spins, k), key, opt) && Nth(all, k).before == EndOf(log, all, k)
    {
      if k < |tries| {
        assert Nth(all, k) == Nth(tries, k) && EndOf(log, all, k) == EndOf(log, tries, k);
      }
    }
  }

  /** The next attempt of a call may be made: it is the first, or all were refused and a tick fired. */
  predicate MayTry(tries: seq<Try>, spins: seq<Spin>) {
    tries == [] || (Spinning(tries, spins) && tries[|tries| - 1].result == NotLocked && |tries| <= |spins|
                    && spins[|tries| - 1].Ticker?)
  }

  /** One more attempt of a call, recorded. */
  method TryAgain(c: Cluster, h: nat, opt: LockOpt, gaps: seq<Gap<Event>>, ghost log: seq<Event>, ghost tries: seq<Try>,
                  ghost first: seq<Gap<Event>>, ghost spins: seq<Spin>)
    returns (r: TryResult, ghost more: seq<Try>)
    requires c.Valid() && h in c.s.handles && c.s.handles[h].pc.Idle? && OptFits(c.s.handles[h].mode, opt)
    requires c.s.handles[h].detail.None? && |gaps| == 4 && Foreign(gaps, h) && gaps == GapsOf(first, spins, |tries|)
    requires Attempts(log, tries, first, spins, c.s.handles[h].key, opt) && MayTry(tries, spins)
    requires c.log == EndOf(log, tries, |tries|)
    modifies c
    ensures c.Valid() && old(c.log) < c.log && SameHandle(c.s, h, old(c.s.handles[h]))
    ensures r != Failed ==> c.s.handles[h].pc.Idle?
    ensures r == Locked <==> c.s.handles[h].detail.Some?
    ensures Attempts(log, more, first, spins, old(c.s.handles[h].key), opt) && Spinning(more, spins)
    ensures |more| == |tries| + 1 && more[|tries|].result == r && more[|tries|].after == c.log
  {
    ghost var t;
    r, t := Attempt(c, h, opt, gaps);
    ghost var y := Try(r, t, old(c.log), c.log);
    OneMore(log, tries, y, first, spins, old(c.s.handles[h].key), opt);
    more := tries + [y];
  }

  /** Lock: one attempt, then one attempt per tick until something else fires. */
  method Lock(c: Cluster, h: nat, opt: LockOpt, first: seq<Gap<Event>>, spins: seq<Spin>)
    returns (r: LockResult, ghost tries: seq<Try>)
    requires c.Valid() && h in c.s.handles && c.s.handles[h].pc.Idle? && OptFits(c.s.handles[h].mode, opt)
    requires |first| == 4 && Foreign(first, h)
    requires forall i :: 0 <= i < |spins| && spins[i].Ticker? ==> |spins[i].gaps| == 4 && Foreign(spins[i].gaps, h)
    modifies c
    ensures c.Valid() && old(c.log) <= c.log && SameHandle(c.s, h, old(c.s.handles[h]))
    // Lock returns nil exactly with a lock in hand, and never waits with one
    ensures r == Acquired <==> c.s.handles[h].detail.Some?
    ensures r == Acquired ==> c.s.handles[h].pc.Idle?
    ensures old(c.s.handles[h].detail.Some?) ==> r == Acquired && c.s == old(c.s)
    ensures Anonymous(c.log, c.s.handles[h].key) && r == Acquired ==> Backed(c.s, h, c.s.handles[h])
    // it tries at once and on every tick until an attempt locks or fails or something else fires
    ensures old(c.s.handles[h].detail.None?) ==>
              && Attempts(old(c.log), tries, first, spins, old(c.s.handles[h].key), opt)
              && Concludes(r, tries, spins) && EndOf(old(c.log), tries, |tries|) == c.log
  {
    if c.s.handles[h].detail.Some? {
      BackedLater(c.log, h);
      return Acquired, [];
    }
    r, tries := SpinLock(c, h, opt, first, spins);
    BackedLater(c.log, h);
  }

  /** Lock of a handle that remembers no lock. */
  method SpinLock(c: Cluster, h: nat, opt: LockOpt, first: seq<Gap<Event>>, spins: seq<Spin>)
    returns (r: LockResult, ghost tries: seq<Try>)
    requires c.Valid() && h in c.s.handles && c.s.handles[h].pc.Idle? && OptFits(c.s.handles[h].mode, opt)
    requires c.s.handles[h].detail.None? && |first| == 4 && Foreign(first, h)
    requires forall i :: 0 <= i < |spins| && spins[i].Ticker? ==> |spins[i].gaps| == 4 && Foreign(spins[i].gaps, h)
    modifies c
    ensures c.Valid() && old(c.log) <= c.log && SameHandle(c.s, h, old(c.s.handles[h]))
    ensures r == Acquired <==> c.s.handles[h].detail.Some?
    ensures r == Acquired ==> c.s.handles[h].pc.Idle?
    ensures Attempts(old(c.log), tries, first, spins, old(c.s.handles[h].key), opt)
    ensures Concludes(r, tries, spins) && EndOf(old(c.log), tries, |tries|) == c.log
  {
    var t;
    t, tries := TryAgain(c, h, opt, first, old(c.log), [], first, spins);
    var i := 0;
    while t == NotLocked && i < |spins| && spins[i].Ticker?
      invariant 0 <= i <= |spins| && c.Valid() && old(c.log) <= c.log && SameHandle(c.s, h, old(c.s.handles[h]))
      invariant t != Failed ==> c.s.handles[h].pc.Idle?
      invariant t == Locked <==> c.s.handles[h].detail.Some?
      invariant |tries| == i + 1 && tries[i].result == t && tries[i].after == c.log && Spinning(tries, spins)
      invariant Attempts(old(c.log), tries, first, spins, old(c.s.handles[h].key), opt)
      decreases |spins| - i
    {
      t, tries := TryAgain(c, h, opt, spins[i].gaps, old(c.log), tries, first, spins);
      i := i + 1;
    }
    r := match t
      case Locked => Acquired
      case Failed => CallFailed
      case NotLocked =>
        if i == |spins| then StillWaiting else if spins[i] == MaxWait then NotAcquired else ContextError;
  }

  datatype UnlockResult = Unlocked | AlreadyUnlocked | UnlockFailed

  /** The document the handle remembers is the stored one, as far as the filter of Unlock can tell. */
  predicate Deletes(s: Sys, key: string, d: Detail) {
    key in s.store && s.store[key].expires == Trunc(d.expires)
  }

  /** Unlock; the delete is executed at the moment `del`, right behind its gap. */
  method Unlock(c: Cluster, h: nat, gap: Gap<Event>) returns (r: UnlockResult, ghost del: nat)
    requires c.Valid() && h in c.s.handles && c.s.handles[h].pc.Idle? && ByOthers(gap.others, h)
    modifies c
    ensures c.Valid() && old(c.log) <= c.log && SameHandle(c.s, h, old(c.s.handles[h]))
    ensures old(c.s.handles[h].detail.None?) ==> r == AlreadyUnlocked && c.s == old(c.s)
    ensures r == UnlockFailed <==> old(c.s.handles[h].detail.Some?) && gap.fails
    // a delete that is executed succeeds exactly if it finds the remembered expiry, and removes that document only
    ensures old(c.s.handles[h].detail.Some?) ==>
              && del == |old(c.log)| + 1 + |gap.others| == |c.log| - 1
              && Released(At(c.log, del), c.s, old(c.s.handles[h].key), old(c.s.handles[h].detail.value), gap.fails, r)
    ensures r == Unlocked ==> c.s.handles[h].detail.None?
    // a plain handle whose lock was gone keeps believing in it
    ensures old(c.s.handles[h].mode.Plain?) && r != Unlocked ==> c.s.handles[h] == old(c.s.handles[h])
    // without identities on the key, a lease that is still running is given back
    ensures old(c.s.handles[h].detail.Some?) && !gap.fails && Anonymous(c.log, old(c.s.handles[h].key))
            && At(c.log, del).now <= Trunc(old(c.s.handles[h].detail.value).expires) ==>
              r == Unlocked && old(c.s.handles[h].key) !in c.s.store
  {
    if c.s.handles[h].detail.None? {
      return AlreadyUnlocked, 0;
    }
    r, del := Release(c, h, gap);
    RunningLeaseDeletes(c.log, del, h);
  }

  /** What a delete made of the collection it met, and what was answered. */
  predicate Released(met: Sys, left: Sys, key: string, d: Detail, fails: bool, r: UnlockResult) {
    && (r == UnlockFailed <==> fails)
    && (r == Unlocked <==> !fails && Deletes(met, key, d))
    && left.store == if r == Unlocked then met.store - {key} else met.store
  }

  /** Unlock of a handle that remembers a lock. */
  method Release(c: Cluster, h: nat, gap: Gap<Event>) returns (r: UnlockResult, ghost del: nat)
    requires c.Valid() && h in c.s.handles && c.s.handles[h].pc.Idle? && ByOthers(gap.others, h)
    requires c.s.handles[h].detail.Some?
    modifies c
    ensures c.Valid() && old(c.log) <= c.log && SameHandle(c.s, h, old(c.s.handles[h]))
    ensures del == |old(c.log)| + 1 + |gap.others| == |c.log| - 1
    ensures h in At(c.log, del).handles && At(c.log, del).handles[h].key == old(c.s.handles[h].key)
    ensures At(c.log, del).handles[h].detail == old(c.s.handles[h].detail)
    ensures Released(At(c.log, del), c.s, old(c.s.handles[h].key), old(c.s.handles[h].detail.value), gap.fails, r)
    ensures r == Unlocked ==> c.s.handles[h].detail.None?
    ensures old(c.s.handles[h].mode.Plain?) && r != Unlocked ==> c.s.handles[h] == old(c.s.handles[h])
  {
    c.Mine(h, BeginUnlock(h));
    c.Others(gap.others, h);
    del := |c.log|;
    NowAt(c.log);
    ghost var sofar := c.log;
    r := DeleteOne(c, h, gap.fails);
    SamePast(sofar, c.log, del);
  }

  /** The delete on its way is executed, or fails. */
  method DeleteOne(c: Cluster, h: nat, fails: bool) returns (r: UnlockResult)
    requires c.Valid() && h in c.s.handles && c.s.handles[h].detail.Some?
    requires c.s.handles[h].pc == Sending(Delete(c.s.handles[h].detail.value))
    modifies c
    ensures c.Valid() && |c.log| == |old(c.log)| + 1 && old(c.log) <= c.log && SameHandle(c.s, h, old(c.s.handles[h]))
    ensures Released(old(c.s), c.s, old(c.s.handles[h].key), old(c.s.handles[h].detail.value), fails, r)
    ensures r == Unlocked ==> c.s.handles[h].detail.None?
    ensures old(c.s.handles[h].mode.Plain?) && r != Unlocked ==> c.s.handles[h] == old(c.s.handles[h]).(pc := Idle)
  {
    if fails {
      c.Mine(h, Fail(h));
      return UnlockFailed;
    }
    r := if Deletes(c.s, c.s.handles[h].key, c.s.handles[h].detail.value) then Unlocked else AlreadyUnlocked;
    c.Mine(h, Execute(h));
  }

  /** Without identities on the key, a delete of a running lease finds its document. */
  lemma RunningLeaseDeletes(log: seq<Event>, k: nat, h: nat)
    requires k <= |log| && h in At(log, k).handles && At(log, k).handles[h].detail.Some?
    ensures var s := At(log, k); var hd := s.handles[h];
            Anonymous(log, hd.key) && s.now <= Trunc(hd.detail.value.expires) ==> Deletes(s, hd.key, hd.detail.value)
  {
    var key := At(log, k).handles[h].key;
    if Anonymous(log, key) {
      UsesOnlyPrefix(NONE, log, key, k);
      BackedLater(log[..k], h);
    }
  }

  /** What MutexDo and MutexTryDo return: the action's error, the unlock's, or both folded together. */
  datatype DoError =
    | NoError
    | LockError(lock: LockResult)
    | ActionError
    | UnlockError(unlock: UnlockResult)
    | BothErrors(unlock: UnlockResult)

  /** The answer of a call whose action ran, from the answers of the action and of Unlock. */
  predicate Folds(err: DoError, actionFails: bool, u: UnlockResult) {
    match err
    case NoError => u == Unlocked && !actionFails
    case ActionError => u == Unlocked && actionFails
    case UnlockError(v) => v == u && u != Unlocked && !actionFails
    case BothErrors(v) => v == u && u != Unlocked && actionFails
    case LockError(_) => false
  }

  /** MutexDo on a fresh mutex: lock, run the action, unlock whatever the action did. */
  method MutexDo(c: Cluster, h: nat, key: string, ttl: Time, first: seq<Gap<Event>>, spins: seq<Spin>,
                 action: seq<Event>, actionFails: bool, last: Gap<Event>)
    returns (ran: bool, err: DoError, ghost tries: seq<Try>, ghost start: seq<Event>, ghost u: UnlockResult)
    requires c.Valid() && h !in c.s.handles
    requires |first| == 4 && Foreign(first, h) && ByOthers(action, h) && ByOthers(last.others, h)
    requires forall i :: 0 <= i < |spins| && spins[i].Ticker? ==> |spins[i].gaps| == 4 && Foreign(spins[i].gaps, h)
    modifies c
    ensures c.Valid() && old(c.log) <= c.log
    // the action runs exactly if Lock got the lock, by the attempts it made with the call's TTL
    ensures Attempts(old(c.log) + [StartDo(h, key, ttl)], tries, first, spins, key, LockOpt(ttl, ""))
    ensures ran ==> Concludes(Acquired, tries, spins) && start == tries[|tries| - 1].after
    ensures !ran ==> err.LockError? && err.lock != Acquired && Concludes(err.lock, tries, spins)
    // during the whole action the call is in its critical section
    ensures ran ==> forall k :: 0 <= k <= |action| ==> CS.Acts(Run(INIT, start + action[..k]), h, key)
    // the lock is given back exactly if the delete finds it, and the error says what was not done
    ensures ran ==> GivenBack(start + action, c.log, c.s, h, key, last, u) && Folds(err, actionFails, u)
    // without identities on the key, a lease that is still running then is given back
    ensures ran && !last.fails && Anonymous(c.log, key) && StillRuns(start + action, c.log, h) ==>
              (err == NoError || err == ActionError) && key !in c.s.store
  {
    c.Step(StartDo(h, key, ttl));
    var l;
    l, tries := Lock(c, h, LockOpt(ttl, ""), first, spins);
    start := c.log;
    if l != Acquired {
      return false, LockError(l), tries, start, AlreadyUnlocked;
    }
    ran := true;
    err, u := ActAndUnlock(c, h, action, actionFails, last);
  }

  /** From `before` on, the others moved and the delete was sent: what it found and left. */
  ghost predicate GivenBack(before: seq<Event>, log: seq<Event>, s: Sys, h: nat, key: string, gap: Gap<Event>,
                            u: UnlockResult) {
    && h in Run(INIT, before).handles && Run(INIT, before).handles[h].detail.Some?
    && |log| == |before| + 2 + |gap.others| && before <= log
    && Released(At(log, |log| - 1), s, key, Run(INIT, before).handles[h].detail.value, gap.fails, u)
  }

  /** When the delete is executed, the lease held before has not run out. */
  ghost predicate StillRuns(before: seq<Event>, log: seq<Event>, h: nat) {
    && |log| > 0 && h in Run(INIT, before).handles && Run(INIT, before).handles[h].detail.Some?
    && At(log, |log| - 1).now <= Trunc(Run(INIT, before).handles[h].detail.value.expires)
  }

  /** The action, under whatever the others do meanwhile, and the deferred Unlock. */
  method ActAndUnlock(c: Cluster, h: nat, action: seq<Event>, actionFails: bool, last: Gap<Event>)
    returns (err: DoError, ghost u: UnlockResult)
    requires c.Valid() && CS.InAction(c.s, h) && ByOthers(action, h) && ByOthers(last.others, h)
    modifies c
    ensures c.Valid() && old(c.log) <= c.log
    ensures forall k :: 0 <= k <= |action| ==> CS.Acts(Run(INIT, old(c.log) + action[..k]), h, old(c.s.handles[h].key))
    ensures GivenBack(old(c.log) + action, c.log, c.s, h, old(c.s.handles[h].key), last, u)
    ensures Folds(err, actionFails, u)
    ensures !last.fails && Anonymous(c.log, old(c.s.handles[h].key)) && StillRuns(old(c.log) + action, c.log, h) ==>
              u == Unlocked && old(c.s.handles[h].key) !in c.s.store
  {
    InActionThrough(c.log, action, h, c.s.handles[h].key);
    c.Others(action, h);
    var un, del := Unlock(c, h, last);
    u := un;
    err := if un == Unlocked then (if actionFails then ActionError else NoError)
           else if actionFails then BothErrors(un) else UnlockError(un);
  }

  lemma ActsStays(s: Sys, e: Event, h: nat, key: string)
    requires CS.Acts(s, h, key) && Actor(e) != Some(h)
    ensures CS.Acts(Next(s, e), h, key)
  {
    OthersUntouched(s, e);
  }

  lemma {:induction false} InActionThrough(log: seq<Event>, action: seq<Event>, h: nat, key: string)
    requires CS.Acts(Run(INIT, log), h, key) && ByOthers(action, h)
    ensures forall k :: 0 <= k <= |action| ==> CS.Acts(Run(INIT, log + action[..k]), h, key)
    decreases |action|
  {
    if action == [] {
      assert log + action[..0] == log;
    } else {
      var n := |action| - 1;
      InActionThrough(log, action[..n], h, key);
      assert forall k :: 0 <= k <= n ==> action[..n][..k] == action[..k];
      assert (log + action[..|action|])[..|log| + n] == log + action[..n];
      ActsStays(Run(INIT, log + action[..n]), action[n], h, key);
    }
  }
}
