/**
 Number allocation on MongoDB: callers walk a random permutation of [0, max) and claim the
 first number that is free or whose claim has expired, by insert or compare-and-set. All
 claims of one call carry the expiry computed when the call began.
 */
module MongoNumbers {
  import opened Common

  /** One successful claim: `until` is the stored expiry. */
  datatype Grant = Grant(num: nat, at: Time, until: Time, caller: nat)

  datatype Pc =
    | Idle
    | Finding(num: nat)
    | Found(num: nat, seen: Time)
    | Inserting(num: nat)
    | Swapping(num: nat, seen: Time)

  datatype Caller = Caller(expires: Time, pc: Pc)

  /** `store` maps a number to its stored expiry; `grants` is the history of all claims. */
  datatype Sys = Sys(now: Time, store: map<nat, Time>, callers: map<nat, Caller>, grants: seq<Grant>)

  const INIT := Sys(0, map[], map[], [])

  const LEASE: Time := 60_000_000_000
  const REAP_DELAY: Time := 1_000_000_000

  /** The expiry of a call's claims, fixed when the call begins. */
  function Leased(start: Time): Time {
    start + LEASE
  }

  datatype Event =
    | Tick(d: Time)
    | Reap(num: nat)
    | Start(c: nat)
    | Try(c: nat, num: nat)
    | FindOne(c: nat)
    | CheckExpiry(c: nat)
    | Execute(c: nat)
    | Fail(c: nat)

  predicate Takes(s: Sys, cl: Caller) {
    match cl.pc
    case Inserting(num) => num !in s.store
    case Swapping(num, seen) => num in s.store && s.store[num] == seen && seen != Trunc(cl.expires)
    case _ => false
  }

  function CallerAfter(s: Sys, cl: Caller, e: Event): Caller {
    match (e, cl.pc)
    case (Start(_), Idle) => cl.(expires := s.now + LEASE)
    case (Try(_, num), Idle) => cl.(pc := Finding(num))
    case (FindOne(_), Finding(num)) => cl.(pc := if num in s.store then Found(num, s.store[num]) else Inserting(num))
    case (CheckExpiry(_), Found(num, seen)) => cl.(pc := if seen < s.now then Swapping(num, seen) else Idle)
    case (Execute(_), Inserting(_)) => cl.(pc := Idle)
    case (Execute(_), Swapping(_, _)) => cl.(pc := Idle)
    case (Fail(_), _) => cl.(pc := Idle)
    case _ => cl
  }

  function CallerStep(s: Sys, c: nat, cl: Caller, e: Event): Sys {
    var t := s.(callers := s.callers[c := CallerAfter(s, cl, e)]);
    if e.Execute? && Takes(s, cl) then
      t.(store := s.store[cl.pc.num := Trunc(cl.expires)],
         grants := s.grants + [Grant(cl.pc.num, s.now, Trunc(cl.expires), c)])
    else t
  }

  function Next(s: Sys, e: Event): Sys {
    match e
    case Tick(d) => s.(now := s.now + d)
    case Reap(num) =>
      if num in s.store && s.store[num] + REAP_DELAY < s.now then s.(store := s.store - {num}) else s
    case Start(c) =>
      if c in s.callers then CallerStep(s, c, s.callers[c], e)
      else s.(callers := s.callers[c := Caller(s.now + LEASE, Idle)])
    case _ => if e.c in s.callers then CallerStep(s, e.c, s.callers[e.c], e) else s
  }

  function Run(s: Sys, evs: seq<Event>): Sys
    decreases |evs|
  {
    if evs == [] then s else Next(Run(s, evs[..|evs| - 1]), evs[|evs| - 1])
  }

  function Actor(e: Event): Option<nat> {
    if e.Tick? || e.Reap? then None else Some(e.c)
  }

  /** A claim that has not expired is what is stored for its number. */
  predicate Backed(s: Sys, g: Grant) {
    s.now <= g.until ==> g.num in s.store && s.store[g.num] == g.until
  }

  predicate SeenExpired(s: Sys, cl: Caller) {
    cl.pc.Swapping? ==> cl.pc.seen < s.now
  }

  /** Later claims of a number begin after all earlier ones have expired. */
  predicate Separated(grants: seq<Grant>) {
    forall i, j :: 0 <= i < j < |grants| && grants[i].num == grants[j].num ==> grants[i].until < grants[j].at
  }

  predicate Inv(s: Sys) {
    && (forall i :: 0 <= i < |s.grants| ==> Backed(s, s.grants[i]))
    && (forall c :: c in s.callers ==> SeenExpired(s, s.callers[c]))
    && Separated(s.grants)
  }

  lemma InvStep(s: Sys, e: Event)
    requires Inv(s)
    ensures Inv(Next(s, e))
  {
    var t := Next(s, e);
    if e.Execute? && e.c in s.callers && Takes(s, s.callers[e.c]) {
      var cl := s.callers[e.c];
      assert SeenExpired(s, cl);
      forall i | 0 <= i < |s.grants| && s.grants[i].num == cl.pc.num ensures s.grants[i].until < s.now {
        assert Backed(s, s.grants[i]);
      }
    }
    forall i | 0 <= i < |t.grants| ensures Backed(t, t.grants[i]) {
      if i < |s.grants| {
        assert Backed(s, s.grants[i]);
      }
    }
  }

  lemma {:induction false} InvRun(evs: seq<Event>)
    ensures Inv(Run(INIT, evs))
    decreases |evs|
  {
    if evs != [] {
      InvRun(evs[..|evs| - 1]);
      InvStep(Run(INIT, evs[..|evs| - 1]), evs[|evs| - 1]);
    }
  }

  /** Two claims of one number, by any callers in any run, are separated by the first one's stored expiry. */
  lemma ClaimsSeparated(evs: seq<Event>, i: nat, j: nat)
    requires i < j < |Run(INIT, evs).grants|
    requires Run(INIT, evs).grants[i].num == Run(INIT, evs).grants[j].num
    ensures Run(INIT, evs).grants[i].until < Run(INIT, evs).grants[j].at
  {
    InvRun(evs);
  }

  lemma RunAt(evs: seq<Event>, k: nat)
    requires k < |evs|
    ensures Run(INIT, evs[..k + 1]) == Next(Run(INIT, evs[..k]), evs[k])
  {
    assert evs[..k + 1][..k] == evs[..k];
  }

  lemma OthersUntouched(s: Sys, e: Event, me: nat)
    requires me in s.callers && Actor(e) != Some(me)
    ensures me in Next(s, e).callers && Next(s, e).callers[me] == s.callers[me]
    ensures s.grants <= Next(s, e).grants
    ensures forall i :: |s.grants| <= i < |Next(s, e).grants| ==> Next(s, e).grants[i].caller != me
  {
  }
}

/** `GetUniqueRandomNumber` on MongoDB as written: one loop over a permutation. */
module MongoNumbersCode {
  import opened Common
  import opened MongoNumbers

  datatype Claim = Claimed | NotClaimed | Failed

  /** What surrounds one turn of the loop: a cancelled context, and the gaps before read, check and write. */
  datatype Turn = Turn(canceled: bool, read: Gap<Event>, check: Gap<Event>, write: Gap<Event>)

  predicate ByOthers(evs: seq<Event>, me: nat) {
    forall i :: 0 <= i < |evs| ==> Actor(evs[i]) != Some(me)
  }

  predicate Foreign(t: Turn, me: nat) {
    ByOthers(t.read.others, me) && ByOthers(t.check.others, me) && ByOthers(t.write.others, me)
  }

  /** An unexpired claim of the number is stored. */
  predicate Live(s: Sys, num: nat) {
    num in s.store && s.now <= s.store[num]
  }

  /** The moments of one turn, as lengths of the log: before FindOne, before the clock is read, before the write. */
  datatype Trace = Trace(look: nat, check: nat, write: nat)

  predicate InCall(t: Trace, from: nat, to: nat) {
    from <= t.look <= t.check <= t.write <= to
  }

  function At(log: seq<Event>, k: nat): Sys
    requires k <= |log|
  {
    Run(INIT, log[..k])
  }

  /** What decides a turn: an absent claim must stay absent, an expired one must be swapped for `expires`. */
  predicate Wins(log: seq<Event>, t: Trace, num: nat, expires: Time)
    requires InCall(t, 0, |log|)
  {
    var found, met := At(log, t.look).store, At(log, t.write).store;
    if num !in found then num !in met
    else found[num] < At(log, t.check).now && num in met && met[num] == found[num] && found[num] != Trunc(expires)
  }

  /** The claim read, if any, is expired when the clock is read: a write is sent. */
  predicate Undecided(log: seq<Event>, t: Trace, num: nat)
    requires InCall(t, 0, |log|)
  {
    num !in At(log, t.look).store || At(log, t.look).store[num] < At(log, t.check).now
  }

  /** What a turn answers: each command comes right behind its gap; it fails exactly if one does, claims if it wins. */
  predicate Told(log: seq<Event>, t: Trace, from: nat, turn: Turn, num: nat, expires: Time, r: Claim) {
    if turn.read.fails then r == Failed
    else
      && InCall(t, from, |log|)
      && t.look == from + 1 + |turn.read.others| && t.check == t.look + 1 + |turn.check.others|
      && t.write == t.check + (if Undecided(log, t, num) then 1 + |turn.write.others| else 0)
      && (r == Failed <==> Undecided(log, t, num) && turn.write.fails)
      && (r != Failed ==> (r == Claimed <==> Wins(log, t, num, expires)))
  }

  /** Some turn of the call after the first `from` events tried the number and did not win it. */
  ghost predicate Refused(log: seq<Event>, from: nat, num: nat, expires: Time) {
    exists t: Trace :: InCall(t, from, |log|) && !Wins(log, t, num, expires)
  }

  /** Every number of the range was tried after the first `from` events and not won. */
  ghost predicate AllRefused(log: seq<Event>, from: nat, max: int, expires: Time) {
    forall n: nat :: n < max ==> Refused(log, from, n, expires)
  }

  lemma SamePast(log: seq<Event>, longer: seq<Event>, k: nat)
    requires log <= longer && k <= |log|
    ensures At(longer, k) == At(log, k)
  {
    assert longer[..k] == log[..k];
  }

  lemma NowAt(log: seq<Event>)
    ensures At(log, |log|) == Run(INIT, log)
  {
    assert log[..|log|] == log;
  }

  lemma RefusedLater(log: seq<Event>, longer: seq<Event>, from: nat, num: nat, expires: Time)
    requires Refused(log, from, num, expires) && log <= longer
    ensures Refused(longer, from, num, expires)
  {
    var t: Trace :| InCall(t, from, |log|) && !Wins(log, t, num, expires);
    SamePast(log, longer, t.look);
    SamePast(log, longer, t.check);
    SamePast(log, longer, t.write);
    assert InCall(t, from, |longer|) && !Wins(longer, t, num, expires);
  }

  lemma {:induction false} ClockForward(log: seq<Event>, i: nat, j: nat)
    requires i <= j <= |log|
    ensures At(log, i).now <= At(log, j).now
    decreases j
  {
    if i < j {
      RunAt(log, j - 1);
      ClockForward(log, i, j - 1);
    }
  }

  /**
   Why a number is refused: it was claimed when the turn looked; a claim came between look and
   insert; the expired claim it read was gone or renewed before the swap; or the call had
   outlived its own lease.
   */
  lemma RefusalReasons(log: seq<Event>, t: Trace, num: nat, expires: Time)
    requires InCall(t, 0, |log|) && !Wins(log, t, num, expires)
    ensures var found, met := At(log, t.look).store, At(log, t.write).store;
            || Live(At(log, t.look), num)
            || (num !in found && num in met)
            || (num in found && (num !in met || met[num] != found[num]))
            || Trunc(expires) < At(log, t.check).now
  {
    ClockForward(log, t.look, t.check);
  }

  class Cluster {
    var s: Sys
    ghost var log: seq<Event>

    ghost predicate Valid()
      reads this
    {
      s == Run(INIT, log)
    }

    constructor ()
      ensures Valid() && s == INIT && log == []
    {
      s := INIT;
      log := [];
    }

    method Step(e: Event)
      requires Valid()
      modifies this
      ensures Valid() && s == Next(old(s), e) && log == old(log) + [e]
    {
      s := Next(s, e);
      log := log + [e];
      assert log[..|log| - 1] == old(log);
    }

    /** A step of the caller `me`. */
    method Mine(me: nat, e: Event)
      requires Valid() && me in s.callers && Actor(e) == Some(me)
      modifies this
      ensures Valid() && log == old(log) + [e]
      ensures me in s.callers && s.callers[me] == CallerAfter(old(s), old(s).callers[me], e)
      ensures s.grants == CallerStep(old(s), me, old(s).callers[me], e).grants
    {
      Step(e);
    }

    method Others(evs: seq<Event>, ghost me: nat)
      requires Valid() && me in s.callers && ByOthers(evs, me)
      modifies this
      ensures Valid() && log == old(log) + evs
      ensures me in s.callers && s.callers[me] == old(s.callers[me])
      ensures old(s.grants) <= s.grants
      ensures forall i :: |old(s.grants)| <= i < |s.grants| ==> s.grants[i].caller != me
    {
      for i := 0 to |evs|
        invariant Valid() && log == old(log) + evs[..i]
        invariant me in s.callers && s.callers[me] == old(s.callers[me])
        invariant old(s.grants) <= s.grants
        invariant forall i :: |old(s.grants)| <= i < |s.grants| ==> s.grants[i].caller != me
      {
        OthersUntouched(s, evs[i], me);
        Step(evs[i]);
        assert evs[..i + 1] == evs[..i] + [evs[i]];
      }
      assert evs[..|evs|] == evs;
    }
  }

  /** What a call added to the claims: nothing of its own, or one claim of `num` at its end. */
  predicate OwnClaims(before: seq<Grant>, after: seq<Grant>, me: nat, num: Option<nat>) {
    && before <= after
    && (num.None? ==> forall i :: |before| <= i < |after| ==> after[i].caller != me)
    && (num.Some? ==> |before| < |after| && after[|after| - 1].caller == me && after[|after| - 1].num == num.value)
    && (num.Some? ==> forall i :: |before| <= i < |after| - 1 ==> after[i].caller != me)
  }

  /** The body of the loop for one number. */
  method TryNumber(c: Cluster, me: nat, num: nat, turn: Turn) returns (r: Claim, ghost t: Trace)
    requires c.Valid() && me in c.s.callers && c.s.callers[me].pc.Idle? && Foreign(turn, me)
    modifies c
    ensures c.Valid() && old(c.log) <= c.log
    ensures me in c.s.callers && c.s.callers[me] == old(c.s.callers[me])
    ensures OwnClaims(old(c.s.grants), c.s.grants, me, if r == Claimed then Some(num) else None)
    ensures |old(c.log)| < |c.log| && Told(c.log, t, |old(c.log)|, turn, num, old(c.s.callers[me].expires), r)
    ensures r == Claimed ==> c.s.grants[|c.s.grants| - 1].until == Trunc(old(c.s.callers[me].expires))
  {
    var failed, look, check := Read(c, me, num, turn);
    t := Trace(look, check, check);
    if failed {
      return Failed, t;
    }
    if c.s.callers[me].pc.Idle? {
      return NotClaimed, t;
    }
    ghost var judged, write := c.log, 0;
    r, write := WriteClaim(c, me, turn.write);
    SamePast(judged, c.log, look);
    SamePast(judged, c.log, check);
    t := t.(write := write);
  }

  /** Where a caller stands after it has read `found` and compared it with the clock. */
  function AfterRead(num: nat, found: map<nat, Time>, now: Time): Pc {
    if num !in found then Inserting(num) else if found[num] < now then Swapping(num, found[num]) else Idle
  }

  /** The reading half of a turn: FindOne, and the clock. */
  method Read(c: Cluster, me: nat, num: nat, turn: Turn) returns (failed: bool, ghost look: nat, ghost check: nat)
    requires c.Valid() && me in c.s.callers && c.s.callers[me].pc.Idle? && Foreign(turn, me)
    modifies c
    ensures c.Valid() && old(c.log) < c.log && me in c.s.callers && (failed <==> turn.read.fails)
    ensures look == |old(c.log)| + 1 + |turn.read.others|
    ensures OwnClaims(old(c.s.grants), c.s.grants, me, None)
    ensures failed ==> c.s.callers[me] == old(c.s.callers[me])
    ensures !failed ==> check == look + 1 + |turn.check.others| == |c.log| - 1
    ensures !failed ==>
              c.s.callers[me] ==
              old(c.s.callers[me]).(pc := AfterRead(num, At(c.log, look).store, At(c.log, check).now))
  {
    failed, look := Look(c, me, num, turn.read, turn.check);
    check := |c.log|;
    if !failed {
      ghost var looked := c.log;
      NowAt(looked);
      c.Mine(me, CheckExpiry(me));
      SamePast(looked, c.log, look);
      SamePast(looked, c.log, check);
    }
  }

  /** FindOne at the moment `look`. */
  method Look(c: Cluster, me: nat, num: nat, before: Gap<Event>, after: Gap<Event>)
    returns (failed: bool, ghost look: nat)
    requires c.Valid() && me in c.s.callers && c.s.callers[me].pc.Idle?
    requires ByOthers(before.others, me) && ByOthers(after.others, me)
    modifies c
    ensures c.Valid() && old(c.log) <= c.log && me in c.s.callers && (failed <==> before.fails)
    ensures look == |old(c.log)| + 1 + |before.others| < |c.log|
    ensures !failed ==> |c.log| == look + 1 + |after.others|
    ensures OwnClaims(old(c.s.grants), c.s.grants, me, None)
    ensures failed ==> c.s.callers[me] == old(c.s.callers[me])
    ensures !failed ==>
              var found := At(c.log, look).store;
              c.s.callers[me] ==
              old(c.s.callers[me]).(pc := if num in found then Found(num, found[num]) else Inserting(num))
  {
    c.Mine(me, Try(me, num));
    c.Others(before.others, me);
    look := |c.log|;
    if before.fails {
      c.Mine(me, Fail(me));
      return true, look;
    }
    ghost var asked := c.log;
    NowAt(asked);
    c.Mine(me, FindOne(me));
    c.Others(after.others, me);
    SamePast(asked, c.log, look);
    failed := false;
  }

  /** The insert or swap, executed at the moment `write`. */
  method WriteClaim(c: Cluster, me: nat, gap: Gap<Event>) returns (r: Claim, ghost write: nat)
    requires c.Valid() && me in c.s.callers && ByOthers(gap.others, me)
    requires c.s.callers[me].pc.Inserting? || c.s.callers[me].pc.Swapping?
    modifies c
    ensures c.Valid() && old(c.log) <= c.log && write == |old(c.log)| + |gap.others| < |c.log|
    ensures me in c.s.callers && c.s.callers[me] == old(c.s.callers[me]).(pc := Idle)
    ensures r == Failed <==> gap.fails
    ensures OwnClaims(old(c.s.grants), c.s.grants, me, if r == Claimed then Some(old(c.s.callers[me].pc.num)) else None)
    ensures r == Claimed ==> c.s.grants[|c.s.grants| - 1].until == Trunc(old(c.s.callers[me].expires))
    ensures r != Failed ==> (r == Claimed <==> Takes(At(c.log, write), old(c.s.callers[me])))
  {
    c.Others(gap.others, me);
    write := |c.log|;
    if gap.fails {
      c.Mine(me, Fail(me));
      return Failed, write;
    }
    r := if Takes(c.s, c.s.callers[me]) then Claimed else NotClaimed;
    ghost var asked := c.log;
    NowAt(asked);
    c.Mine(me, Execute(me));
    SamePast(asked, c.log, write);
  }

  datatype Answer = Number(num: nat) | InvalidMax | ContextError | CallFailed | NoAvailableNumber

  /** One turn of a call: its answer, its moments, and the log before and after it. */
  datatype Attempt = Attempt(claim: Claim, t: Trace, before: seq<Event>, after: seq<Event>)

  function Nth(tries: seq<Attempt>, k: nat): Attempt
    requires k < |tries|
  {
    tries[k]
  }

  function EndOf(log: seq<Event>, tries: seq<Attempt>, k: nat): seq<Event>
    requires k <= |tries|
  {
    if k == 0 then log else tries[k - 1].after
  }

  /** The turns of a call, over the permutation in order, each beginning where the one before it ended. */
  ghost predicate Tries(log: seq<Event>, tries: seq<Attempt>, perm: seq<nat>, turns: seq<Turn>, expires: Time) {
    && |tries| <= |perm| == |turns|
    && forall k {:trigger Nth(tries, k)} :: 0 <= k < |tries| ==>
         && Nth(tries, k).before == EndOf(log, tries, k) && Nth(tries, k).before < Nth(tries, k).after
         && Told(Nth(tries, k).after, Nth(tries, k).t, |Nth(tries, k).before|, turns[k], perm[k], expires,
                 Nth(tries, k).claim)
  }

  /** All turns but the last came to nothing, in a context that was not cancelled. */
  predicate Walked(tries: seq<Attempt>, turns: seq<Turn>) {
    && |tries| <= |turns|
    && (forall i :: 0 <= i < |tries| ==> !turns[i].canceled)
    && (forall i :: 0 <= i < |tries| - 1 ==> tries[i].claim == NotClaimed)
  }

  /** How the call ends: by its last turn, by a cancelled context before the next one, or at the end of the range. */
  predicate Concludes(r: Answer, tries: seq<Attempt>, perm: seq<nat>, turns: seq<Turn>) {
    && Walked(tries, turns)
    && var refused := tries == [] || tries[|tries| - 1].claim == NotClaimed;
       match r
       case Number(num) => 0 < |tries| <= |perm| && tries[|tries| - 1].claim == Claimed && num == perm[|tries| - 1]
       case CallFailed => 0 < |tries| && tries[|tries| - 1].claim == Failed
       case ContextError => refused && |tries| < |turns| && turns[|tries|].canceled
       case NoAvailableNumber => refused && |tries| == |perm|
       case InvalidMax => false
  }

  lemma OneMore(log: seq<Event>, tries: seq<Attempt>, y: Attempt, perm: seq<nat>, turns: seq<Turn>, expires: Time)
    requires Tries(log, tries, perm, turns, expires) && |tries| < |perm| && y.before == EndOf(log, tries, |tries|)
    requires y.before < y.after
    requires Told(y.after, y.t, |y.before|, turns[|tries|], perm[|tries|], expires, y.claim)
    ensures Tries(log, tries + [y], perm, turns, expires)
  {
    var all := tries + [y];
    forall k | 0 <= k < |all|
      ensures Nth(all, k).before == EndOf(log, all, k) && Nth(all, k).before < Nth(all, k).after
      ensures Told(Nth(all, k).after, Nth(all, k).t, |Nth(all, k).before|, turns[k], perm[k], expires,
                   Nth(all, k).claim)
    {
      if k < |tries| {
        assert Nth(all, k) == Nth(tries, k) && EndOf(log, all, k) == EndOf(log, tries, k);
      }
    }
  }

  /** The next turn, recorded. */
  method NextTurn(c: Cluster, me: nat, num: nat, turn: Turn, ghost log: seq<Event>, ghost tries: seq<Attempt>,
                  ghost perm: seq<nat>, ghost turns: seq<Turn>)
    returns (r: Claim, ghost more: seq<Attempt>)
    requires c.Valid() && me in c.s.callers && c.s.callers[me].pc.Idle? && Foreign(turn, me)
    requires Tries(log, tries, perm, turns, c.s.callers[me].expires) && c.log == EndOf(log, tries, |tries|)
    requires |tries| < |perm| && num == perm[|tries|] && turn == turns[|tries|] && !turn.canceled
    requires Walked(tries, turns) && (tries == [] || tries[|tries| - 1].claim == NotClaimed)
    modifies c
    ensures c.Valid() && old(c.log) < c.log
    ensures me in c.s.callers && c.s.callers[me] == old(c.s.callers[me])
    ensures OwnClaims(old(c.s.grants), c.s.grants, me, if r == Claimed then Some(num) else None)
    ensures r == Claimed ==> c.s.grants[|c.s.grants| - 1].until == Trunc(old(c.s.callers[me].expires))
    ensures Tries(log, more, perm, turns, old(c.s.callers[me].expires)) && Walked(more, turns)
    ensures |more| == |tries| + 1 && more[|tries|].claim == r && more[|tries|].after == c.log
  {
    ghost var t;
    r, t := TryNumber(c, me, num, turn);
    ghost var y := Attempt(r, t, old(c.log), c.log);
    OneMore(log, tries, y, perm, turns, old(c.s.callers[me].expires));
    more := tries + [y];
  }

  /** The loop over the permutation. */
  method Walk(c: Cluster, me: nat, perm: seq<nat>, turns: seq<Turn>) returns (r: Answer, ghost tries: seq<Attempt>)
    requires c.Valid() && me in c.s.callers && c.s.callers[me].pc.Idle?
    requires |turns| == |perm| && forall i :: 0 <= i < |turns| ==> Foreign(turns[i], me)
    modifies c
    ensures c.Valid() && old(c.log) <= c.log && c.log == EndOf(old(c.log), tries, |tries|)
    ensures OwnClaims(old(c.s.grants), c.s.grants, me, if r.Number? then Some(r.num) else None)
    ensures r.Number? ==> c.s.grants[|c.s.grants| - 1].until == Trunc(old(c.s.callers[me].expires))
    ensures Tries(old(c.log), tries, perm, turns, old(c.s.callers[me].expires)) && Concludes(r, tries, perm, turns)
  {
    tries := [];
    for i := 0 to |perm|
      invariant c.Valid() && old(c.log) <= c.log
      invariant me in c.s.callers && c.s.callers[me] == old(c.s.callers[me])
      invariant OwnClaims(old(c.s.grants), c.s.grants, me, None)
      invariant |tries| == i && Tries(old(c.log), tries, perm, turns, old(c.s.callers[me].expires))
      invariant c.log == EndOf(old(c.log), tries, i)
      invariant Walked(tries, turns) && (tries == [] || tries[i - 1].claim == NotClaimed)
    {
      if turns[i].canceled {
        return ContextError, tries;
      }
      var claim;
      claim, tries := NextTurn(c, me, perm[i], turns[i], old(c.log), tries, perm, turns);
      if claim == Failed { return CallFailed, tries; }
      if claim == Claimed { return Number(perm[i]), tries; }
    }
    r := NoAvailableNumber;
  }

  lemma {:induction false} PartOfCall(log: seq<Event>, tries: seq<Attempt>, perm: seq<nat>, turns: seq<Turn>,
                                      expires: Time, k: nat, m: nat)
    requires Tries(log, tries, perm, turns, expires) && k < m <= |tries|
    ensures Nth(tries, k).after <= EndOf(log, tries, m) && log <= Nth(tries, k).before
    decreases m
  {
    assert Nth(tries, k).before == EndOf(log, tries, k);
    if k + 1 < m {
      PartOfCall(log, tries, perm, turns, expires, k, m - 1);
      assert Nth(tries, m - 1).before == EndOf(log, tries, m - 1);
    } else if k > 0 {
      PartOfCall(log, tries, perm, turns, expires, k - 1, k);
      assert Nth(tries, k - 1).before < Nth(tries, k - 1).after;
    }
  }

  /** A range that was walked without success was tried and not won, number by number, during the call. */
  lemma ExhaustedMeans(log: seq<Event>, tries: seq<Attempt>, perm: seq<nat>, turns: seq<Turn>, expires: Time, max: nat,
                       from: nat)
    requires Tries(log, tries, perm, turns, expires) && Concludes(NoAvailableNumber, tries, perm, turns)
    requires IsPermutation(perm, max) && from <= |log|
    ensures AllRefused(EndOf(log, tries, |tries|), from, max, expires)
  {
    var end := EndOf(log, tries, |tries|);
    forall n: nat | n < max ensures Refused(end, from, n, expires) {
      assert n in perm;
      var k :| 0 <= k < |perm| && perm[k] == n;
      var y := Nth(tries, k);
      PartOfCall(log, tries, perm, turns, expires, k, |tries|);
      assert y.claim == NotClaimed && InCall(y.t, from, |y.after|) && !Wins(y.after, y.t, n, expires);
      RefusedLater(y.after, end, from, n, expires);
    }
  }

  /** The call begins, and with it the lease of whatever it will claim. */
  method Begin(c: Cluster, me: nat)
    requires c.Valid() && (me in c.s.callers ==> c.s.callers[me].pc.Idle?)
    modifies c
    ensures c.Valid() && c.log == old(c.log) + [Start(me)] && c.s.grants == old(c.s.grants)
    ensures me in c.s.callers && c.s.callers[me] == Caller(Leased(old(c.s.now)), Idle)
  {
    c.Step(Start(me));
  }

  /** GetUniqueRandomNumber. */
  method GetUniqueRandomNumber(c: Cluster, me: nat, max: int, perm: seq<nat>, turns: seq<Turn>)
    returns (r: Answer, ghost tries: seq<Attempt>)
    requires c.Valid() && (me in c.s.callers ==> c.s.callers[me].pc.Idle?)
    requires max > 0 ==> IsPermutation(perm, max)
    requires |turns| == |perm| && forall i :: 0 <= i < |turns| ==> Foreign(turns[i], me)
    modifies c
    ensures c.Valid() && old(c.log) <= c.log
    ensures r == InvalidMax <==> max <= 0
    ensures r == InvalidMax ==> c.s == old(c.s)
    // the number is in range and was claimed by this call, which claimed nothing else, for the call's lease
    ensures r.Number? ==> 0 <= r.num < max
    ensures OwnClaims(old(c.s.grants), c.s.grants, me, if r.Number? then Some(r.num) else None)
    ensures r.Number? ==> c.s.grants[|c.s.grants| - 1].until == Trunc(Leased(old(c.s.now)))
    // it walks the permutation turn by turn until one claims or fails, the context ends, or the range is exhausted
    ensures max > 0 ==>
              && Tries(old(c.log) + [Start(me)], tries, perm, turns, Leased(old(c.s.now)))
              && Concludes(r, tries, perm, turns)
    // the range is called exhausted only if every number of it was tried during the call and not won
    ensures r == NoAvailableNumber ==> AllRefused(c.log, |old(c.log)|, max, Leased(old(c.s.now)))
  {
    if max <= 0 {
      return InvalidMax, [];
    }
    Begin(c, me);
    ghost var log0 := c.log;
    r, tries := Walk(c, me, perm, turns);
    if r == NoAvailableNumber {
      ExhaustedMeans(log0, tries, perm, turns, Leased(old(c.s.now)), max, |old(c.log)|);
    }
  }
}
