/**
 Number allocation on Redis: every claim is one SETNX with a one-minute lease. The call is
 a loop over a permutation; other callers and the clock move between its turns.
 */
module RedisNumbers {
  import opened Common

  datatype Grant = Grant(num: nat, at: Time, until: Time, caller: nat)

  /** `store` maps a number to the end of its entry's life. */
  datatype Sys = Sys(now: Time, store: map<nat, Time>, grants: seq<Grant>)

  const INIT := Sys(0, map[], [])

  const LEASE: Time := 60_000_000_000

  datatype Event = Tick(d: Time) | SetNX(c: nat, num: nat)

  predicate Live(s: Sys, num: nat) {
    num in s.store && s.now <= s.store[num]
  }

  function Next(s: Sys, e: Event): Sys {
    match e
    case Tick(d) => s.(now := s.now + d)
    case SetNX(c, num) =>
      if Live(s, num) then s
      else s.(store := s.store[num := s.now + LEASE], grants := s.grants + [Grant(num, s.now, s.now + LEASE, c)])
  }

  function Run(s: Sys, evs: seq<Event>): Sys
    decreases |evs|
  {
    if evs == [] then s else Next(Run(s, evs[..|evs| - 1]), evs[|evs| - 1])
  }

  predicate Separated(grants: seq<Grant>) {
    forall i, j :: 0 <= i < j < |grants| && grants[i].num == grants[j].num ==> grants[i].until < grants[j].at
  }

  predicate Inv(s: Sys) {
    && (forall i :: 0 <= i < |s.grants| && s.now <= s.grants[i].until ==>
          Live(s, s.grants[i].num) && s.store[s.grants[i].num] == s.grants[i].until)
    && Separated(s.grants)
  }

  lemma {:induction false} InvRun(evs: seq<Event>)
    ensures Inv(Run(INIT, evs))
    decreases |evs|
  {
    if evs != [] {
      InvRun(evs[..|evs| - 1]);
    }
  }

  /** Two claims of one number are separated by the first one's whole lease. */
  lemma ClaimsSeparated(evs: seq<Event>, i: nat, j: nat)
    requires i < j < |Run(INIT, evs).grants|
    requires Run(INIT, evs).grants[i].num == Run(INIT, evs).grants[j].num
    ensures Run(INIT, evs).grants[i].until < Run(INIT, evs).grants[j].at
  {
    InvRun(evs);
  }

  // ---------------------------------------------------------------- the call

  /** What happens before one turn of the loop, and how the turn's command or context fares. */
  datatype Turn = Turn(others: seq<Event>, canceled: bool, fails: bool)

  predicate ByOthers(evs: seq<Event>, me: nat) {
    forall i :: 0 <= i < |evs| && evs[i].SetNX? ==> evs[i].c != me
  }

  /** The number was claimed and unexpired at some moment after the first `from` events. */
  predicate Taken(log: seq<Event>, from: nat, num: nat) {
    exists k :: from <= k <= |log| && Live(Run(INIT, log[..k]), num)
  }

  lemma TakenLater(log: seq<Event>, longer: seq<Event>, from: nat, num: nat)
    requires Taken(log, from, num) && log <= longer
    ensures Taken(longer, from, num)
  {
    var k :| from <= k <= |log| && Live(Run(INIT, log[..k]), num);
    assert longer[..k] == log[..k];
  }

  class Cluster {
    var s: Sys
    ghost var log: seq<Event>

    ghost predicate Valid()
      reads this
    {
      s == Run(INIT, log)
    }

    constructor ()
      ensures Valid() && s == INIT && log == []
    {
      s := INIT;
      log := [];
    }

    method Step(e: Event)
      requires Valid()
      modifies this
      ensures Valid() && s == Next(old(s), e) && log == old(log) + [e]
    {
      s := Next(s, e);
      log := log + [e];
      assert log[..|log| - 1] == old(log);
    }

    method Others(evs: seq<Event>, ghost me: nat)
      requires Valid() && ByOthers(evs, me)
      modifies this
      ensures Valid() && log == old(log) + evs && old(s.grants) <= s.grants
      ensures forall i :: |old(s.grants)| <= i < |s.grants| ==> s.grants[i].caller != me
    {
      for i := 0 to |evs|
        invariant Valid() && log == old(log) + evs[..i] && old(s.grants) <= s.grants
        invariant forall i :: |old(s.grants)| <= i < |s.grants| ==> s.grants[i].caller != me
      {
        Step(evs[i]);
        assert evs[..i + 1] == evs[..i] + [evs[i]];
      }
      assert evs[..|evs|] == evs;
    }
  }

  datatype Answer = Number(num: nat) | InvalidMax | ContextError | CallFailed | NoAvailableNumber

  function At(log: seq<Event>, k: nat): Sys
    requires k <= |log|
  {
    Run(INIT, log[..k])
  }

  /** `moments[i]` is when the SETNX of turn i is executed: right behind its gap and the turn before it. */
  predicate Timed(moments: seq<nat>, from: nat, turns: seq<Turn>) {
    && |moments| <= |turns|
    && forall i {:trigger Moment(moments, i)} :: 0 <= i < |moments| ==>
         Moment(moments, i) == NextFrom(moments, from, i) + |turns[i].others|
  }

  function Moment(moments: seq<nat>, i: nat): nat
    requires i < |moments|
  {
    moments[i]
  }

  /** Where the log stood before turn i. */
  function NextFrom(moments: seq<nat>, from: nat, i: nat): nat
    requires i <= |moments|
  {
    if i == 0 then from else moments[i - 1] + 1
  }

  /** The turn was made and refused: the number was live. */
  predicate Missed(log: seq<Event>, moment: nat, turn: Turn, num: nat) {
    !turn.canceled && !turn.fails && moment < |log| && Live(At(log, moment), num)
  }

  /** How the call ends, after turns that all missed. */
  predicate Concludes(r: Answer, log: seq<Event>, moments: seq<nat>, perm: seq<nat>, turns: seq<Turn>) {
    var k := |moments|;
    && k <= |perm| == |turns|
    && match r
       case NoAvailableNumber => k == |perm| && AllMissed(log, moments, perm, turns, k)
       case ContextError => k < |perm| && AllMissed(log, moments, perm, turns, k) && turns[k].canceled
       case CallFailed => k < |perm| && AllMissed(log, moments, perm, turns, k) && !turns[k].canceled && turns[k].fails
       case Number(num) =>
         && k > 0 && AllMissed(log, moments, perm, turns, k - 1) && num == perm[k - 1]
         && !turns[k - 1].canceled && !turns[k - 1].fails
         && moments[k - 1] < |log| && !Live(At(log, moments[k - 1]), num)
       case InvalidMax => false
  }

  predicate AllMissed(log: seq<Event>, moments: seq<nat>, perm: seq<nat>, turns: seq<Turn>, k: nat)
    requires k <= |moments| && k <= |perm| == |turns|
  {
    forall i {:trigger Moment(moments, i)} :: 0 <= i < k ==> Missed(log, Moment(moments, i), turns[i], perm[i])
  }

  lemma AllMissedLater(log: seq<Event>, longer: seq<Event>, moments: seq<nat>, perm: seq<nat>, turns: seq<Turn>, k: nat)
    requires k <= |moments| && k <= |perm| == |turns| && AllMissed(log, moments, perm, turns, k) && log <= longer
    ensures AllMissed(longer, moments, perm, turns, k)
  {
    forall i | 0 <= i < k ensures Missed(longer, Moment(moments, i), turns[i], perm[i]) {
      MissedLater(log, longer, Moment(moments, i), turns[i], perm[i]);
    }
  }

  lemma MissedLater(log: seq<Event>, longer: seq<Event>, moment: nat, turn: Turn, num: nat)
    requires Missed(log, moment, turn, num) && log <= longer
    ensures Missed(longer, moment, turn, num)
  {
    assert longer[..moment] == log[..moment];
  }

  datatype Claim = Won | Lost | Stopped

  /** The body of the loop for one number. */
  method TryNumber(c: Cluster, me: nat, num: nat, turn: Turn) returns (r: Claim)
    requires c.Valid() && ByOthers(turn.others, me)
    modifies c
    ensures c.Valid() && old(c.log) <= c.log && old(c.s.grants) <= c.s.grants
    ensures r == Stopped <==> turn.canceled || turn.fails
    ensures r == Stopped ==> |c.log| == |old(c.log)| + |turn.others|
    ensures r != Stopped ==>
              && |c.log| == |old(c.log)| + |turn.others| + 1
              && (r == Won <==> !Live(At(c.log, |c.log| - 1), num))
    ensures r == Won ==>
              && |old(c.s.grants)| < |c.s.grants|
              && c.s.grants[|c.s.grants| - 1] == Grant(num, c.s.now, c.s.now + LEASE, me)
    ensures forall i :: |old(c.s.grants)| <= i < |c.s.grants| - (if r == Won then 1 else 0) ==>
      c.s.grants[i].caller != me
  {
    c.Others(turn.others, me);
    if turn.canceled || turn.fails { return Stopped; }
    ghost var asked := c.log;
    r := if Live(c.s, num) then Lost else Won;
    c.Step(SetNX(me, num));
    assert c.log[..|asked|] == asked;
  }

  /** The loop over the permutation. */
  method Walk(c: Cluster, me: nat, perm: seq<nat>, turns: seq<Turn>) returns (r: Answer, ghost moments: seq<nat>)
    requires c.Valid() && |turns| == |perm| && forall i :: 0 <= i < |turns| ==> ByOthers(turns[i].others, me)
    modifies c
    ensures c.Valid() && old(c.log) <= c.log && old(c.s.grants) <= c.s.grants
    ensures r.Number? ==> |old(c.s.grants)| < |c.s.grants|
    ensures r.Number? ==> c.s.grants[|c.s.grants| - 1] == Grant(r.num, c.s.now, c.s.now + LEASE, me)
    ensures forall i :: |old(c.s.grants)| <= i < |c.s.grants| - (if r.Number? then 1 else 0) ==>
              c.s.grants[i].caller != me
    ensures Timed(moments, |old(c.log)|, turns) && Concludes(r, c.log, moments, perm, turns)
  {
    moments := [];
    for i := 0 to |perm|
      invariant c.Valid() && old(c.log) <= c.log && old(c.s.grants) <= c.s.grants
      invariant forall i :: |old(c.s.grants)| <= i < |c.s.grants| ==> c.s.grants[i].caller != me
      invariant |moments| == i && Timed(moments, |old(c.log)|, turns)
      invariant |c.log| == NextFrom(moments, |old(c.log)|, i)
      invariant AllMissed(c.log, moments, perm, turns, i)
    {
      ghost var before := c.log;
      var claim := TryNumber(c, me, perm[i], turns[i]);
      AllMissedLater(before, c.log, moments, perm, turns, i);
      if claim == Stopped {
        return if turns[i].canceled then ContextError else CallFailed, moments;
      }
      OneMoment(c.log, moments, |c.log| - 1, |old(c.log)|, perm, turns);
      moments := moments + [|c.log| - 1];
      if claim == Won { return Number(perm[i]), moments; }
    }
    r := NoAvailableNumber;
  }

  lemma OneMoment(log: seq<Event>, moments: seq<nat>, m: nat, from: nat, perm: seq<nat>, turns: seq<Turn>)
    requires |moments| < |perm| == |turns| && Timed(moments, from, turns)
    requires m == NextFrom(moments, from, |moments|) + |turns[|moments|].others|
    requires AllMissed(log, moments, perm, turns, |moments|)
    ensures Timed(moments + [m], from, turns) && AllMissed(log, moments + [m], perm, turns, |moments|)
  {
    var all := moments + [m];
    forall i | 0 <= i < |moments| ensures Missed(log, Moment(all, i), turns[i], perm[i]) {
      assert Moment(all, i) == Moment(moments, i);
    }
    forall i | 0 <= i < |all| ensures Moment(all, i) == NextFrom(all, from, i) + |turns[i].others| {
      if i < |moments| {
        assert Moment(all, i) == Moment(moments, i) && NextFrom(all, from, i) == NextFrom(moments, from, i);
      }
    }
  }

  lemma {:induction false} MomentsAfter(moments: seq<nat>, from: nat, turns: seq<Turn>, i: nat)
    requires Timed(moments, from, turns) && i < |moments|
    ensures from <= Moment(moments, i)
  {
    if i > 0 {
      MomentsAfter(moments, from, turns, i - 1);
    }
  }

  /** A range that was walked without success was taken, number by number, during the call. */
  lemma ExhaustedMeans(log: seq<Event>, moments: seq<nat>, from: nat, perm: seq<nat>, turns: seq<Turn>, max: nat)
    requires Timed(moments, from, turns) && Concludes(NoAvailableNumber, log, moments, perm, turns)
    requires IsPermutation(perm, max)
    ensures forall n: nat :: n < max ==> Taken(log, from, n)
  {
    forall n: nat | n < max ensures Taken(log, from, n) {
      assert n in perm;
      var k :| 0 <= k < |perm| && perm[k] == n;
      MomentsAfter(moments, from, turns, k);
      assert Missed(log, Moment(moments, k), turns[k], perm[k]);
    }
  }

  /** GetUniqueRandomNumber. */
  method GetUniqueRandomNumber(c: Cluster, me: nat, max: int, perm: seq<nat>, turns: seq<Turn>)
    returns (r: Answer, ghost moments: seq<nat>)
    requires c.Valid()
    requires max > 0 ==> IsPermutation(perm, max)
    requires |turns| == |perm| && forall i :: 0 <= i < |turns| ==> ByOthers(turns[i].others, me)
    modifies c
    ensures c.Valid() && old(c.log) <= c.log && old(c.s.grants) <= c.s.grants
    ensures r == InvalidMax <==> max <= 0
    ensures r == InvalidMax ==> c.s == old(c.s)
    // the number is in range and freshly claimed by this call
    ensures r.Number? ==> 0 <= r.num < max && |old(c.s.grants)| < |c.s.grants|
    ensures r.Number? ==> c.s.grants[|c.s.grants| - 1] == Grant(r.num, c.s.now, c.s.now + LEASE, me)
    // and the call claimed nothing else
    ensures forall i :: |old(c.s.grants)| <= i < |c.s.grants| - (if r.Number? then 1 else 0) ==>
              c.s.grants[i].caller != me
    // it walks the permutation until a number is not live, a command fails, the context ends, or the range is exhausted
    ensures max > 0 ==> Timed(moments, |old(c.log)|, turns) && Concludes(r, c.log, moments, perm, turns)
    // the range is called exhausted only if every number of it was taken at some moment of the call
    ensures r == NoAvailableNumber ==> forall n: nat :: n < max ==> Taken(c.log, |old(c.log)|, n)
  {
    if max <= 0 {
      return InvalidMax, [];
    }
    r, moments := Walk(c, me, perm, turns);
    if r == NoAvailableNumber {
      ExhaustedMeans(c.log, moments, |old(c.log)|, perm, turns, max);
    }
  }
}
