/**
 `runElectionOnce` and `Close` of the Redis election as written, with arbitrary steps of
 everybody else between commands.
 */
module RedisElectionCode {
  import opened Common
  import opened RedisElection
  import opened LeaderEvents

  predicate ByOthers(evs: seq<Event>, me: nat) {
    forall i :: 0 <= i < |evs| ==> Actor(evs[i]) != Some(me)
  }

  class Cluster {
    var s: Sys
    ghost var log: seq<Event>

    ghost predicate Valid()
      reads this
    {
      s == Run(INIT, log)
    }

    constructor ()
      ensures Valid() && s == INIT && log == []
    {
      s := INIT;
      log := [];
    }

    method Mine(n: nat, e: Event)
      requires Valid() && n in s.nodes && Actor(e) == Some(n) && !e.Join?
      modifies this
      ensures Valid() && s == NodeStep(old(s), n, old(s).nodes[n], e) && log == old(log) + [e]
    {
      s := Next(s, e);
      log := log + [e];
      assert log[..|log| - 1] == old(log);
    }

    method Others(evs: seq<Event>, ghost me: nat)
      requires Valid() && me in s.nodes && ByOthers(evs, me)
      modifies this
      ensures Valid() && log == old(log) + evs
      ensures me in s.nodes && s.nodes[me] == old(s.nodes[me])
    {
      for i := 0 to |evs|
        invariant Valid() && log == old(log) + evs[..i]
        invariant me in s.nodes && s.nodes[me] == old(s.nodes[me])
      {
        OthersUntouched(s, evs[i]);
        s := Next(s, evs[i]);
        ghost var before := log;
        log := log + [evs[i]];
        assert log[..|log| - 1] == before;
        assert evs[..i + 1] == evs[..i] + [evs[i]];
      }
      assert evs[..|evs|] == evs;
    }
  }

  /** At some moment after the first `from` events the domain's live entry was `key`'s. */
  predicate Led(log: seq<Event>, from: nat, iso: string, key: string) {
    exists k :: from <= k <= |log| && Leading(Run(INIT, log[..k]), iso, key)
  }

  predicate Leading(s: Sys, iso: string, key: string) {
    Live(s, iso) && s.store[iso].node == key
  }

  lemma LedAt(log: seq<Event>, k: nat, from: nat, longer: seq<Event>, iso: string, key: string)
    requires from <= k <= |log| && log <= longer && Leading(Run(INIT, log[..k]), iso, key)
    ensures Led(longer, from, iso, key)
  {
    assert longer[..k] == log[..k];
  }

  function At(log: seq<Event>, k: nat): Sys
    requires k <= |log|
  {
    Run(INIT, log[..k])
  }

  lemma SamePast(log: seq<Event>, longer: seq<Event>, k: nat)
    requires log <= longer && k <= |log|
    ensures At(longer, k) == At(log, k)
  {
    assert longer[..k] == log[..k];
  }

  lemma NowAt(log: seq<Event>)
    ensures At(log, |log|) == Run(INIT, log)
  {
    assert log[..|log|] == log;
  }

  /**
   A renewal keeps the flag exactly if the live entry it meets is the node's own, and then extends
   it, or deletes it where the lease is below a millisecond.
   */
  predicate Renewed(met: Sys, left: Sys, was: Node, fails: bool, flag: bool) {
    && (flag <==> !fails && Leading(met, was.iso, was.key))
    && left.store == if !flag then met.store
                     else if was.unhealthy < MS then met.store - {was.iso}
                     else met.store[was.iso := Leader(was.key, met.now + Trunc(was.unhealthy))]
  }

  /** When SETNX is executed, in a round that begins behind `from` events. */
  function SetAt(from: nat, gaps: seq<Gap<Event>>): nat
    requires |gaps| == 2
  {
    from + 1 + |gaps[0].others|
  }

  /** When GET is executed. */
  function GetAt(from: nat, gaps: seq<Gap<Event>>): nat
    requires |gaps| == 2
  {
    SetAt(from, gaps) + 1 + |gaps[1].others|
  }

  /** What a campaign comes to: a dead entry is taken for the lease, a live one sets the flag exactly if it is its. */
  predicate Campaigned(log: seq<Event>, from: nat, gaps: seq<Gap<Event>>, was: Node, left: Sys, flag: bool)
    requires |gaps| == 2
  {
    if gaps[0].fails then !flag
    else
      && SetAt(from, gaps) < |log|
      && var met := At(log, SetAt(from, gaps));
         if !Live(met, was.iso) then
           && flag && left.now == met.now
           && left.store == met.store[was.iso := Leader(was.key, met.now + StoredTTL(was.unhealthy))]
         else if gaps[1].fails then !flag
         else GetAt(from, gaps) < |log| && (flag <==> Leading(At(log, GetAt(from, gaps)), was.iso, was.key))
  }

  /** The command in flight fails or is executed, after everybody else moved; `asked` is the log up to it. */
  method Send(c: Cluster, n: nat, gap: Gap<Event>) returns (ghost asked: seq<Event>)
    requires c.Valid() && n in c.s.nodes && c.s.nodes[n].pc.Sending? && ByOthers(gap.others, n)
    modifies c
    ensures c.Valid() && asked == old(c.log) + gap.others && asked <= c.log && |c.log| == |asked| + 1
    ensures At(c.log, |asked|) == Run(INIT, asked)
    ensures n in Run(INIT, asked).nodes && Run(INIT, asked).nodes[n] == old(c.s.nodes[n])
    ensures c.s == NodeStep(Run(INIT, asked), n, old(c.s.nodes[n]), if gap.fails then Fail(n) else Execute(n))
  {
    c.Others(gap.others, n);
    asked := c.log;
    NowAt(asked);
    if gap.fails {
      c.Mine(n, Fail(n));
    } else {
      c.Mine(n, Execute(n));
    }
    SamePast(asked, c.log, |asked|);
  }

  /** SETNX, executed right behind its gap. */
  method SetFirst(c: Cluster, n: nat, gap: Gap<Event>)
    requires c.Valid() && n in c.s.nodes && c.s.nodes[n].pc.Idle? && !c.s.nodes[n].flag && ByOthers(gap.others, n)
    modifies c
    ensures c.Valid() && old(c.log) <= c.log && |c.log| == |old(c.log)| + 2 + |gap.others| && n in c.s.nodes
    ensures c.s.nodes[n].key == old(c.s.nodes[n].key) && c.s.nodes[n].iso == old(c.s.nodes[n].iso)
    ensures var met, was := At(c.log, |c.log| - 1), old(c.s.nodes[n]);
            && (c.s.nodes[n].flag <==> !gap.fails && !Live(met, was.iso))
            && c.s.nodes[n].pc == (if gap.fails || c.s.nodes[n].flag then Idle else Sending(Get))
            && c.s.now == met.now
            && (c.s.nodes[n].flag ==>
                  c.s.store == met.store[was.iso := Leader(was.key, met.now + StoredTTL(was.unhealthy))])
  {
    c.Mine(n, Elect(n));
    ghost var asked := Send(c, n, gap);
  }

  /** campaign: SETNX, and where that is refused a look at who holds the entry. */
  method Campaign(c: Cluster, n: nat, gaps: seq<Gap<Event>>)
    requires c.Valid() && n in c.s.nodes && c.s.nodes[n].pc.Idle? && !c.s.nodes[n].flag
    requires |gaps| == 2 && forall i :: 0 <= i < 2 ==> ByOthers(gaps[i].others, n)
    modifies c
    ensures c.Valid() && old(c.log) <= c.log && n in c.s.nodes && c.s.nodes[n].pc.Idle?
    ensures c.s.nodes[n].key == old(c.s.nodes[n].key) && c.s.nodes[n].iso == old(c.s.nodes[n].iso)
    ensures Campaigned(c.log, |old(c.log)|, gaps, old(c.s.nodes[n]), c.s, c.s.nodes[n].flag)
  {
    SetFirst(c, n, gaps[0]);
    if c.s.nodes[n].pc.Sending? {
      ghost var refused := c.log;
      AskLeader(c, n, gaps[1]);
      SamePast(refused, c.log, |refused| - 1);
    }
  }

  /** Where a campaign sets the flag, the live entry was the node's own at some moment of it. */
  lemma CampaignLed(log: seq<Event>, from: nat, gaps: seq<Gap<Event>>, was: Node)
    requires |gaps| == 2 && from <= |log| && Campaigned(log, from, gaps, was, Run(INIT, log), true)
    ensures Led(log, from, was.iso, was.key)
  {
    if Live(At(log, SetAt(from, gaps)), was.iso) {
      LedAt(log, GetAt(from, gaps), from, log, was.iso, was.key);
    } else {
      NowAt(log);
      LedAt(log, |log|, from, log, was.iso, was.key);
    }
  }

  /** continueLeader, with the fall of the flag on any failure. */
  method ContinueLeader(c: Cluster, n: nat, gap: Gap<Event>)
    requires c.Valid() && n in c.s.nodes && c.s.nodes[n].pc.Idle? && c.s.nodes[n].flag && ByOthers(gap.others, n)
    modifies c
    ensures c.Valid() && old(c.log) <= c.log && n in c.s.nodes && c.s.nodes[n].pc.Idle?
    ensures c.s.nodes[n].key == old(c.s.nodes[n].key) && c.s.nodes[n].iso == old(c.s.nodes[n].iso)
    ensures |c.log| == |old(c.log)| + 2 + |gap.others|
    ensures Renewed(At(c.log, |c.log| - 1), c.s, old(c.s.nodes[n]), gap.fails, c.s.nodes[n].flag)
    // in particular while its lease is running
    ensures old(c.s.nodes[n].grant.Some?) && !gap.fails ==>
              At(c.log, |c.log| - 1).now <= old(c.s.nodes[n].grant.value) ==> c.s.nodes[n].flag
    ensures c.s.nodes[n].flag && MS <= c.s.nodes[n].unhealthy ==> Leads(c.s, c.s.nodes[n])
    ensures c.s.nodes[n].flag ==> Led(c.log, |old(c.log)|, c.s.nodes[n].iso, c.s.nodes[n].key)
  {
    c.Mine(n, Elect(n));
    ghost var asked := SendRenewal(c, n, gap);
    RunningLease(asked, n);
    if c.s.nodes[n].flag {
      LedAt(c.log, |asked|, |old(c.log)|, c.log, c.s.nodes[n].iso, c.s.nodes[n].key);
    }
  }

  lemma RenewStep(s: Sys, n: nat, nd: Node, fails: bool)
    requires nd.pc == Sending(Renew) && nd.flag
    ensures var t := NodeStep(s, n, nd, if fails then Fail(n) else Execute(n));
            && n in t.nodes && t.nodes[n].pc.Idle? && SameNode(t.nodes[n], nd)
            && Renewed(s, t, nd, fails, t.nodes[n].flag)
            && (t.nodes[n].flag && MS <= nd.unhealthy ==> Leads(t, t.nodes[n]))
  {
  }

  predicate SameNode(a: Node, b: Node) {
    a.key == b.key && a.iso == b.iso && a.unhealthy == b.unhealthy
  }

  /** The renewal in flight, executed right behind its gap. */
  method SendRenewal(c: Cluster, n: nat, gap: Gap<Event>) returns (ghost asked: seq<Event>)
    requires c.Valid() && n in c.s.nodes && ByOthers(gap.others, n)
    requires c.s.nodes[n].pc == Sending(Renew) && c.s.nodes[n].flag
    modifies c
    ensures c.Valid() && old(c.log) <= asked <= c.log && |c.log| == |old(c.log)| + |gap.others| + 1 == |asked| + 1
    ensures n in Run(INIT, asked).nodes && Run(INIT, asked).nodes[n] == old(c.s.nodes[n])
    ensures At(c.log, |asked|) == Run(INIT, asked)
    ensures n in c.s.nodes && c.s.nodes[n].pc.Idle? && SameNode(c.s.nodes[n], old(c.s.nodes[n]))
    ensures Renewed(Run(INIT, asked), c.s, old(c.s.nodes[n]), gap.fails, c.s.nodes[n].flag)
    ensures c.s.nodes[n].flag && MS <= c.s.nodes[n].unhealthy ==> Leads(c.s, c.s.nodes[n])
  {
    ghost var nd := c.s.nodes[n];
    asked := Send(c, n, gap);
    RenewStep(Run(INIT, asked), n, nd, gap.fails);
  }

  /** GET, executed right behind its gap. */
  method AskLeader(c: Cluster, n: nat, gap: Gap<Event>)
    requires c.Valid() && n in c.s.nodes && c.s.nodes[n].pc == Sending(Get) && ByOthers(gap.others, n)
    requires !c.s.nodes[n].flag
    modifies c
    ensures c.Valid() && old(c.log) <= c.log && |c.log| == |old(c.log)| + |gap.others| + 1
    ensures n in c.s.nodes && c.s.nodes[n].pc.Idle? && SameNode(c.s.nodes[n], old(c.s.nodes[n]))
    ensures c.s.nodes[n].flag <==>
            !gap.fails && Leading(At(c.log, |c.log| - 1), old(c.s.nodes[n].iso), old(c.s.nodes[n].key))
  {
    ghost var asked := Send(c, n, gap);
  }

  /** A lease that is running is the stored entry. */
  lemma RunningLease(log: seq<Event>, n: nat)
    requires n in Run(INIT, log).nodes
    ensures var s := Run(INIT, log); Leads(s, s.nodes[n]) ==> Leading(s, s.nodes[n].iso, s.nodes[n].key)
  {
    InvRun(log);
    assert Backed(Run(INIT, log), Run(INIT, log).nodes[n]);
  }

  /** One round; `gaps` are before SETNX or the renewal, and before GET. */
  method RunElectionOnce(c: Cluster, n: nat, published: seq<bool>, canElect: bool, gaps: seq<Gap<Event>>)
    returns (events: seq<bool>)
    requires c.Valid() && n in c.s.nodes && c.s.nodes[n].pc.Idle? && Alternates(published, c.s.nodes[n].flag)
    requires |gaps| == 2 && forall i :: 0 <= i < 2 ==> ByOthers(gaps[i].others, n)
    modifies c
    ensures c.Valid() && old(c.log) <= c.log && n in c.s.nodes && c.s.nodes[n].pc.Idle?
    ensures c.s.nodes[n].key == old(c.s.nodes[n].key) && c.s.nodes[n].iso == old(c.s.nodes[n].iso)
    ensures Alternates(events, c.s.nodes[n].flag) && published <= events && |events| <= |published| + 1
    // a node that must not lead gives the flag up and sends nothing
    ensures !canElect ==> !c.s.nodes[n].flag && c.log == old(c.log) + [Decline(n)]
    // a leader renews, and stays leader exactly if the renewal finds its own live entry
    ensures canElect && old(c.s.nodes[n].flag) ==>
              && |c.log| == |old(c.log)| + 2 + |gaps[0].others|
              && Renewed(At(c.log, |c.log| - 1), c.s, old(c.s.nodes[n]), gaps[0].fails, c.s.nodes[n].flag)
    // in particular while its lease is running
    ensures canElect && old(c.s.nodes[n].flag) && old(c.s.nodes[n].grant.Some?) && !gaps[0].fails ==>
              At(c.log, |c.log| - 1).now <= old(c.s.nodes[n].grant.value) ==> c.s.nodes[n].flag
    // a leader that stays leader has a running lease, given one of at least a millisecond
    ensures canElect && old(c.s.nodes[n].flag) && c.s.nodes[n].flag && MS <= c.s.nodes[n].unhealthy ==>
              Leads(c.s, c.s.nodes[n])
    // any other node campaigns
    ensures canElect && !old(c.s.nodes[n].flag) ==>
              Campaigned(c.log, |old(c.log)|, gaps, old(c.s.nodes[n]), c.s, c.s.nodes[n].flag)
    // a node comes out as leader only if the live entry was its own at some moment of the round
    ensures c.s.nodes[n].flag ==> Led(c.log, |old(c.log)|, c.s.nodes[n].iso, c.s.nodes[n].key)
  {
    var before := c.s.nodes[n].flag;
    if !canElect {
      c.Mine(n, Decline(n));
    } else if before {
      ContinueLeader(c, n, gaps[0]);
    } else {
      Campaign(c, n, gaps);
      if c.s.nodes[n].flag {
        CampaignLed(c.log, |old(c.log)|, gaps, old(c.s.nodes[n]));
      }
    }
    events := Publish(published, before, c.s.nodes[n].flag);
  }

  /** The domain's entry is removed exactly if it is `key`'s, live, and the command does not fail; nothing else is. */
  predicate Withdrawn(met: Sys, left: Sys, iso: string, key: string, fails: bool) {
    left.store == if !fails && Leading(met, iso, key) then met.store - {iso} else met.store
  }

  /** Close: a leader takes its entry away, and nobody else's. */
  method CloseNode(c: Cluster, n: nat, gap: Gap<Event>)
    requires c.Valid() && n in c.s.nodes && c.s.nodes[n].pc.Idle? && ByOthers(gap.others, n)
    modifies c
    ensures c.Valid() && old(c.log) <= c.log && n in c.s.nodes && c.s.nodes[n].pc.Closed?
    ensures !old(c.s.nodes[n].flag) ==> c.s.store == old(c.s.store)
    ensures old(c.s.nodes[n].flag) ==>
              && |c.log| == |old(c.log)| + 2 + |gap.others|
              && Withdrawn(At(c.log, |c.log| - 1), c.s, old(c.s.nodes[n].iso), old(c.s.nodes[n].key), gap.fails)
  {
    c.Mine(n, Close(n));
    if c.s.nodes[n].pc.Sending? {
      ghost var asked := Send(c, n, gap);
    }
  }
}
