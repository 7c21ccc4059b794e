/**
 `runElectionOnce` of the MongoDB election as written: check CanElect, renew or campaign,
 publish a change of the flag, with arbitrary steps of everybody else between commands.
 */
module MongoElectionCode {
  import opened Common
  import opened MongoElection
  import opened LeaderEvents

  predicate ByOthers(evs: seq<Event>, me: nat) {
    forall i :: 0 <= i < |evs| ==> Actor(evs[i]) != Some(me)
  }

  class Cluster {
    var s: Sys
    ghost var log: seq<Event>

    ghost predicate Valid()
      reads this
    {
      s == Run(INIT, log)
    }

    constructor ()
      ensures Valid() && s == INIT && log == []
    {
      s := INIT;
      log := [];
    }

    method Mine(n: nat, e: Event)
      requires Valid() && n in s.nodes && Actor(e) == Some(n) && !e.Join?
      modifies this
      ensures Valid() && log == old(log) + [e]
      ensures s == NodeStep(old(s), n, old(s).nodes[n], e)
    {
      s := Next(s, e);
      log := log + [e];
      assert log[..|log| - 1] == old(log);
    }

    method Others(evs: seq<Event>, ghost me: nat)
      requires Valid() && me in s.nodes && ByOthers(evs, me)
      modifies this
      ensures Valid() && log == old(log) + evs
      ensures me in s.nodes && s.nodes[me] == old(s.nodes[me])
    {
      for i := 0 to |evs|
        invariant Valid() && log == old(log) + evs[..i]
        invariant me in s.nodes && s.nodes[me] == old(s.nodes[me])
      {
        OthersUntouched(s, evs[i]);
        s := Next(s, evs[i]);
        ghost var before := log;
        log := log + [evs[i]];
        assert log[..|log| - 1] == before;
        assert evs[..i + 1] == evs[..i] + [evs[i]];
      }
      assert evs[..|evs|] == evs;
    }
  }

  /** At some moment after the first `from` events the domain's stored leader was `key`. */
  predicate Led(log: seq<Event>, from: nat, iso: string, key: string) {
    exists k :: from <= k <= |log| && StoredLeader(Run(INIT, log[..k]), iso, key)
  }

  predicate StoredLeader(s: Sys, iso: string, key: string) {
    BuildLeaderKey(iso) in s.store && s.store[BuildLeaderKey(iso)].node == key
  }

  lemma LedAt(log: seq<Event>, k: nat, from: nat, longer: seq<Event>, iso: string, key: string)
    requires from <= k <= |log| && log <= longer && StoredLeader(Run(INIT, log[..k]), iso, key)
    ensures Led(longer, from, iso, key)
  {
    assert longer[..k] == log[..k];
  }

  function At(log: seq<Event>, k: nat): Sys
    requires k <= |log|
  {
    Run(INIT, log[..k])
  }

  lemma SamePast(log: seq<Event>, longer: seq<Event>, k: nat)
    requires log <= longer && k <= |log|
    ensures At(longer, k) == At(log, k)
  {
    assert longer[..k] == log[..k];
  }

  lemma NowAt(log: seq<Event>)
    ensures At(log, |log|) == Run(INIT, log)
  {
    assert log[..|log|] == log;
  }

  /** A renewal keeps the flag exactly if the document it meets is the node's own, and then extends it. */
  predicate Renewed(met: Sys, left: Sys, iso: string, key: string, expires: Time, fails: bool, flag: bool) {
    var id := BuildLeaderKey(iso);
    && (flag <==> !fails && StoredLeader(met, iso, key))
    && (flag ==> left.store == met.store[id := met.store[id].(expires := Trunc(expires))])
    && (!flag ==> left.store == met.store)
  }

  /** The moments of a campaign: the find, the reading of the clock, and the write, each right behind its gap. */
  datatype Trace = Trace(look: nat, check: nat, write: nat)

  function Moments(from: nat, gaps: seq<Gap<Event>>): Trace
    requires |gaps| == 3
  {
    var look := from + 1 + |gaps[0].others|;
    var check := look + 1 + |gaps[1].others|;
    Trace(look, check, check + 1 + |gaps[2].others|)
  }

  /** The write of a campaign finds what the campaign read: no document, or the same expired one. */
  predicate StillThere(found: Option<(string, Leader)>, met: map<string, Leader>, id: string) {
    if found.None? then id !in met
    else id in met && met[id].node == found.value.1.node && met[id].expires == found.value.1.expires
  }

  /**
   What a campaign comes to: a document of the node's own sets the flag; an unexpired one of
   somebody else does not; otherwise the flag is set exactly if the write is executed and finds
   what was read, and the domain is then the node's until its own lease duration from the clock reading.
   */
  predicate Campaigned(log: seq<Event>, from: nat, gaps: seq<Gap<Event>>, was: Node, left: Sys, flag: bool)
    requires |gaps| == 3
  {
    var t, id := Moments(from, gaps), BuildLeaderKey(was.iso);
    if gaps[0].fails then !flag
    else
      && t.check < |log|
      && var found := Seen(At(log, t.look), was.iso);
         if found.Some? && found.value.1.node == was.key then flag
         else if found.Some? && At(log, t.check).now <= found.value.1.expires then !flag
         else
           && t.write < |log|
           && (flag <==> !gaps[2].fails && StillThere(found, At(log, t.write).store, id))
           && (flag ==> OwnedUntil(left, was, Trunc(At(log, t.check).now + was.unhealthy)))
           && (!flag ==> left.store == At(log, t.write).store)
  }

  predicate OwnedUntil(s: Sys, nd: Node, expires: Time) {
    StoredLeader(s, nd.iso, nd.key) && s.store[BuildLeaderKey(nd.iso)].expires == expires
  }

  /** One round; `gaps` are before the read, before the clock, before the write. */
  method RunElectionOnce(c: Cluster, n: nat, published: seq<bool>, canElect: bool, gaps: seq<Gap<Event>>)
    returns (events: seq<bool>)
    requires c.Valid() && n in c.s.nodes && c.s.nodes[n].pc.Idle? && Alternates(published, c.s.nodes[n].flag)
    requires |gaps| == 3 && forall i :: 0 <= i < 3 ==> ByOthers(gaps[i].others, n)
    modifies c
    ensures c.Valid() && old(c.log) <= c.log && n in c.s.nodes && c.s.nodes[n].pc.Idle?
    ensures c.s.nodes[n].key == old(c.s.nodes[n].key) && c.s.nodes[n].iso == old(c.s.nodes[n].iso)
    ensures Alternates(events, c.s.nodes[n].flag) && published <= events && |events| <= |published| + 1
    // a node that must not lead gives the flag up and sends nothing
    ensures !canElect ==> !c.s.nodes[n].flag && c.log == old(c.log) + [Decline(n)]
    // a leader renews, and stays leader exactly if the renewal finds its own document
    ensures canElect && old(c.s.nodes[n].flag) ==>
              && |c.log| == |old(c.log)| + 2 + |gaps[2].others|
              && Renewed(At(c.log, |c.log| - 1), c.s, old(c.s.nodes[n].iso), old(c.s.nodes[n].key),
                         old(c.s.now) + old(c.s.nodes[n].unhealthy), gaps[2].fails, c.s.nodes[n].flag)
    // in particular while its lease is running
    ensures canElect && old(c.s.nodes[n].flag) && old(c.s.nodes[n].grant.Some?) && !gaps[2].fails ==>
              At(c.log, |c.log| - 1).now <= old(c.s.nodes[n].grant.value) ==> c.s.nodes[n].flag
    // any other node campaigns
    ensures canElect && !old(c.s.nodes[n].flag) ==>
              Campaigned(c.log, |old(c.log)|, gaps, old(c.s.nodes[n]), c.s, c.s.nodes[n].flag)
    // a node comes out as leader only if it was the stored one at some moment of the round
    ensures c.s.nodes[n].flag ==> Led(c.log, |old(c.log)|, c.s.nodes[n].iso, c.s.nodes[n].key)
  {
    var before := c.s.nodes[n].flag;
    if !canElect {
      c.Mine(n, Decline(n));
    } else if before {
      ContinueLeader(c, n, gaps[2]);
    } else {
      Campaign(c, n, gaps);
      if c.s.nodes[n].flag {
        CampaignLed(c.log, |old(c.log)|, gaps, old(c.s.nodes[n]));
      }
    }
    events := Publish(published, before, c.s.nodes[n].flag);
  }

  /** continueLeader, with the fall of the flag on any failure. */
  method ContinueLeader(c: Cluster, n: nat, gap: Gap<Event>)
    requires c.Valid() && n in c.s.nodes && c.s.nodes[n].pc.Idle? && c.s.nodes[n].flag && ByOthers(gap.others, n)
    modifies c
    ensures c.Valid() && old(c.log) <= c.log && n in c.s.nodes && c.s.nodes[n].pc.Idle?
    ensures c.s.nodes[n].key == old(c.s.nodes[n].key) && c.s.nodes[n].iso == old(c.s.nodes[n].iso)
    ensures |c.log| == |old(c.log)| + 2 + |gap.others|
    ensures Renewed(At(c.log, |c.log| - 1), c.s, old(c.s.nodes[n].iso), old(c.s.nodes[n].key),
                    old(c.s.now) + old(c.s.nodes[n].unhealthy), gap.fails, c.s.nodes[n].flag)
    ensures old(c.s.nodes[n].grant.Some?) && !gap.fails ==>
              At(c.log, |c.log| - 1).now <= old(c.s.nodes[n].grant.value) ==> c.s.nodes[n].flag
    ensures c.s.nodes[n].flag ==> Led(c.log, |old(c.log)|, c.s.nodes[n].iso, c.s.nodes[n].key)
  {
    c.Mine(n, Elect(n));
    ghost var asked := Renew(c, n, gap);
    RunningLease(asked, n);
    if c.s.nodes[n].flag {
      LedAt(c.log, |asked|, |old(c.log)|, c.log, c.s.nodes[n].iso, c.s.nodes[n].key);
    }
  }

  /** The renewal in flight, executed right behind its gap. */
  method Renew(c: Cluster, n: nat, gap: Gap<Event>) returns (ghost asked: seq<Event>)
    requires c.Valid() && n in c.s.nodes && c.s.nodes[n].pc.Sending? && ByOthers(gap.others, n)
    requires c.s.nodes[n].pc.cmd.Renew? && c.s.nodes[n].flag
    modifies c
    ensures c.Valid() && old(c.log) <= asked <= c.log && |c.log| == |old(c.log)| + |gap.others| + 1 == |asked| + 1
    ensures n in Run(INIT, asked).nodes && Run(INIT, asked).nodes[n] == old(c.s.nodes[n])
    ensures At(c.log, |asked|) == Run(INIT, asked)
    ensures n in c.s.nodes && c.s.nodes[n].pc.Idle?
    ensures c.s.nodes[n].key == old(c.s.nodes[n].key) && c.s.nodes[n].iso == old(c.s.nodes[n].iso)
    ensures Renewed(Run(INIT, asked), c.s, old(c.s.nodes[n].iso), old(c.s.nodes[n].key),
                    old(c.s.nodes[n].pc.cmd.expires), gap.fails, c.s.nodes[n].flag)
  {
    ghost var nd := c.s.nodes[n];
    asked := Send(c, n, gap);
    RenewStep(Run(INIT, asked), n, nd, gap.fails);
  }

  lemma RenewStep(s: Sys, n: nat, nd: Node, fails: bool)
    requires nd.pc.Sending? && nd.pc.cmd.Renew? && nd.flag
    ensures var t := NodeStep(s, n, nd, if fails then Fail(n) else Execute(n));
            && n in t.nodes && t.nodes[n].pc.Idle? && t.nodes[n].key == nd.key && t.nodes[n].iso == nd.iso
            && Renewed(s, t, nd.iso, nd.key, nd.pc.cmd.expires, fails, t.nodes[n].flag)
  {
  }

  /** A lease that is running is the stored document. */
  lemma RunningLease(log: seq<Event>, n: nat)
    requires n in Run(INIT, log).nodes
    ensures var s := Run(INIT, log); Leads(s, s.nodes[n]) ==> StoredLeader(s, s.nodes[n].iso, s.nodes[n].key)
  {
    InvRun(log);
    assert Backed(Run(INIT, log), Run(INIT, log).nodes[n]);
  }

  /** What the write of a campaign does when it is executed, or fails. */
  lemma WriteStep(s: Sys, n: nat, nd: Node, found: Option<(string, Leader)>, x: Time, fails: bool)
    requires !nd.flag && (found.Some? ==> found.value.0 == BuildLeaderKey(nd.iso))
    requires nd.pc == Sending(if found.None? then Insert(x) else TakeOver(found.value.0, found.value.1, x))
    ensures var t, id := NodeStep(s, n, nd, if fails then Fail(n) else Execute(n)), BuildLeaderKey(nd.iso);
            && n in t.nodes && t.nodes[n].pc.Idle? && t.nodes[n].key == nd.key && t.nodes[n].iso == nd.iso
            && (t.nodes[n].flag <==> !fails && StillThere(found, s.store, id))
            && (t.nodes[n].flag ==> OwnedUntil(t, nd, Trunc(x)))
            && (!t.nodes[n].flag ==> t.store == s.store)
  {
  }

  /** The command in flight fails or is executed, after everybody else moved; `asked` is the log up to it. */
  method Send(c: Cluster, n: nat, gap: Gap<Event>) returns (ghost asked: seq<Event>)
    requires c.Valid() && n in c.s.nodes && c.s.nodes[n].pc.Sending? && ByOthers(gap.others, n)
    modifies c
    ensures c.Valid() && asked == old(c.log) + gap.others && asked <= c.log && |c.log| == |asked| + 1
    ensures At(c.log, |asked|) == Run(INIT, asked)
    ensures n in Run(INIT, asked).nodes && Run(INIT, asked).nodes[n] == old(c.s.nodes[n])
    ensures c.s == NodeStep(Run(INIT, asked), n, old(c.s.nodes[n]), if gap.fails then Fail(n) else Execute(n))
  {
    c.Others(gap.others, n);
    asked := c.log;
    NowAt(asked);
    if gap.fails {
      c.Mine(n, Fail(n));
    } else {
      c.Mine(n, Execute(n));
    }
    SamePast(asked, c.log, |asked|);
  }

  /** The read of campaign: all leader documents of the domain, of which the first counts. */
  method Look(c: Cluster, n: nat, gap: Gap<Event>) returns (failed: bool)
    requires c.Valid() && n in c.s.nodes && c.s.nodes[n].pc.Idle? && !c.s.nodes[n].flag && ByOthers(gap.others, n)
    modifies c
    ensures c.Valid() && old(c.log) <= c.log && |c.log| == |old(c.log)| + 2 + |gap.others|
    ensures n in c.s.nodes && (failed <==> gap.fails)
    ensures failed ==> c.s.nodes[n] == old(c.s.nodes[n])
    ensures !failed ==>
              c.s.nodes[n] == old(c.s.nodes[n]).(pc := Fetched(Seen(At(c.log, |c.log| - 1), old(c.s.nodes[n].iso))))
  {
    c.Mine(n, Elect(n));
    c.Others(gap.others, n);
    if gap.fails {
      c.Mine(n, Fail(n));
      return true;
    }
    ghost var asked := c.log;
    NowAt(asked);
    FindByIsolation(c, n);
    SamePast(asked, c.log, |asked|);
    failed := false;
  }

  /** What a find by isolation key shows: the domain's document, if there is one. */
  function Seen(s: Sys, iso: string): Option<(string, Leader)> {
    var id := BuildLeaderKey(iso);
    if id in s.store then Some((id, s.store[id])) else None
  }

  /** Find by isolation key: the node sees the first of the domain's documents, which is its only one, or none. */
  method FindByIsolation(c: Cluster, n: nat)
    requires c.Valid() && n in c.s.nodes && c.s.nodes[n].pc.Finding?
    modifies c
    ensures c.Valid() && |c.log| == |old(c.log)| + 1 && old(c.log) <= c.log && n in c.s.nodes
    ensures c.s.nodes[n] == old(c.s.nodes[n]).(pc := Fetched(Seen(old(c.s), old(c.s.nodes[n].iso))))
  {
    InvRun(c.log);
    var iso := c.s.nodes[n].iso;
    OnlyDocument(c.s, iso);
    var found := set id | id in c.s.store && c.s.store[id].iso == iso;
    if found == {} {
      forall id | id in c.s.store ensures c.s.store[id].iso != iso {
        assert id !in found;
      }
      assert Finds(c.s, c.s.nodes[n], None);
      c.Mine(n, Fetch(n, None));
    } else {
      var first :| first in found;
      assert Finds(c.s, c.s.nodes[n], Some(first));
      c.Mine(n, Fetch(n, Some(first)));
    }
  }

  /** The documents of a domain are the one under its own id. */
  lemma OnlyDocument(s: Sys, iso: string)
    requires Placed(s)
    ensures forall id :: id in s.store && s.store[id].iso == iso ==> id == BuildLeaderKey(iso)
    ensures BuildLeaderKey(iso) in s.store ==> s.store[BuildLeaderKey(iso)].iso == iso
  {
    var id := BuildLeaderKey(iso);
    if id in s.store {
      LeaderKeyInjective(s.store[id].iso, iso);
    }
  }

  /** campaign: read, look at the clock, then insert, take over or give in. */
  method Campaign(c: Cluster, n: nat, gaps: seq<Gap<Event>>)
    requires c.Valid() && n in c.s.nodes && c.s.nodes[n].pc.Idle? && !c.s.nodes[n].flag
    requires |gaps| == 3 && forall i :: 0 <= i < 3 ==> ByOthers(gaps[i].others, n)
    modifies c
    ensures c.Valid() && old(c.log) <= c.log && n in c.s.nodes && c.s.nodes[n].pc.Idle?
    ensures c.s.nodes[n].key == old(c.s.nodes[n].key) && c.s.nodes[n].iso == old(c.s.nodes[n].iso)
    ensures Campaigned(c.log, |old(c.log)|, gaps, old(c.s.nodes[n]), c.s, c.s.nodes[n].flag)
  {
    ghost var was, from := c.s.nodes[n], |c.log|;
    var failed, found, now := Read(c, n, gaps);
    if failed {
      return;
    }
    if c.s.nodes[n].pc.Idle? {
      JudgedMeans(c.log, from, gaps, was, c.s, found, now);
      return;
    }
    ghost var judged := c.log;
    Write(c, n, gaps[2], found, now);
    assert Seen(At(c.log, Moments(from, gaps).look), was.iso) == found
        && At(c.log, Moments(from, gaps).check).now == now by {
      SamePast(judged, c.log, Moments(from, gaps).look);
      SamePast(judged, c.log, Moments(from, gaps).check);
    }
    WrittenMeans(c.log, from, gaps, was, c.s, c.s.nodes[n].flag, found, now);
  }

  lemma JudgedMeans(log: seq<Event>, from: nat, gaps: seq<Gap<Event>>, was: Node, left: Sys,
                    found: Option<(string, Leader)>, now: Time)
    requires |gaps| == 3 && !gaps[0].fails && !was.flag && |log| == Moments(from, gaps).check + 1
    requires found == Seen(At(log, Moments(from, gaps).look), was.iso) && now == At(log, Moments(from, gaps).check).now
    requires Judged(was, found, now).pc.Idle?
    ensures Campaigned(log, from, gaps, was, left, Judged(was, found, now).flag)
  {
  }

  lemma WrittenMeans(log: seq<Event>, from: nat, gaps: seq<Gap<Event>>, was: Node, left: Sys, flag: bool,
                     found: Option<(string, Leader)>, now: Time)
    requires |gaps| == 3 && !gaps[0].fails && |log| == Moments(from, gaps).write + 1
    requires found == Seen(At(log, Moments(from, gaps).look), was.iso) && now == At(log, Moments(from, gaps).check).now
    requires Judged(was, found, now).pc.Sending?
    requires flag <==> !gaps[2].fails && StillThere(found, At(log, |log| - 1).store, BuildLeaderKey(was.iso))
    requires flag ==> OwnedUntil(left, was, Trunc(now + was.unhealthy))
    requires !flag ==> left.store == At(log, |log| - 1).store
    ensures Campaigned(log, from, gaps, was, left, flag)
  {
  }

  /** The reading half of campaign: the find, and the comparison with the clock. */
  method Read(c: Cluster, n: nat, gaps: seq<Gap<Event>>)
    returns (failed: bool, ghost found: Option<(string, Leader)>, now: Time)
    requires c.Valid() && n in c.s.nodes && c.s.nodes[n].pc.Idle? && !c.s.nodes[n].flag
    requires |gaps| == 3 && forall i :: 0 <= i < 3 ==> ByOthers(gaps[i].others, n)
    modifies c
    ensures c.Valid() && old(c.log) <= c.log && n in c.s.nodes && (failed <==> gaps[0].fails)
    ensures failed ==> c.s.nodes[n] == old(c.s.nodes[n])
    ensures !failed ==>
              var t := Moments(|old(c.log)|, gaps);
              && |c.log| == t.check + 1 && found == Seen(At(c.log, t.look), old(c.s.nodes[n].iso))
              && now == At(c.log, t.check).now && c.s.nodes[n] == Judged(old(c.s.nodes[n]), found, now)
  {
    failed := Look(c, n, gaps[0]);
    found, now := None, 0;
    if !failed {
      ghost var looked := c.log;
      found := Seen(At(looked, |looked| - 1), c.s.nodes[n].iso);
      now := Judge(c, n, gaps[1], found);
      SamePast(looked, c.log, |looked| - 1);
    }
  }

  /** The write of a campaign, executed right behind its gap. */
  method Write(c: Cluster, n: nat, gap: Gap<Event>, ghost found: Option<(string, Leader)>, ghost now: Time)
    requires c.Valid() && n in c.s.nodes && ByOthers(gap.others, n) && !c.s.nodes[n].flag && c.s.nodes[n].pc.Sending?
    requires found.Some? ==> found.value.0 == BuildLeaderKey(c.s.nodes[n].iso)
    requires c.s.nodes[n].pc == Judged(c.s.nodes[n], found, now).pc
    modifies c
    ensures c.Valid() && old(c.log) <= c.log && |c.log| == |old(c.log)| + |gap.others| + 1
    ensures n in c.s.nodes && c.s.nodes[n].pc.Idle?
    ensures c.s.nodes[n].key == old(c.s.nodes[n].key) && c.s.nodes[n].iso == old(c.s.nodes[n].iso)
    ensures var met := At(c.log, |c.log| - 1).store;
            && (c.s.nodes[n].flag <==> !gap.fails && StillThere(found, met, BuildLeaderKey(old(c.s.nodes[n].iso))))
            && (!c.s.nodes[n].flag ==> c.s.store == met)
    ensures c.s.nodes[n].flag ==> OwnedUntil(c.s, old(c.s.nodes[n]), Trunc(now + old(c.s.nodes[n].unhealthy)))
  {
    ghost var nd := c.s.nodes[n];
    ghost var asked := Send(c, n, gap);
    WriteStep(Run(INIT, asked), n, nd, found, now + nd.unhealthy, gap.fails);
  }

  /** Where a campaign sets the flag, the node was the stored leader at some moment of it. */
  lemma CampaignLed(log: seq<Event>, from: nat, gaps: seq<Gap<Event>>, was: Node)
    requires |gaps| == 3 && from <= |log| && Campaigned(log, from, gaps, was, Run(INIT, log), true)
    ensures Led(log, from, was.iso, was.key)
  {
    var t, id := Moments(from, gaps), BuildLeaderKey(was.iso);
    var found := At(log, t.look).store;
    if id in found && found[id].node == was.key {
      LedAt(log, t.look, from, log, was.iso, was.key);
    } else {
      NowAt(log);
      LedAt(log, |log|, from, log, was.iso, was.key);
    }
  }

  /** A campaign without failing commands wins a domain it found free or expired and that stays so until its write. */
  lemma OpenDomainIsWon(log: seq<Event>, from: nat, gaps: seq<Gap<Event>>, was: Node, left: Sys, flag: bool)
    requires |gaps| == 3 && Campaigned(log, from, gaps, was, left, flag) && !gaps[0].fails && !gaps[2].fails
    ensures Moments(from, gaps).check < |log|
    ensures var t, id := Moments(from, gaps), BuildLeaderKey(was.iso);
            var seen := At(log, t.look).store;
            && (id !in seen ==> t.write < |log| && (id !in At(log, t.write).store ==> flag))
            && (id in seen && seen[id].expires < At(log, t.check).now ==>
                  || (seen[id].node == was.key && flag)
                  || (t.write < |log| &&
                      (id in At(log, t.write).store && At(log, t.write).store[id] == seen[id] ==> flag)))
  {
  }

  /** The comparison of what was found with the clock: lead, give in, or write. */
  method Judge(c: Cluster, n: nat, gap: Gap<Event>, ghost found: Option<(string, Leader)>) returns (now: Time)
    requires c.Valid() && n in c.s.nodes && c.s.nodes[n].pc == Fetched(found) && ByOthers(gap.others, n)
    modifies c
    ensures c.Valid() && old(c.log) <= c.log && |c.log| == |old(c.log)| + |gap.others| + 1
    ensures now == At(c.log, |c.log| - 1).now
    ensures n in c.s.nodes && c.s.nodes[n] == Judged(old(c.s.nodes[n]), found, now)
  {
    c.Others(gap.others, n);
    ghost var asked := c.log;
    NowAt(asked);
    now := c.s.now;
    c.Mine(n, Decide(n));
    SamePast(asked, c.log, |asked|);
  }

  /** The node after it has compared what it found with the clock. */
  function Judged(nd: Node, found: Option<(string, Leader)>, now: Time): Node {
    if found.None? then nd.(pc := Sending(Insert(now + nd.unhealthy)))
    else if found.value.1.node == nd.key then nd.(flag := true, pc := Idle)
    else if now <= found.value.1.expires then nd.(pc := Idle)
    else nd.(pc := Sending(TakeOver(found.value.0, found.value.1, now + nd.unhealthy)))
  }

  /** Close: a leader takes its document away, and nobody else's. */
  method CloseNode(c: Cluster, n: nat, gap: Gap<Event>)
    requires c.Valid() && n in c.s.nodes && c.s.nodes[n].pc.Idle? && ByOthers(gap.others, n)
    modifies c
    ensures c.Valid() && old(c.log) <= c.log && n in c.s.nodes && c.s.nodes[n].pc.Closed?
    ensures !old(c.s.nodes[n].flag) ==> c.s.store == old(c.s.store)
    ensures old(c.s.nodes[n].flag) ==>
              && |c.log| == |old(c.log)| + 2 + |gap.others|
              && Withdrawn(At(c.log, |c.log| - 1), c.s, old(c.s.nodes[n].iso), old(c.s.nodes[n].key), gap.fails)
  {
    c.Mine(n, Close(n));
    if c.s.nodes[n].pc.Sending? {
      ghost var asked := Send(c, n, gap);
    }
  }

  /** The domain's document is removed exactly if it is `key`'s and the command does not fail; nothing else is. */
  predicate Withdrawn(met: Sys, left: Sys, iso: string, key: string, fails: bool) {
    left.store == if !fails && StoredLeader(met, iso, key) then met.store - {BuildLeaderKey(iso)} else met.store
  }
}
