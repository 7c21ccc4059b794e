/** `Update` as written: stamp the copy, replace under the version filter, and explain a miss by a count. */
module OptimisticLockCode {
  import opened Common
  import opened OptimisticLock

  predicate ByOthers(evs: seq<Event>, me: nat) {
    forall i :: 0 <= i < |evs| ==> Actor(evs[i]) != Some(me)
  }

  class Cluster {
    var s: Sys
    ghost var log: seq<Event>

    ghost predicate Valid()
      reads this
    {
      s == Run(INIT, log)
    }

    constructor ()
      ensures Valid() && s == INIT && log == []
    {
      s := INIT;
      log := [];
    }

    method Step(e: Event)
      requires Valid()
      modifies this
      ensures Valid() && s == Next(old(s), e) && log == old(log) + [e]
    {
      s := Next(s, e);
      log := log + [e];
      assert log[..|log| - 1] == old(log);
    }

    /** A step of the caller `me` on its own document. */
    method Mine(me: nat, e: Event)
      requires Valid() && me in s.clients && Actor(e) == Some(me) && !e.Build? && !e.Get?
      modifies this
      ensures Valid() && s == ClientStep(old(s), me, old(s).clients[me], e) && log == old(log) + [e]
    {
      Step(e);
    }

    method Others(evs: seq<Event>, ghost me: nat)
      requires Valid() && me in s.clients && ByOthers(evs, me)
      modifies this
      ensures Valid() && log == old(log) + evs
      ensures me in s.clients && s.clients[me] == old(s.clients[me])
    {
      for i := 0 to |evs|
        invariant Valid() && log == old(log) + evs[..i]
        invariant me in s.clients && s.clients[me] == old(s.clients[me])
      {
        OthersUntouched(s, evs[i], me);
        Step(evs[i]);
        assert evs[..i + 1] == evs[..i] + [evs[i]];
      }
      assert evs[..|evs|] == evs;
    }
  }

  /** After `log`, `put` is a stored version of the document and `was` is the one it replaced. */
  ghost predicate Replaced(s: Sys, id: string, was: Doc, put: Doc) {
    exists n :: 0 < n < |Versions(s, id)| && Versions(s, id)[n].doc == put && Versions(s, id)[n - 1].doc == was
  }

  /** Unchanged is the refusal for a replace that matched and changed nothing. */
  datatype Answer = Updated | ModifiedByOther | Unchanged | Gone | AuditFailed | CallFailed

  lemma CarefulPrefix(log: seq<Event>, k: nat)
    requires CarefulRun(log) && k <= |log|
    ensures CarefulRun(log[..k])
    decreases |log|
  {
    if k < |log| {
      CarefulPrefix(log[..|log| - 1], k);
      assert log[..|log| - 1][..k] == log[..k];
    } else {
      assert log[..k] == log;
    }
  }

  /** The replace of a careful session put its document on the version it had read. */
  lemma ReplacedWhatWasRead(log: seq<Event>, me: nat)
    requires CarefulRun(log) && me in Run(INIT, log).clients
    requires Run(INIT, log).clients[me].pc.Replacing? && Writes(Run(INIT, log), Run(INIT, log).clients[me])
    ensures var s := Run(INIT, log); var cl := s.clients[me];
            cl.basis.Some? && Replaced(ClientStep(s, me, cl, Execute(me)), cl.id, cl.basis.value, cl.pc.doc)
  {
    InvRun(log);
    var s := Run(INIT, log);
    var cl := s.clients[me];
    assert ClientOk(s, cl) && HistoryOk(s, cl.id);
    WritesIff(s, cl);
    var t := ClientStep(s, me, cl, Execute(me));
    var h, n := Versions(s, cl.id), |Versions(s, cl.id)|;
    assert Versions(t, cl.id) == h + [Version(cl.pc.doc, cl.basis)];
    assert Versions(t, cl.id)[n].doc == cl.pc.doc && Versions(t, cl.id)[n - 1].doc == h[n - 1].doc;
  }

  /** The document is stored in a later version than the one read. */
  ghost predicate Overtaken(s: Sys, id: string, was: Option<Doc>) {
    was.Some? && id in s.store && was.value.updated < s.store[id].updated
  }

  function At(log: seq<Event>, k: nat): Sys
    requires k <= |log|
  {
    Run(INIT, log[..k])
  }

  lemma SamePast(log: seq<Event>, longer: seq<Event>, k: nat)
    requires log <= longer && k <= |log|
    ensures At(longer, k) == At(log, k)
  {
    assert longer[..k] == log[..k];
  }

  lemma NowAt(log: seq<Event>)
    ensures At(log, |log|) == Run(INIT, log)
  {
    assert log[..|log|] == log;
  }

  /** The filter {id, updated_at} matches, where the copy had no stamp {id} alone. */
  predicate Matched(s: Sys, id: string, original: Option<Time>) {
    id in s.store && (original.Some? ==> s.store[id].updated == Trunc(original.value))
  }

  /** The replace would change nothing, and is refused for it if the filter had a stamp. */
  predicate Idempotent(s: Sys, id: string, original: Option<Time>, doc: Doc) {
    Matched(s, id, original) && original.Some? && s.store[id] == doc
  }

  /** What a replace that is executed comes to, in the collection it meets. */
  predicate Settled(met: Sys, left: Sys, id: string, original: Option<Time>, doc: Doc, r: Reply) {
    && r == (if !Matched(met, id, original) then NoReply
             else if Idempotent(met, id, original, doc) then Conflict else Done)
    && left.store == if r == Done then met.store[id := doc] else met.store
  }

  /** After a replace that matched nothing: is the document there at all? */
  method Explain(c: Cluster, me: nat, gap: Gap<Event>) returns (r: Answer)
    requires c.Valid() && me in c.s.clients && c.s.clients[me].pc.Counting? && ByOthers(gap.others, me)
    modifies c
    ensures c.Valid() && old(c.log) <= c.log && me in c.s.clients
    ensures |c.log| == |old(c.log)| + |gap.others| + if gap.fails then 0 else 1
    ensures c.s.clients[me].copy == old(c.s.clients[me].copy)
    ensures r == if gap.fails then CallFailed
                 else if old(c.s.clients[me].id) in c.s.store then ModifiedByOther else Gone
    ensures !gap.fails ==> c.s.store == At(c.log, |c.log| - 1).store
    ensures r != CallFailed ==> c.s.clients[me].basis == None && c.s.clients[me].pc.Idle?
    ensures r == Gone ==> old(c.s.clients[me].id) !in c.s.store
    ensures r == ModifiedByOther ==> old(c.s.clients[me].id) in c.s.store
    ensures r == ModifiedByOther && CarefulRun(c.log) ==>
              Overtaken(c.s, old(c.s.clients[me].id), old(c.s.clients[me].basis))
  {
    c.Others(gap.others, me);
    if gap.fails {
      return CallFailed;
    }
    ghost var asked := c.log;
    NowAt(asked);
    r := if c.s.clients[me].id in c.s.store then ModifiedByOther else Gone;
    c.Mine(me, Count(me));
    SamePast(asked, c.log, |asked|);
    if CarefulRun(c.log) {
      assert c.log[..|asked|] == asked;
      CarefulPrefix(c.log, |asked|);
      ConflictTellsTruth(asked, me);
    }
  }

  /** The replace itself: accepted on exactly the version read, or refused leaving the store alone. */
  method Replace(c: Cluster, me: nat) returns (r: Reply)
    requires c.Valid() && me in c.s.clients && c.s.clients[me].pc.Replacing?
    modifies c
    ensures c.Valid() && c.log == old(c.log) + [Execute(me)] && me in c.s.clients
    ensures c.s.clients[me].copy == old(c.s.clients[me].copy) && c.s.clients[me].id == old(c.s.clients[me].id)
    ensures Settled(old(c.s), c.s, old(c.s.clients[me].id), old(c.s.clients[me].pc.original),
                    old(c.s.clients[me].pc.doc), r)
    ensures r == NoReply ==> c.s.clients[me].pc.Counting? && c.s.clients[me].basis == old(c.s.clients[me].basis)
    ensures r != NoReply ==> c.s.clients[me].pc.Idle?
    ensures r == Done ==> c.s.clients[me].basis == Some(old(c.s.clients[me].pc.doc))
    ensures r == Conflict ==> c.s.clients[me].basis == None
    ensures CarefulRun(c.log) ==> r != Conflict
    ensures r == Done && CarefulRun(c.log) ==>
              && old(c.s.clients[me].basis.Some?)
              && Replaced(c.s, c.s.clients[me].id, old(c.s.clients[me].basis.value), old(c.s.clients[me].pc.doc))
  {
    r := if Writes(c.s, c.s.clients[me]) then Done else if Hits(c.s, c.s.clients[me]) then Conflict else NoReply;
    ghost var asked := c.log;
    c.Mine(me, Execute(me));
    if CarefulRun(c.log) {
      assert c.log[..|asked|] == asked;
      CarefulPrefix(c.log, |asked|);
      if r == Done {
        ReplacedWhatWasRead(asked, me);
      } else {
        AcceptedIffCurrent(asked, me);
      }
    }
  }

  /**
   How an update ends: it fails exactly if a command does; the replace, right behind its gap, is
   accepted if it matches and changes something; what matched nothing is explained by the count.
   */
  predicate Decides(log: seq<Event>, from: nat, left: Sys, send: Gap<Event>, count: Gap<Event>, id: string,
                    original: Option<Time>, doc: Doc, r: Answer) {
    var at := from + 1 + |send.others|;
    if send.fails then r == CallFailed
    else
      && at < |log|
      && var met := At(log, at);
         if !Matched(met, id, original) then
           r == if count.fails then CallFailed else if id in left.store then ModifiedByOther else Gone
         else
           && r == (if Idempotent(met, id, original, doc) then Unchanged else Updated)
           && left.store == if r == Updated then met.store[id := doc] else met.store
  }

  /**
   `operator` is the user in the context, if any. In a careful run a successful update put the
   caller's document on exactly the version the copy stood for, and a refusal is for a later one.
   */
  method Update(c: Cluster, me: nat, operator: Option<string>, send: Gap<Event>, count: Gap<Event>) returns (r: Answer)
    requires c.Valid() && me in c.s.clients && c.s.clients[me].pc.Idle?
    requires ByOthers(send.others, me) && ByOthers(count.others, me)
    modifies c
    ensures c.Valid() && old(c.log) <= c.log && me in c.s.clients
    ensures r == AuditFailed <==> operator.None?
    ensures r == AuditFailed ==> c.s == old(c.s)
    // what the replace meets, and what the count meets where it matched nothing, decides
    ensures operator.Some? ==>
              Decides(c.log, |old(c.log)|, c.s, send, count, old(c.s.clients[me].id), old(c.s.clients[me].copy.updated),
                      Doc(Trunc(old(c.s.now)), operator.value, old(c.s.clients[me].copy.body)), r)
    // the copy carries the new stamp whatever the outcome, and stands for a stored version only after success
    ensures r != AuditFailed ==>
              c.s.clients[me].copy == old(c.s.clients[me].copy).(updated := Some(old(c.s.now)), user := operator.value)
    ensures r == Updated ==>
              c.s.clients[me].basis == Some(Doc(Trunc(old(c.s.now)), operator.value, old(c.s.clients[me].copy.body)))
    ensures r in {ModifiedByOther, Unchanged, Gone} ==> c.s.clients[me].basis == None && c.s.clients[me].pc.Idle?
    ensures r == Gone ==> old(c.s.clients[me].id) !in c.s.store
    ensures r == Updated && CarefulRun(c.log) ==>
              && old(c.s.clients[me].basis.Some?)
              && Replaced(c.s, old(c.s.clients[me].id), old(c.s.clients[me].basis.value), c.s.clients[me].basis.value)
    ensures r == ModifiedByOther && CarefulRun(c.log) ==>
              Overtaken(c.s, old(c.s.clients[me].id), old(c.s.clients[me].basis))
    ensures CarefulRun(c.log) ==> r != Unchanged
  {
    if operator.None? {
      return AuditFailed;
    }
    UpdateLockAndAudit(c, me, operator.value);
    r := CommonReplace(c, me, send, count);
  }

  /** UpdateLockAndAudit: the old stamp is kept for the filter, then the copy is stamped. */
  method UpdateLockAndAudit(c: Cluster, me: nat, user: string)
    requires c.Valid() && me in c.s.clients && c.s.clients[me].pc.Idle?
    modifies c
    ensures c.Valid() && c.log == old(c.log) + [Stamp(me, user)] && c.s.store == old(c.s.store) && me in c.s.clients
    ensures var cl, now := old(c.s.clients[me]), old(c.s.now);
            c.s.clients[me] == cl.(copy := cl.copy.(updated := Some(now), user := user),
                                   pc := Replacing(cl.copy.updated, Doc(Trunc(now), user, cl.copy.body)))
  {
    c.Mine(me, Stamp(me, user));
  }

  /** commonReplace of a stamped copy: the replace, and the count that explains a miss. */
  method CommonReplace(c: Cluster, me: nat, send: Gap<Event>, count: Gap<Event>) returns (r: Answer)
    requires c.Valid() && me in c.s.clients && c.s.clients[me].pc.Replacing? && |c.log| > 0
    requires ByOthers(send.others, me) && ByOthers(count.others, me)
    modifies c
    ensures c.Valid() && old(c.log) <= c.log && me in c.s.clients && r != AuditFailed
    ensures c.s.clients[me].copy == old(c.s.clients[me].copy)
    ensures var cl := old(c.s.clients[me]);
            Decides(c.log, |old(c.log)| - 1, c.s, send, count, cl.id, cl.pc.original, cl.pc.doc, r)
    ensures r == Updated ==> c.s.clients[me].basis == Some(old(c.s.clients[me].pc.doc))
    ensures r in {ModifiedByOther, Unchanged, Gone} ==> c.s.clients[me].basis == None && c.s.clients[me].pc.Idle?
    ensures r == Updated && CarefulRun(c.log) ==>
              && old(c.s.clients[me].basis.Some?)
              && Replaced(c.s, old(c.s.clients[me].id), old(c.s.clients[me].basis.value), c.s.clients[me].basis.value)
    ensures r == ModifiedByOther && CarefulRun(c.log) ==>
              Overtaken(c.s, old(c.s.clients[me].id), old(c.s.clients[me].basis))
    ensures CarefulRun(c.log) ==> r != Unchanged
  {
    c.Others(send.others, me);
    if send.fails {
      return CallFailed;
    }
    ghost var asked := c.log;
    NowAt(asked);
    var reply := Replace(c, me);
    SamePast(asked, c.log, |asked|);
    if reply == Done { return Updated; }
    if reply == Conflict { return Unchanged; }
    r := Explain(c, me, count);
    SamePast(asked, c.log, |asked|);
  }
}
