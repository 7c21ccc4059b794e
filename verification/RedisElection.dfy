/**
 Leader election on Redis. SETNX, GET, the renew script and the delete script are atomic.
 The store is indexed by isolation key; RedisKeys shows that domains never share a Redis
 key. Two running nodes of one domain never share a node key.
 */
module RedisElection {
  import opened Common
  import LR = LeaseRegister

  datatype Leader = Leader(node: string, until: Time)

  datatype Command = Nothing | SetNX | Get | Renew | Resign

  datatype Pc = Idle | Sending(cmd: Command) | Closed

  /** `grant` is history: the end of the node's last successful SETNX or renewal. */
  datatype Node = Node(key: string, iso: string, unhealthy: Time, flag: bool, pc: Pc, grant: Option<Time>)

  datatype Sys = Sys(now: Time, store: map<string, Leader>, nodes: map<nat, Node>)

  const INIT := Sys(0, map[], map[])

  datatype Event =
    | Tick(d: Time)
    | Join(n: nat, key: string, iso: string, unhealthy: Time)
    | Decline(n: nat)
    | Elect(n: nat)
    | Execute(n: nat)
    | Fail(n: nat)
    | Close(n: nat)
    | Crash(n: nat)

  // ---------------------------------------------------------------- the server

  predicate Live(s: Sys, iso: string) {
    iso in s.store && s.now <= s.store[iso].until
  }

  predicate Takes(s: Sys, nd: Node, cmd: Command) {
    match cmd
    case SetNX => !Live(s, nd.iso)
    case Renew => Live(s, nd.iso) && s.store[nd.iso].node == nd.key
    case Resign => Live(s, nd.iso) && s.store[nd.iso].node == nd.key
    case _ => false
  }

  /**
   SETNX stores a lease of whole milliseconds, at least one. The renew script passes whole
   milliseconds to PEXPIRE, and PEXPIRE 0 deletes the key.
   */
  function Apply(s: Sys, nd: Node, cmd: Command): map<string, Leader> {
    if !Takes(s, nd, cmd) then s.store
    else if cmd.SetNX? then s.store[nd.iso := Leader(nd.key, s.now + StoredTTL(nd.unhealthy))]
    else if cmd.Renew? && MS <= nd.unhealthy then s.store[nd.iso := Leader(nd.key, s.now + Trunc(nd.unhealthy))]
    else s.store - {nd.iso}
  }

  // ---------------------------------------------------------------- the node

  function AfterReply(s: Sys, nd: Node, cmd: Command): Node {
    match cmd
    case Nothing => nd
    case SetNX =>
      if Takes(s, nd, cmd) then nd.(flag := true, grant := Some(s.now + StoredTTL(nd.unhealthy)), pc := Idle)
      else nd.(pc := Sending(Get))
    // an entry of its own sets the flag without renewing it
    case Get => nd.(flag := nd.flag || (Live(s, nd.iso) && s.store[nd.iso].node == nd.key), pc := Idle)
    case Renew =>
      if !Takes(s, nd, cmd) then nd.(flag := false, pc := Idle)
      else nd.(grant := if MS <= nd.unhealthy then Some(s.now + Trunc(nd.unhealthy)) else None, pc := Idle)
    case Resign => nd.(grant := None, pc := Closed)
  }

  function NodeAfter(s: Sys, nd: Node, e: Event): Node {
    match (e, nd.pc)
    case (Decline(_), Idle) => nd.(flag := false)
    case (Elect(_), Idle) => nd.(pc := Sending(if nd.flag then Renew else SetNX))
    case (Execute(_), Sending(cmd)) => AfterReply(s, nd, cmd)
    case (Fail(_), Sending(Renew)) => nd.(flag := false, pc := Idle)
    case (Fail(_), Sending(Resign)) => nd.(grant := None, pc := Closed)
    case (Fail(_), Sending(_)) => nd.(pc := Idle)
    case (Close(_), Idle) => if nd.flag then nd.(pc := Sending(Resign)) else nd.(grant := None, pc := Closed)
    case (Crash(_), _) => nd.(flag := false, grant := None, pc := Closed)
    case _ => nd
  }

  function NodeStep(s: Sys, n: nat, nd: Node, e: Event): Sys {
    Sys(s.now,
        if e.Execute? && nd.pc.Sending? then Apply(s, nd, nd.pc.cmd) else s.store,
        s.nodes[n := NodeAfter(s, nd, e)])
  }

  predicate MayJoin(s: Sys, n: nat, key: string, iso: string) {
    && n !in s.nodes
    && key != ""
    && forall m :: m in s.nodes && !s.nodes[m].pc.Closed? && s.nodes[m].iso == iso ==> s.nodes[m].key != key
  }

  function Next(s: Sys, e: Event): Sys {
    match e
    case Tick(d) => s.(now := s.now + d)
    case Join(n, key, iso, u) =>
      if MayJoin(s, n, key, iso) then s.(nodes := s.nodes[n := Node(key, iso, u, false, Idle, None)]) else s
    case _ => if e.n in s.nodes then NodeStep(s, e.n, s.nodes[e.n], e) else s
  }

  function Run(s: Sys, evs: seq<Event>): Sys
    decreases |evs|
  {
    if evs == [] then s else Next(Run(s, evs[..|evs| - 1]), evs[|evs| - 1])
  }

  function Actor(e: Event): Option<nat> {
    if e.Tick? then None else Some(e.n)
  }

  // ---------------------------------------------------------------- invariant

  predicate Leads(s: Sys, nd: Node) {
    nd.grant.Some? && s.now <= nd.grant.value
  }

  /** As long as a grant runs, the stored entry is that grant. */
  predicate Backed(s: Sys, nd: Node) {
    && (Leads(s, nd) ==> nd.iso in s.store && s.store[nd.iso] == Leader(nd.key, nd.grant.value))
    && (nd.pc.Closed? ==> nd.grant.None?)
  }

  predicate Rivals(a: Node, b: Node) {
    !a.pc.Closed? && !b.pc.Closed? && a.iso == b.iso
  }

  predicate DistinctKeys(s: Sys) {
    forall a, b :: a in s.nodes && b in s.nodes && a != b && Rivals(s.nodes[a], s.nodes[b]) ==>
      s.nodes[a].key != s.nodes[b].key
  }

  predicate Inv(s: Sys) {
    && (forall n :: n in s.nodes ==> Backed(s, s.nodes[n]))
    && DistinctKeys(s)
  }

  lemma OthersUntouched(s: Sys, e: Event)
    ensures forall g :: g in s.nodes && Actor(e) != Some(g) ==>
              g in Next(s, e).nodes && Next(s, e).nodes[g] == s.nodes[g]
    ensures forall g :: g in Next(s, e).nodes && Actor(e) != Some(g) ==> g in s.nodes
    ensures s.now <= Next(s, e).now
  {
  }

  lemma OwnKept(s: Sys, n: nat, nd: Node, e: Event)
    requires Backed(s, nd)
    ensures Backed(NodeStep(s, n, nd, e), NodeAfter(s, nd, e))
    ensures NodeAfter(s, nd, e).key == nd.key && NodeAfter(s, nd, e).iso == nd.iso
    ensures nd.pc.Closed? ==> NodeAfter(s, nd, e).pc.Closed?
  {
  }

  lemma BystanderKept(s: Sys, e: Event, g: nat)
    requires Inv(s) && g in s.nodes && Actor(e) != Some(g)
    ensures Backed(Next(s, e), s.nodes[g])
  {
    assert Backed(s, s.nodes[g]);
    if e.Execute? && e.n in s.nodes {
      assert Backed(s, s.nodes[e.n]);
    }
  }

  /** Nodes keep their names, and closed nodes stay closed. */
  lemma NamesKept(s: Sys, e: Event, g: nat)
    requires Inv(s) && g in s.nodes
    ensures var t := Next(s, e);
            && g in t.nodes && t.nodes[g].key == s.nodes[g].key && t.nodes[g].iso == s.nodes[g].iso
            && (s.nodes[g].pc.Closed? ==> t.nodes[g].pc.Closed?)
  {
    if Actor(e) == Some(g) && !e.Join? {
      assert Backed(s, s.nodes[g]);
      OwnKept(s, g, s.nodes[g], e);
    }
  }

  lemma DistinctStep(s: Sys, e: Event)
    requires Inv(s)
    ensures DistinctKeys(Next(s, e))
  {
    var t := Next(s, e);
    forall a, b | a in t.nodes && b in t.nodes && a != b && Rivals(t.nodes[a], t.nodes[b])
      ensures t.nodes[a].key != t.nodes[b].key
    {
      if a in s.nodes { NamesKept(s, e, a); }
      if b in s.nodes { NamesKept(s, e, b); }
      assert a in s.nodes && b in s.nodes ==> Rivals(s.nodes[a], s.nodes[b]);
    }
  }

  lemma InvStep(s: Sys, e: Event)
    requires Inv(s)
    ensures Inv(Next(s, e))
  {
    var t := Next(s, e);
    OthersUntouched(s, e);
    DistinctStep(s, e);
    forall g | g in t.nodes ensures Backed(t, t.nodes[g]) {
      if Actor(e) != Some(g) {
        BystanderKept(s, e, g);
      } else if g in s.nodes && !e.Join? {
        assert Backed(s, s.nodes[g]);
        OwnKept(s, g, s.nodes[g], e);
      }
    }
  }

  lemma {:induction false} InvRun(evs: seq<Event>)
    ensures Inv(Run(INIT, evs))
    decreases |evs|
  {
    if evs != [] {
      InvRun(evs[..|evs| - 1]);
      InvStep(Run(INIT, evs[..|evs| - 1]), evs[|evs| - 1]);
    }
  }

  // ---------------------------------------------------------------- what every run keeps

  /** At every instant at most one node of a domain has an unexpired grant, and it is the stored one. */
  lemma UniqueLeader(evs: seq<Event>, a: nat, b: nat)
    requires var s := Run(INIT, evs);
             && a in s.nodes && b in s.nodes && Leads(s, s.nodes[a]) && Leads(s, s.nodes[b])
             && s.nodes[a].iso == s.nodes[b].iso
    ensures a == b
    ensures var s := Run(INIT, evs);
            s.nodes[a].iso in s.store && s.store[s.nodes[a].iso] == Leader(s.nodes[a].key, s.nodes[a].grant.value)
  {
    InvRun(evs);
    var s := Run(INIT, evs);
    assert Backed(s, s.nodes[a]) && Backed(s, s.nodes[b]);
  }

  /**
   A renewal keeps the flag exactly if the live entry is the node's own, and then extends
   it; with a lease shorter than a millisecond it deletes the entry and keeps the flag.
   */
  lemma RenewalTellsTruth(s: Sys, n: nat)
    requires n in s.nodes && s.nodes[n].pc == Sending(Renew) && s.nodes[n].flag
    ensures var nd, t := s.nodes[n], Next(s, Execute(n));
            && (t.nodes[n].flag <==> Live(s, nd.iso) && s.store[nd.iso].node == nd.key)
            && (t.nodes[n].flag && MS <= nd.unhealthy ==>
                  nd.iso in t.store && t.store[nd.iso] == Leader(nd.key, s.now + Trunc(nd.unhealthy)))
            && (t.nodes[n].flag && nd.unhealthy < MS ==> nd.iso !in t.store)
            && (!t.nodes[n].flag ==> t.store == s.store)
  {
  }

  /** In every run, a renewal that arrives while the node's lease is running is not refused. */
  lemma RunningLeaseIsRenewed(evs: seq<Event>, n: nat)
    requires n in Run(INIT, evs).nodes && Leads(Run(INIT, evs), Run(INIT, evs).nodes[n])
    requires Run(INIT, evs).nodes[n].pc == Sending(Renew) && Run(INIT, evs).nodes[n].flag
    ensures Next(Run(INIT, evs), Execute(n)).nodes[n].flag
  {
    InvRun(evs);
    assert Backed(Run(INIT, evs), Run(INIT, evs).nodes[n]);
  }

  function CellAt(s: Sys, iso: string): LR.Cell<string> {
    LR.Cell(s.now, if iso in s.store then LR.Held(s.store[iso].node, s.store[iso].until) else LR.Free)
  }

  function Party(s: Sys, e: Event): Option<string> {
    if e.Execute? && e.n in s.nodes then Some(s.nodes[e.n].key) else None
  }

  function Cells(evs: seq<Event>, iso: string): seq<LR.Cell<string>> {
    seq(|evs| + 1, i requires 0 <= i <= |evs| => CellAt(Run(INIT, evs[..i]), iso))
  }

  function Parties(evs: seq<Event>): seq<Option<string>> {
    seq(|evs|, i requires 0 <= i < |evs| => Party(Run(INIT, evs[..i]), evs[i]))
  }

  lemma RegisterStep(s: Sys, e: Event, iso: string)
    ensures LR.Step(CellAt(s, iso), Party(s, e), CellAt(Next(s, e), iso))
  {
  }

  /** The election implements the lease register: one register per domain, held by node keys. */
  lemma RefinesRegister(evs: seq<Event>, iso: string)
    ensures LR.Legal(Cells(evs, iso), Parties(evs))
  {
    forall i | 0 <= i < |evs| ensures LR.Step(Cells(evs, iso)[i], Parties(evs)[i], Cells(evs, iso)[i + 1]) {
      assert evs[..i + 1][..i] == evs[..i];
      RegisterStep(Run(INIT, evs[..i]), evs[i], iso);
    }
  }

  /** Leadership passes to another node only after expiry or the owner's own resignation. */
  lemma LeadershipPassesOn(evs: seq<Event>, iso: string, i: nat, j: nat, from: string, to: string)
    requires i < j <= |evs| && from != to
    requires LR.HeldBy(Cells(evs, iso)[i], from) && LR.HeldBy(Cells(evs, iso)[j], to)
    ensures exists k: nat :: i <= k < j && LR.TenureEnds(Cells(evs, iso), Parties(evs), k, from)
  {
    RefinesRegister(evs, iso);
    LR.Handover(Cells(evs, iso), Parties(evs), i, j, from, to);
  }
}
