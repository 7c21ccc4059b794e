/**
 Leader election on MongoDB: any number of nodes in any number of isolation domains,
 campaigning, renewing and resigning with separate reads and conditional writes, while the
 clock moves and the TTL index reaps. Two nodes of one domain never share a node key.
 */
module MongoElection {
  import opened Common
  import LR = LeaseRegister

  /** The leader document of one domain. */
  datatype Leader = Leader(node: string, iso: string, expires: Time)

  datatype Command =
    | Nothing
    | Insert(expires: Time)
    | TakeOver(id: string, seen: Leader, expires: Time)
    | Renew(expires: Time)
    | Resign

  datatype Pc =
    | Idle
    | Finding
    | Fetched(found: Option<(string, Leader)>)
    | Sending(cmd: Command)
    | Closed

  /** `grant` is history: the expiry of the node's last successful insert, takeover or renewal. */
  datatype Node = Node(key: string, iso: string, unhealthy: Time, flag: bool, pc: Pc, grant: Option<Time>)

  datatype Sys = Sys(now: Time, store: map<string, Leader>, nodes: map<nat, Node>)

  const INIT := Sys(0, map[], map[])

  const REAP_DELAY: Time := 1_000_000_000

  datatype Event =
    | Tick(d: Time)
    | Reap(id: string)
    | Join(n: nat, key: string, iso: string, unhealthy: Time)
    | Decline(n: nat)
    | Elect(n: nat)
    | Fetch(n: nat, pick: Option<string>)
    | Decide(n: nat)
    | Execute(n: nat)
    | Fail(n: nat)
    | Close(n: nat)
    | Crash(n: nat)

  const LEADER_KEY := "leader"

  function BuildLeaderKey(iso: string): string {
    if iso != "" then LEADER_KEY + "-" + iso else LEADER_KEY
  }

  /** Domains never share a leader document. */
  lemma LeaderKeyInjective(a: string, b: string)
    requires BuildLeaderKey(a) == BuildLeaderKey(b)
    ensures a == b
  {
    var p := LEADER_KEY + "-";
    if a != "" && b != "" {
      assert a == (p + a)[|p|..] && b == (p + b)[|p|..];
    } else {
      assert |BuildLeaderKey(a)| == |BuildLeaderKey(b)|;
    }
  }

  // ---------------------------------------------------------------- the server

  predicate Takes(s: Sys, nd: Node, cmd: Command) {
    var id := BuildLeaderKey(nd.iso);
    match cmd
    case Nothing => false
    case Insert(_) => id !in s.store
    case TakeOver(at, seen, _) => at in s.store && s.store[at].node == seen.node && s.store[at].expires == seen.expires
    case Renew(_) => id in s.store && s.store[id].node == nd.key
    case Resign => id in s.store && s.store[id].node == nd.key
  }

  function Apply(s: Sys, nd: Node, cmd: Command): map<string, Leader> {
    var id := BuildLeaderKey(nd.iso);
    if !Takes(s, nd, cmd) then s.store
    else match cmd
      case Insert(x) => s.store[id := Leader(nd.key, nd.iso, Trunc(x))]
      case TakeOver(at, _, x) => s.store[at := s.store[at].(node := nd.key, expires := Trunc(x))]
      case Renew(x) => s.store[id := s.store[id].(expires := Trunc(x))]
      case _ => s.store - {id}
  }

  // ---------------------------------------------------------------- the node

  /** What Find by isolation key may return first: any document of the domain, or none. */
  predicate Finds(s: Sys, nd: Node, pick: Option<string>) {
    if pick.Some? then pick.value in s.store && s.store[pick.value].iso == nd.iso
    else forall id :: id in s.store ==> s.store[id].iso != nd.iso
  }

  /** A record of its own sets the flag without renewing it; an expired one is taken over. */
  function AfterDecide(s: Sys, nd: Node, found: Option<(string, Leader)>): Node {
    if found.None? then nd.(pc := Sending(Insert(s.now + nd.unhealthy)))
    else if found.value.1.node == nd.key then nd.(flag := true, pc := Idle)
    else if found.value.1.expires < s.now then
      nd.(pc := Sending(TakeOver(found.value.0, found.value.1, s.now + nd.unhealthy)))
    else nd.(pc := Idle)
  }

  function AfterReply(s: Sys, nd: Node, cmd: Command): Node {
    match cmd
    case Nothing => nd
    case Resign => nd.(grant := None, pc := Closed)
    case _ =>
      if Takes(s, nd, cmd) then nd.(flag := true, grant := Some(Trunc(cmd.expires)), pc := Idle)
      else nd.(flag := nd.flag && !cmd.Renew?, pc := Idle)
  }

  function NodeAfter(s: Sys, nd: Node, e: Event): Node {
    match (e, nd.pc)
    case (Decline(_), Idle) => nd.(flag := false)
    case (Elect(_), Idle) =>
      if nd.flag then nd.(pc := Sending(Renew(s.now + nd.unhealthy))) else nd.(pc := Finding)
    case (Fetch(_, pick), Finding) =>
      if Finds(s, nd, pick)
      then nd.(pc := Fetched(if pick.Some? then Some((pick.value, s.store[pick.value])) else None))
      else nd
    case (Decide(_), Fetched(found)) => AfterDecide(s, nd, found)
    case (Execute(_), Sending(cmd)) => AfterReply(s, nd, cmd)
    // an error: a failed renewal gives the flag up, a failed resignation leaves the record behind
    case (Fail(_), Sending(Renew(_))) => nd.(flag := false, pc := Idle)
    case (Fail(_), Sending(Resign)) => nd.(grant := None, pc := Closed)
    case (Fail(_), Sending(_)) => nd.(pc := Idle)
    case (Fail(_), Finding) => nd.(pc := Idle)
    case (Close(_), Idle) => if nd.flag then nd.(pc := Sending(Resign)) else nd.(grant := None, pc := Closed)
    case (Crash(_), _) => nd.(flag := false, grant := None, pc := Closed)
    case _ => nd
  }

  function NodeStep(s: Sys, n: nat, nd: Node, e: Event): Sys {
    Sys(s.now,
        if e.Execute? && nd.pc.Sending? then Apply(s, nd, nd.pc.cmd) else s.store,
        s.nodes[n := NodeAfter(s, nd, e)])
  }

  /** A node joins under a key no running node of its domain has. */
  predicate MayJoin(s: Sys, n: nat, key: string, iso: string) {
    && n !in s.nodes
    && key != ""
    && forall m :: m in s.nodes && !s.nodes[m].pc.Closed? && s.nodes[m].iso == iso ==> s.nodes[m].key != key
  }

  function Next(s: Sys, e: Event): Sys {
    match e
    case Tick(d) => s.(now := s.now + d)
    case Reap(id) =>
      if id in s.store && s.store[id].expires + REAP_DELAY < s.now then s.(store := s.store - {id}) else s
    case Join(n, key, iso, u) =>
      if MayJoin(s, n, key, iso) then s.(nodes := s.nodes[n := Node(key, iso, u, false, Idle, None)]) else s
    case _ => if e.n in s.nodes then NodeStep(s, e.n, s.nodes[e.n], e) else s
  }

  function Run(s: Sys, evs: seq<Event>): Sys
    decreases |evs|
  {
    if evs == [] then s else Next(Run(s, evs[..|evs| - 1]), evs[|evs| - 1])
  }

  function Actor(e: Event): Option<nat> {
    if e.Tick? || e.Reap? then None else Some(e.n)
  }

  // ---------------------------------------------------------------- invariant

  /** The node's last grant has not run out. */
  predicate Leads(s: Sys, nd: Node) {
    nd.grant.Some? && s.now <= nd.grant.value
  }

  /** As long as a grant runs, the stored document is that grant. */
  predicate Backed(s: Sys, nd: Node) {
    Leads(s, nd) ==>
      BuildLeaderKey(nd.iso) in s.store && s.store[BuildLeaderKey(nd.iso)] == Leader(nd.key, nd.iso, nd.grant.value)
  }

  predicate Ordered(s: Sys, nd: Node) {
    && (nd.pc.Closed? ==> nd.grant.None?)
    && (nd.pc.Fetched? && nd.pc.found.Some? ==> nd.pc.found.value.0 == BuildLeaderKey(nd.iso))
    && (nd.pc.Sending? && nd.pc.cmd.TakeOver? ==> nd.pc.cmd.id == BuildLeaderKey(nd.iso))
    && (nd.pc.Sending? && nd.pc.cmd.TakeOver? ==> nd.pc.cmd.seen.expires < s.now)
  }

  predicate Placed(s: Sys) {
    forall id :: id in s.store ==> id == BuildLeaderKey(s.store[id].iso)
  }

  predicate Rivals(a: Node, b: Node) {
    !a.pc.Closed? && !b.pc.Closed? && a.iso == b.iso
  }

  predicate DistinctKeys(s: Sys) {
    forall a, b :: a in s.nodes && b in s.nodes && a != b && Rivals(s.nodes[a], s.nodes[b]) ==>
      s.nodes[a].key != s.nodes[b].key
  }

  predicate Inv(s: Sys) {
    && (forall n :: n in s.nodes ==> Backed(s, s.nodes[n]) && Ordered(s, s.nodes[n]))
    && Placed(s)
    && DistinctKeys(s)
  }

  lemma OthersUntouched(s: Sys, e: Event)
    ensures forall g :: g in s.nodes && Actor(e) != Some(g) ==>
              g in Next(s, e).nodes && Next(s, e).nodes[g] == s.nodes[g]
    ensures forall g :: g in Next(s, e).nodes && Actor(e) != Some(g) ==> g in s.nodes
    ensures s.now <= Next(s, e).now
  {
  }

  lemma OwnOrdered(s: Sys, n: nat, nd: Node, e: Event)
    requires Ordered(s, nd) && Placed(s)
    ensures Ordered(NodeStep(s, n, nd, e), NodeAfter(s, nd, e))
    ensures NodeAfter(s, nd, e).key == nd.key && NodeAfter(s, nd, e).iso == nd.iso
    ensures nd.pc.Closed? ==> NodeAfter(s, nd, e).pc.Closed?
  {
  }

  lemma OwnBacked(s: Sys, n: nat, nd: Node, e: Event)
    requires Backed(s, nd) && Ordered(s, nd) && Placed(s)
    ensures Backed(NodeStep(s, n, nd, e), NodeAfter(s, nd, e))
  {
    if e.Execute? && nd.pc.Sending? && Takes(s, nd, nd.pc.cmd) && BuildLeaderKey(nd.iso) in s.store {
      LeaderKeyInjective(nd.iso, s.store[BuildLeaderKey(nd.iso)].iso);
    }
  }

  /** No command of another node can disturb an unexpired grant. */
  lemma CommandSpares(s: Sys, n: nat, g: nat)
    requires Inv(s) && n in s.nodes && g in s.nodes && n != g && s.nodes[n].pc.Sending? && Leads(s, s.nodes[g])
    ensures var id := BuildLeaderKey(s.nodes[g].iso);
            var after := Apply(s, s.nodes[n], s.nodes[n].pc.cmd);
            id in s.store && id in after && after[id] == s.store[id]
  {
    var nd, ng := s.nodes[n], s.nodes[g];
    assert Backed(s, ng) && Ordered(s, nd) && Ordered(s, ng);
    if BuildLeaderKey(nd.iso) == BuildLeaderKey(ng.iso) {
      LeaderKeyInjective(nd.iso, ng.iso);
    }
  }

  lemma PlacedStep(s: Sys, e: Event)
    requires Inv(s)
    ensures Placed(Next(s, e))
  {
    if e.Execute? && e.n in s.nodes && s.nodes[e.n].pc.Sending? {
      assert Ordered(s, s.nodes[e.n]);
    }
  }

  lemma DistinctStep(s: Sys, e: Event)
    requires Inv(s)
    ensures DistinctKeys(Next(s, e))
  {
    OthersUntouched(s, e);
    if Actor(e).Some? && e.n in s.nodes && !e.Join? {
      assert Ordered(s, s.nodes[e.n]);
      OwnOrdered(s, e.n, s.nodes[e.n], e);
    }
  }

  lemma InvStep(s: Sys, e: Event)
    requires Inv(s)
    ensures Inv(Next(s, e))
  {
    var t := Next(s, e);
    OthersUntouched(s, e);
    PlacedStep(s, e);
    DistinctStep(s, e);
    forall g | g in t.nodes ensures Backed(t, t.nodes[g]) && Ordered(t, t.nodes[g]) {
      if g in s.nodes {
        assert Backed(s, s.nodes[g]) && Ordered(s, s.nodes[g]);
        if Actor(e) == Some(g) {
          if !e.Join? {
            OwnOrdered(s, g, s.nodes[g], e);
            OwnBacked(s, g, s.nodes[g], e);
          }
        } else if e.Execute? && e.n in s.nodes && s.nodes[e.n].pc.Sending? && Leads(s, s.nodes[g]) {
          CommandSpares(s, e.n, g);
        }
      }
    }
  }

  lemma {:induction false} InvRun(evs: seq<Event>)
    ensures Inv(Run(INIT, evs))
    decreases |evs|
  {
    if evs != [] {
      InvRun(evs[..|evs| - 1]);
      InvStep(Run(INIT, evs[..|evs| - 1]), evs[|evs| - 1]);
    }
  }

  // ---------------------------------------------------------------- what every run keeps

  /**
   At every instant at most one node of a domain has an unexpired insert, takeover or
   renewal behind it, and the stored document is exactly that lease.
   */
  lemma UniqueLeader(evs: seq<Event>, a: nat, b: nat)
    requires var s := Run(INIT, evs);
             && a in s.nodes && b in s.nodes && Leads(s, s.nodes[a]) && Leads(s, s.nodes[b])
             && s.nodes[a].iso == s.nodes[b].iso
    ensures a == b
    ensures var s := Run(INIT, evs);
            var id := BuildLeaderKey(s.nodes[a].iso);
            id in s.store && s.store[id] == Leader(s.nodes[a].key, s.nodes[a].iso, s.nodes[a].grant.value)
  {
    InvRun(evs);
    var s := Run(INIT, evs);
    assert Backed(s, s.nodes[a]) && Ordered(s, s.nodes[a]) && Backed(s, s.nodes[b]) && Ordered(s, s.nodes[b]);
  }

  /** A renewal keeps the flag exactly if the document is still the node's own, and then extends it. */
  lemma RenewalTellsTruth(s: Sys, n: nat, x: Time)
    requires n in s.nodes && s.nodes[n].pc == Sending(Renew(x)) && s.nodes[n].flag
    ensures var id := BuildLeaderKey(s.nodes[n].iso);
            var t := Next(s, Execute(n));
            && (t.nodes[n].flag <==> id in s.store && s.store[id].node == s.nodes[n].key)
            && (t.nodes[n].flag ==> id in t.store && t.store[id].node == s.nodes[n].key)
            && (t.nodes[n].flag ==> t.store[id].expires == Trunc(x))
            && (!t.nodes[n].flag ==> t.store == s.store)
  {
  }

  /** In every run, a renewal that arrives while the node's lease is running is not refused. */
  lemma RunningLeaseIsRenewed(evs: seq<Event>, n: nat, x: Time)
    requires n in Run(INIT, evs).nodes && Leads(Run(INIT, evs), Run(INIT, evs).nodes[n])
    requires Run(INIT, evs).nodes[n].pc == Sending(Renew(x)) && Run(INIT, evs).nodes[n].flag
    ensures Next(Run(INIT, evs), Execute(n)).nodes[n].flag
  {
    InvRun(evs);
    assert Backed(Run(INIT, evs), Run(INIT, evs).nodes[n]);
  }

  function CellAt(s: Sys, iso: string): LR.Cell<string> {
    var id := BuildLeaderKey(iso);
    LR.Cell(s.now, if id in s.store then LR.Held(s.store[id].node, s.store[id].expires) else LR.Free)
  }

  function Party(s: Sys, e: Event): Option<string> {
    if e.Execute? && e.n in s.nodes then Some(s.nodes[e.n].key) else None
  }

  function Cells(evs: seq<Event>, iso: string): seq<LR.Cell<string>> {
    seq(|evs| + 1, i requires 0 <= i <= |evs| => CellAt(Run(INIT, evs[..i]), iso))
  }

  function Parties(evs: seq<Event>): seq<Option<string>> {
    seq(|evs|, i requires 0 <= i < |evs| => Party(Run(INIT, evs[..i]), evs[i]))
  }

  lemma RegisterStep(s: Sys, e: Event, iso: string)
    requires Inv(s)
    ensures LR.Step(CellAt(s, iso), Party(s, e), CellAt(Next(s, e), iso))
  {
    if e.Execute? && e.n in s.nodes {
      assert Ordered(s, s.nodes[e.n]);
    }
  }

  /** The election implements the lease register: one register per domain, held by node keys. */
  lemma RefinesRegister(evs: seq<Event>, iso: string)
    ensures LR.Legal(Cells(evs, iso), Parties(evs))
  {
    forall i | 0 <= i < |evs| ensures LR.Step(Cells(evs, iso)[i], Parties(evs)[i], Cells(evs, iso)[i + 1]) {
      assert evs[..i + 1][..i] == evs[..i];
      InvRun(evs[..i]);
      RegisterStep(Run(INIT, evs[..i]), evs[i], iso);
    }
  }

  /** Leadership passes to another node only after expiry or the owner's own resignation. */
  lemma LeadershipPassesOn(evs: seq<Event>, iso: string, i: nat, j: nat, from: string, to: string)
    requires i < j <= |evs| && from != to
    requires LR.HeldBy(Cells(evs, iso)[i], from) && LR.HeldBy(Cells(evs, iso)[j], to)
    ensures exists k: nat :: i <= k < j && LR.TenureEnds(Cells(evs, iso), Parties(evs), k, from)
  {
    RefinesRegister(evs, iso);
    LR.Handover(Cells(evs, iso), Parties(evs), i, j, from, to);
  }

  // ---------------------------------------------------------------- the flag alone

  ghost predicate Reachable(s: Sys) {
    exists evs: seq<Event> :: Run(INIT, evs) == s
  }

  lemma ReachNext(s: Sys, e: Event)
    requires Reachable(s)
    ensures Reachable(Next(s, e))
  {
    var evs: seq<Event> :| Run(INIT, evs) == s;
    assert (evs + [e])[..|evs|] == evs;
    assert Run(INIT, evs + [e]) == Next(s, e);
  }

  function With(s: Sys, n: nat, nd: Node): Sys {
    s.(nodes := s.nodes[n := nd])
  }

  /** A step of node `n` that sends nothing changes that node only. */
  lemma ReachLocal(s: Sys, n: nat, nd: Node, e: Event)
    requires Reachable(With(s, n, nd)) && Actor(e) == Some(n) && !e.Execute? && !e.Join?
    ensures Reachable(With(s, n, NodeAfter(s, nd, e)))
  {
    ReachNext(With(s, n, nd), e);
    assert NodeAfter(With(s, n, nd), nd, e) == NodeAfter(s, nd, e);
    assert Next(With(s, n, nd), e) == With(s, n, NodeAfter(s, nd, e));
  }

  /** An idle node that is not leader wins an empty domain. */
  lemma CampaignWins(s: Sys, n: nat)
    requires Reachable(s) && n in s.nodes && s.nodes[n].pc.Idle? && !s.nodes[n].flag
    requires BuildLeaderKey(s.nodes[n].iso) !in s.store && Finds(s, s.nodes[n], None)
    ensures var nd, x := s.nodes[n], Trunc(s.now + s.nodes[n].unhealthy);
            Reachable(With(s, n, nd.(flag := true, grant := Some(x)))
                        .(store := s.store[BuildLeaderKey(nd.iso) := Leader(nd.key, nd.iso, x)]))
  {
    var nd := s.nodes[n];
    assert s == With(s, n, nd);
    ReachLocal(s, n, nd, Elect(n));
    ReachLocal(s, n, nd.(pc := Finding), Fetch(n, None));
    ReachLocal(s, n, nd.(pc := Fetched(None)), Decide(n));
    ReachExecute(s, n, Insert(s.now + nd.unhealthy));
  }

  lemma ReachExecute(s: Sys, n: nat, cmd: Command)
    requires n in s.nodes && Reachable(With(s, n, s.nodes[n].(pc := Sending(cmd)))) && !cmd.Nothing?
    requires s.nodes[n].pc.Idle?
    ensures Reachable(With(s, n, AfterReply(s, s.nodes[n], cmd)).(store := Apply(s, s.nodes[n], cmd)))
  {
    var t := With(s, n, s.nodes[n].(pc := Sending(cmd)));
    ReachNext(t, Execute(n));
    assert Takes(t, t.nodes[n], cmd) == Takes(s, s.nodes[n], cmd);
    assert Apply(t, t.nodes[n], cmd) == Apply(s, s.nodes[n], cmd);
    assert AfterReply(t, t.nodes[n], cmd) == AfterReply(s, s.nodes[n], cmd);
    assert Next(t, Execute(n)) == With(s, n, AfterReply(s, s.nodes[n], cmd)).(store := Apply(s, s.nodes[n], cmd));
  }

  /** An idle node that is not leader takes an expired domain over. */
  lemma TakeOverWins(s: Sys, n: nat)
    requires Reachable(s) && n in s.nodes && s.nodes[n].pc.Idle? && !s.nodes[n].flag
    requires var id := BuildLeaderKey(s.nodes[n].iso);
             && id in s.store && s.store[id].iso == s.nodes[n].iso
             && s.store[id].node != s.nodes[n].key && s.store[id].expires < s.now
    ensures var nd, x := s.nodes[n], Trunc(s.now + s.nodes[n].unhealthy);
            Reachable(With(s, n, nd.(flag := true, grant := Some(x)))
                        .(store := s.store[BuildLeaderKey(nd.iso) := Leader(nd.key, nd.iso, x)]))
  {
    var nd, id := s.nodes[n], BuildLeaderKey(s.nodes[n].iso);
    assert s == With(s, n, nd);
    ReachLocal(s, n, nd, Elect(n));
    ReachLocal(s, n, nd.(pc := Finding), Fetch(n, Some(id)));
    ReachTakeOver(s, n);
    ReachExecute(s, n, TakeOver(id, s.store[id], s.now + nd.unhealthy));
  }

  lemma ReachTakeOver(s: Sys, n: nat)
    requires n in s.nodes && BuildLeaderKey(s.nodes[n].iso) in s.store
    requires var id := BuildLeaderKey(s.nodes[n].iso);
             && s.store[id].node != s.nodes[n].key && s.store[id].expires < s.now
             && Reachable(With(s, n, s.nodes[n].(pc := Fetched(Some((id, s.store[id]))))))
    ensures var nd, id := s.nodes[n], BuildLeaderKey(s.nodes[n].iso);
            Reachable(With(s, n, nd.(pc := Sending(TakeOver(id, s.store[id], s.now + nd.unhealthy)))))
  {
    var nd, id := s.nodes[n], BuildLeaderKey(s.nodes[n].iso);
    ReachLocal(s, n, nd.(pc := Fetched(Some((id, s.store[id])))), Decide(n));
  }

  /** Two nodes of a domain that have just joined. */
  lemma TwoJoined(iso: string, a: string, b: string, ua: Time, ub: Time) returns (s: Sys)
    requires a != b && a != "" && b != ""
    ensures Reachable(s) && s.now == 0 && s.store == map[]
    ensures 1 in s.nodes && s.nodes[1] == Node(a, iso, ua, false, Idle, None)
    ensures 2 in s.nodes && s.nodes[2] == Node(b, iso, ub, false, Idle, None)
  {
    assert Run(INIT, []) == INIT;
    ReachNext(INIT, Join(1, a, iso, ua));
    var one := Next(INIT, Join(1, a, iso, ua));
    ReachNext(one, Join(2, b, iso, ub));
    s := Next(one, Join(2, b, iso, ub));
  }

  /**
   Until the old leader's next renewal fails, two nodes of one domain can believe they lead,
   whatever the domain, their keys and their lease durations.
   */
  lemma TwoFlagsReachable(iso: string, a: string, b: string, ua: Time, ub: Time)
    requires a != b && a != "" && b != ""
    ensures exists s :: Reachable(s) && Flagged(s, 1, a, iso) && Flagged(s, 2, b, iso)
  {
    var s := TwoJoined(iso, a, b, ua, ub);
    CampaignWins(s, 1);
    var x := Trunc(s.now + ua);
    var won := With(s, 1, s.nodes[1].(flag := true, grant := Some(x)))
                 .(store := s.store[BuildLeaderKey(iso) := Leader(a, iso, x)]);
    ReachNext(won, Tick(ua + 1));
    var late := won.(now := won.now + ua + 1);
    assert Next(won, Tick(ua + 1)) == late;
    TakeOverWins(late, 2);
    var y := Trunc(late.now + ub);
    var both := With(late, 2, late.nodes[2].(flag := true, grant := Some(y)))
                  .(store := late.store[BuildLeaderKey(iso) := Leader(b, iso, y)]);
    assert Reachable(both) && Flagged(both, 1, a, iso) && Flagged(both, 2, b, iso);
  }

  predicate Flagged(s: Sys, n: nat, key: string, iso: string) {
    n in s.nodes && s.nodes[n].flag && s.nodes[n].key == key && s.nodes[n].iso == iso
  }
}
