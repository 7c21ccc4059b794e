/**
 The MongoDB mutex as a transition system. A lock attempt is a read followed by a
 separate conditional write, so every command, every clock reading and every TTL
 reaping is its own event, and a run is any list of events of any number of handles.
 An event that is not enabled leaves the state alone.
 */
module MongoMutex {
  import opened Common
  import LR = LeaseRegister

  /** The options `tryLock` looks at. */
  datatype LockOpt = LockOpt(ttl: Time, identity: string)

  /**
   One stored lock document. `owner` and `gen` are history: the handle whose write
   created this version, and a number no other version ever gets.
   */
  datatype Rec = Rec(expires: Time, identity: string, owner: nat, gen: nat)

  /** The handle's own copy; `expires` keeps the nanoseconds the document loses. */
  datatype Detail = Detail(expires: Time, identity: string, gen: nat)

  /** The conditional writes: InsertOne, UpdateOne on the expiry that was read, DeleteOne. */
  datatype Command =
    | Nothing
    | Insert(opt: LockOpt, expires: Time)
    | Swap(opt: LockOpt, seen: Rec, expires: Time)
    | Delete(detail: Detail)

  /**
   Where a handle is: outside a call, between the read and the write of `tryLock`, with
   a write on its way, or dropped by its caller with a write that may still land.
   */
  datatype Pc =
    | Idle
    | Finding(opt: LockOpt)
    | Absent(opt: LockOpt)
    | Found(opt: LockOpt, seen: Rec)
    | Stale(opt: LockOpt, seen: Rec)
    | Sending(cmd: Command)
    | Dropped(cmd: Command)

  /** A plain handle, or one made by MutexDo with its context deadline. */
  datatype Mode = Plain | Scoped(ttl: Time, deadline: Time)

  datatype Handle = Handle(key: string, mode: Mode, detail: Option<Detail>, pc: Pc)

  datatype Sys = Sys(now: Time, store: map<string, Rec>, handles: map<nat, Handle>, nextGen: nat)

  const INIT := Sys(0, map[], map[], 0)

  /** The TTL index removes a document one second after its expiry. */
  const REAP_DELAY: Time := 1_000_000_000

  datatype Event =
    | Tick(d: Time)
    | Reap(key: string)
    | NewMutex(h: nat, key: string)
    | StartDo(h: nat, key: string, ttl: Time)
    | Begin(h: nat, opt: LockOpt)
    | FindOne(h: nat)
    | CheckExpiry(h: nat)
    | Stamp(h: nat)
    | BeginUnlock(h: nat)
    | Execute(h: nat)
    | Fail(h: nat)
    | Drop(h: nat)

  // ---------------------------------------------------------------- the server

  predicate SwapMatches(s: Sys, key: string, opt: LockOpt, seen: Rec, expires: Time) {
    && key in s.store
    && s.store[key].expires == seen.expires
    // ModifiedCount is zero when the update would change nothing
    && (s.store[key].expires != Trunc(expires) || s.store[key].identity != opt.identity)
  }

  /** Whether the server reports that a document was inserted, modified or deleted. */
  predicate Takes(s: Sys, key: string, cmd: Command) {
    match cmd
    case Nothing => false
    case Insert(_, _) => key !in s.store
    case Swap(opt, seen, expires) => SwapMatches(s, key, opt, seen, expires)
    case Delete(d) => key in s.store && s.store[key].expires == Trunc(d.expires)
  }

  function Apply(s: Sys, h: nat, key: string, cmd: Command): Sys {
    if !Takes(s, key, cmd) then s
    else if cmd.Delete? then s.(store := s.store - {key})
    else s.(store := s.store[key := Rec(Trunc(cmd.expires), cmd.opt.identity, h, s.nextGen)],
            nextGen := s.nextGen + 1)
  }

  // ---------------------------------------------------------------- the handle

  /** MutexDo locks with its own TTL and no identity. */
  predicate OptFits(m: Mode, opt: LockOpt) {
    m.Scoped? ==> opt == LockOpt(m.ttl, "")
  }

  /** The reading of the clock that decides what the found document means. */
  function AfterCheck(s: Sys, hd: Handle, opt: LockOpt, seen: Rec): Handle {
    if seen.expires < s.now then hd.(pc := Stale(opt, seen))
    else if opt.identity != "" && seen.identity == opt.identity then
      hd.(detail := Some(Detail(seen.expires, seen.identity, seen.gen)), pc := Idle)
    else hd.(pc := Idle)
  }

  /** MutexDo never uses its mutex again; a plain handle goes back to its caller. */
  function Return(hd: Handle, detail: Option<Detail>): Handle {
    if hd.mode.Scoped? && detail.None? then hd.(detail := None, pc := Dropped(Nothing))
    else hd.(detail := detail, pc := Idle)
  }

  /** Unlock forgets the lock only when a document was deleted. */
  function AfterReply(s: Sys, hd: Handle, cmd: Command): Handle {
    match cmd
    case Nothing => hd
    case Delete(_) => if hd.mode.Scoped? || Takes(s, hd.key, cmd) then Return(hd, None) else Return(hd, hd.detail)
    case _ =>
      if Takes(s, hd.key, cmd) then hd.(detail := Some(Detail(cmd.expires, cmd.opt.identity, s.nextGen)), pc := Idle)
      else hd.(detail := None, pc := Idle)
  }

  /** The command the server would execute next for this handle. */
  function InFlight(hd: Handle): Command {
    if hd.pc.Sending? || hd.pc.Dropped? then hd.pc.cmd else Nothing
  }

  function HandleAfter(s: Sys, hd: Handle, e: Event): Handle {
    match (e, hd.pc)
    case (Begin(_, opt), Idle) =>
      if hd.detail.None? && OptFits(hd.mode, opt) then hd.(pc := Finding(opt)) else hd
    case (FindOne(_), Finding(opt)) =>
      hd.(pc := if hd.key in s.store then Found(opt, s.store[hd.key]) else Absent(opt))
    case (CheckExpiry(_), Found(opt, seen)) => AfterCheck(s, hd, opt, seen)
    case (Stamp(_), Absent(opt)) => hd.(pc := Sending(Insert(opt, s.now + opt.ttl)))
    case (Stamp(_), Stale(opt, seen)) => hd.(pc := Sending(Swap(opt, seen, s.now + opt.ttl)))
    case (BeginUnlock(_), Idle) => if hd.detail.Some? then hd.(pc := Sending(Delete(hd.detail.value))) else hd
    case (Execute(_), Sending(cmd)) => AfterReply(s, hd, cmd)
    case (Execute(_), Dropped(_)) => hd.(pc := Dropped(Nothing))
    // a command that definitely failed: the call returns an error, the handle keeps its detail
    case (Fail(_), Idle) => hd
    case (Fail(_), Dropped(_)) => hd
    case (Fail(_), _) => Return(hd, if hd.mode.Scoped? then None else hd.detail)
    // the caller drops the mutex; whatever it had in flight may land later, or never
    case (Drop(_), _) => hd.(detail := None, pc := Dropped(InFlight(hd)))
    case _ => hd
  }

  function HandleStep(s: Sys, h: nat, hd: Handle, e: Event): Sys {
    var t := if e.Execute? then Apply(s, h, hd.key, InFlight(hd)) else s;
    t.(handles := s.handles[h := HandleAfter(s, hd, e)])
  }

  function Next(s: Sys, e: Event): Sys {
    match e
    case Tick(d) => s.(now := s.now + d)
    case Reap(key) =>
      if key in s.store && s.store[key].expires + REAP_DELAY < s.now then s.(store := s.store - {key}) else s
    case NewMutex(h, key) =>
      if h in s.handles then s else s.(handles := s.handles[h := Handle(key, Plain, None, Idle)])
    case StartDo(h, key, ttl) =>
      if h in s.handles then s
      else s.(handles := s.handles[h := Handle(key, Scoped(ttl, s.now + ttl), None, Idle)])
    case _ => if e.h in s.handles then HandleStep(s, e.h, s.handles[e.h], e) else s
  }

  function Run(s: Sys, evs: seq<Event>): Sys
    decreases |evs|
  {
    if evs == [] then s else Next(Run(s, evs[..|evs| - 1]), evs[|evs| - 1])
  }

  /** The handle an event belongs to. */
  function Actor(e: Event): Option<nat> {
    if e.Tick? || e.Reap? then None else Some(e.h)
  }

  // ---------------------------------------------------------------- every run

  /** The lease a handle claims: it is locked, or it was dropped with its own delete in flight. */
  function Claim(hd: Handle): Option<Detail> {
    if hd.detail.Some? then hd.detail
    else if hd.pc.Dropped? && hd.pc.cmd.Delete? then Some(hd.pc.cmd.detail)
    else None
  }

  /** The document version a handle is acting on. */
  function Seen(hd: Handle): Option<Rec> {
    if hd.pc.Found? || hd.pc.Stale? then Some(hd.pc.seen)
    else if InFlight(hd).Swap? then Some(InFlight(hd).seen)
    else None
  }

  function OptOf(hd: Handle): Option<LockOpt> {
    if hd.pc.Finding? || hd.pc.Absent? || hd.pc.Found? || hd.pc.Stale? then Some(hd.pc.opt)
    else if InFlight(hd).Insert? || InFlight(hd).Swap? then Some(InFlight(hd).opt)
    else None
  }

  /** Versions are numbered freshly, and what was read of a version is that version. */
  predicate Versions(s: Sys, hd: Handle) {
    && (Claim(hd).Some? ==> Claim(hd).value.gen < s.nextGen)
    && (Seen(hd).Some? ==> Seen(hd).value.gen < s.nextGen)
    && (Seen(hd).Some? && hd.key in s.store && s.store[hd.key].gen == Seen(hd).value.gen ==>
          Seen(hd).value == s.store[hd.key])
  }

  /** Program-order facts: a document judged expired stays expired, and commands match the call. */
  predicate Ordered(s: Sys, hd: Handle) {
    && (hd.pc.Stale? || InFlight(hd).Swap? ==> Seen(hd).value.expires < s.now)
    && (hd.detail.Some? ==> hd.pc.Idle? || hd.pc == Sending(Delete(hd.detail.value)))
    && (hd.pc.Sending? && hd.pc.cmd.Delete? ==> hd.detail == Some(hd.pc.cmd.detail))
    && (OptOf(hd).Some? ==> OptFits(hd.mode, OptOf(hd).value))
  }

  predicate Fresh(s: Sys) {
    forall k :: k in s.store ==> s.store[k].gen < s.nextGen
  }

  predicate Tidy(s: Sys) {
    && Fresh(s)
    && forall h :: h in s.handles ==> Versions(s, s.handles[h]) && Ordered(s, s.handles[h])
  }

  /** What any step may do to the collection: keep a version, remove it, or write a fresh one. */
  predicate Moves(s: Sys, t: Sys) {
    && s.now <= t.now
    && s.nextGen <= t.nextGen
    && forall k :: k in t.store ==>
         || (k in s.store && t.store[k] == s.store[k])
         || s.nextGen <= t.store[k].gen < t.nextGen
  }

  lemma StepMoves(s: Sys, e: Event)
    ensures Moves(s, Next(s, e))
    ensures Fresh(s) ==> Fresh(Next(s, e))
  {
  }

  lemma OthersUntouched(s: Sys, e: Event)
    ensures forall g :: g in s.handles && Actor(e) != Some(g) ==>
              g in Next(s, e).handles && Next(s, e).handles[g] == s.handles[g]
    ensures forall g :: g in Next(s, e).handles && Actor(e) != Some(g) ==> g in s.handles
  {
  }

  lemma Frame(s: Sys, t: Sys, hd: Handle)
    requires Versions(s, hd) && Ordered(s, hd) && Moves(s, t)
    ensures Versions(t, hd) && Ordered(t, hd)
  {
  }

  lemma OwnOrdered(s: Sys, hd: Handle, e: Event, t: Sys)
    requires Ordered(s, hd) && s.now == t.now
    ensures Ordered(t, HandleAfter(s, hd, e))
  {
  }

  lemma OwnVersions(s: Sys, h: nat, hd: Handle, e: Event)
    requires Versions(s, hd) && Ordered(s, hd) && Fresh(s)
    ensures Versions(HandleStep(s, h, hd, e), HandleAfter(s, hd, e))
  {
  }

  lemma TidyStep(s: Sys, e: Event)
    requires Tidy(s)
    ensures Tidy(Next(s, e))
  {
    var t := Next(s, e);
    StepMoves(s, e);
    OthersUntouched(s, e);
    forall g | g in t.handles ensures Versions(t, t.handles[g]) && Ordered(t, t.handles[g]) {
      if g in s.handles {
        Frame(s, t, s.handles[g]);
        if Actor(e) == Some(g) && !e.NewMutex? && !e.StartDo? {
          OwnVersions(s, g, s.handles[g], e);
          OwnOrdered(s, s.handles[g], e, t);
        }
      }
    }
  }

  lemma {:induction false} TidyRun(evs: seq<Event>)
    ensures Tidy(Run(INIT, evs))
    decreases |evs|
  {
    if evs != [] {
      TidyRun(evs[..|evs| - 1]);
      TidyStep(Run(INIT, evs[..|evs| - 1]), evs[|evs| - 1]);
    }
  }

  // ---------------------------------------------------------------- runs without identities on a key

  /** An attempt on `key` uses one of the identities `ids`; the empty one stands for none. */
  predicate Permits(ids: iset<string>, s: Sys, e: Event, key: string) {
    e.Begin? && e.h in s.handles && s.handles[e.h].key == key ==> e.opt.identity in ids
  }

  /** The runs in which all attempts on `key` use identities among `ids`, whatever happens on other keys. */
  predicate UsesOnly(ids: iset<string>, evs: seq<Event>, key: string)
    decreases |evs|
  {
    || evs == []
    || (UsesOnly(ids, evs[..|evs| - 1], key) && Permits(ids, Run(INIT, evs[..|evs| - 1]), evs[|evs| - 1], key))
  }

  const NONE := iset{""}

  /** The runs in which no call on `key` asks for reentrancy. */
  predicate Anonymous(evs: seq<Event>, key: string) {
    UsesOnly(NONE, evs, key)
  }

  lemma {:induction false} UsesOnlyPrefix(ids: iset<string>, evs: seq<Event>, key: string, k: nat)
    requires UsesOnly(ids, evs, key) && k <= |evs|
    ensures UsesOnly(ids, evs[..k], key)
    decreases |evs|
  {
    if k == |evs| {
      assert evs[..k] == evs;
    } else {
      assert evs[..|evs| - 1][..k] == evs[..k];
      UsesOnlyPrefix(ids, evs[..|evs| - 1], key, k);
    }
  }

  lemma {:induction false} UsesFewer(ids: iset<string>, more: iset<string>, evs: seq<Event>, key: string)
    requires UsesOnly(ids, evs, key) && ids <= more
    ensures UsesOnly(more, evs, key)
    decreases |evs|
  {
    if evs != [] {
      UsesFewer(ids, more, evs[..|evs| - 1], key);
    }
  }

  /** The handle's lease has not run out by the clock every client judges it with. */
  predicate Unexpired(s: Sys, hd: Handle) {
    Claim(hd).Some? && s.now <= Trunc(Claim(hd).value.expires)
  }

  /** The stored document is exactly the lease the handle claims. */
  predicate Owns(s: Sys, h: nat, hd: Handle) {
    && Claim(hd).Some?
    && hd.key in s.store
    && s.store[hd.key] == Rec(Trunc(Claim(hd).value.expires), "", h, Claim(hd).value.gen)
  }

  predicate Backed(s: Sys, h: nat, hd: Handle) {
    && (Unexpired(s, hd) ==> Owns(s, h, hd))
    && (OptOf(hd).Some? ==> OptOf(hd).value.identity == "")
  }

  predicate Exclusive(s: Sys, key: string) {
    forall h :: h in s.handles && s.handles[h].key == key ==> Backed(s, h, s.handles[h])
  }

  /** No command of another handle can disturb an unexpired lease. */
  lemma CommandSpares(s: Sys, a: nat, g: nat)
    requires a in s.handles && g in s.handles && a != g
    requires Tidy(s) && Exclusive(s, s.handles[g].key)
    requires Unexpired(s, s.handles[g])
    ensures s.handles[g].key in s.store
    ensures var t := Apply(s, a, s.handles[a].key, InFlight(s.handles[a]));
            s.handles[g].key in t.store && t.store[s.handles[g].key] == s.store[s.handles[g].key]
  {
    var ha, hg := s.handles[a], s.handles[g];
    assert Versions(s, ha) && Ordered(s, ha) && Backed(s, g, hg);
    if ha.key == hg.key && InFlight(ha).Delete? && Takes(s, ha.key, InFlight(ha)) {
      assert Backed(s, a, ha) && Claim(ha) == Some(InFlight(ha).detail);
      assert Unexpired(s, ha);
    }
  }

  lemma BackedOwn(s: Sys, h: nat, hd: Handle, e: Event)
    requires Backed(s, h, hd) && Ordered(s, hd) && (e.Begin? ==> e.opt.identity == "")
    ensures Backed(HandleStep(s, h, hd, e), h, HandleAfter(s, hd, e))
  {
  }

  lemma KeyKept(s: Sys, e: Event, g: nat)
    requires g in s.handles
    ensures g in Next(s, e).handles && Next(s, e).handles[g].key == s.handles[g].key
    ensures Next(s, e).handles[g].mode == s.handles[g].mode
  {
  }

  lemma BackedBystander(s: Sys, e: Event, g: nat)
    requires g in s.handles && Actor(e) != Some(g)
    requires Tidy(s) && Exclusive(s, s.handles[g].key)
    ensures Backed(Next(s, e), g, s.handles[g])
  {
    assert Versions(s, s.handles[g]) && Backed(s, g, s.handles[g]);
    if e.Execute? && e.h in s.handles && Unexpired(s, s.handles[g]) {
      CommandSpares(s, e.h, g);
    }
  }

  lemma ExclusiveStep(s: Sys, e: Event, key: string)
    requires Tidy(s) && Exclusive(s, key) && Permits(NONE, s, e, key)
    ensures Exclusive(Next(s, e), key)
  {
    var t := Next(s, e);
    OthersUntouched(s, e);
    forall g | g in t.handles && t.handles[g].key == key ensures Backed(t, g, t.handles[g]) {
      if g in s.handles {
        KeyKept(s, e, g);
        if Actor(e) != Some(g) {
          BackedBystander(s, e, g);
        } else if !e.NewMutex? && !e.StartDo? {
          assert Ordered(s, s.handles[g]) && Backed(s, g, s.handles[g]);
          BackedOwn(s, g, s.handles[g], e);
        } else {
          assert Backed(s, g, s.handles[g]) && t == s;
        }
      }
    }
  }

  lemma {:induction false} ExclusiveRun(evs: seq<Event>, key: string)
    requires Anonymous(evs, key)
    ensures Tidy(Run(INIT, evs)) && Exclusive(Run(INIT, evs), key)
    decreases |evs|
  {
    TidyRun(evs);
    if evs != [] {
      TidyRun(evs[..|evs| - 1]);
      ExclusiveRun(evs[..|evs| - 1], key);
      ExclusiveStep(Run(INIT, evs[..|evs| - 1]), evs[|evs| - 1], key);
    }
  }

  /** Locked, and the lease has not run out. */
  predicate Holds(s: Sys, h: nat) {
    h in s.handles && s.handles[h].detail.Some? && s.now <= Trunc(s.handles[h].detail.value.expires)
  }

  predicate HoldsKey(s: Sys, h: nat, key: string) {
    Holds(s, h) && s.handles[h].key == key
  }

  /**
   Mutual exclusion: in every interleaving at most one handle of a key holds an unexpired
   lease, and the stored document is exactly that lease.
   */
  lemma MutualExclusion(evs: seq<Event>, key: string, a: nat, b: nat)
    requires Anonymous(evs, key)
    requires HoldsKey(Run(INIT, evs), a, key) && HoldsKey(Run(INIT, evs), b, key)
    ensures a == b
    ensures var s := Run(INIT, evs);
            var d := s.handles[a].detail.value;
            key in s.store && s.store[key] == Rec(Trunc(d.expires), "", a, d.gen)
  {
    ExclusiveRun(evs, key);
    var s := Run(INIT, evs);
    assert Backed(s, a, s.handles[a]) && Backed(s, b, s.handles[b]);
  }

  /**
   A lock write leaves its handle locked exactly if it took effect; it then holds if its lease is
   still running, and nobody else on the key does.
   */
  lemma WinningWriteHolds(evs: seq<Event>, key: string, h: nat)
    requires Anonymous(evs, key) && h in Run(INIT, evs).handles && Run(INIT, evs).handles[h].key == key
    requires Run(INIT, evs).handles[h].pc.Sending?
    requires Run(INIT, evs).handles[h].pc.cmd.Insert? || Run(INIT, evs).handles[h].pc.cmd.Swap?
    ensures var s := Run(INIT, evs); var cmd, t := s.handles[h].pc.cmd, Next(s, Execute(h));
            && (t.handles[h].detail.Some? <==> Takes(s, key, cmd))
            && (Takes(s, key, cmd) && s.now <= Trunc(cmd.expires) ==> Holds(t, h))
            && (Takes(s, key, cmd) ==> forall g :: g != h ==> !HoldsKey(t, g, key))
  {
    ExclusiveRun(evs, key);
    var s := Run(INIT, evs);
    var t := Next(s, Execute(h));
    assert Ordered(s, s.handles[h]);
    OthersUntouched(s, Execute(h));
    forall g | g != h && HoldsKey(t, g, key) ensures !Takes(s, key, s.handles[h].pc.cmd) {
      assert Backed(s, g, s.handles[g]);
    }
  }

  // ---------------------------------------------------------------- the lease register

  function CellAt(s: Sys, key: string): LR.Cell<nat> {
    LR.Cell(s.now, if key in s.store then LR.Held(s.store[key].owner, s.store[key].expires) else LR.Free)
  }

  function Cells(evs: seq<Event>, key: string): seq<LR.Cell<nat>> {
    seq(|evs| + 1, i requires 0 <= i <= |evs| => CellAt(Run(INIT, evs[..i]), key))
  }

  function Actors(evs: seq<Event>): seq<Option<nat>> {
    seq(|evs|, i requires 0 <= i < |evs| => Actor(evs[i]))
  }

  lemma RunAt(evs: seq<Event>, k: nat)
    requires k < |evs|
    ensures Run(INIT, evs[..k + 1]) == Next(Run(INIT, evs[..k]), evs[k])
  {
    assert evs[..k + 1][..k] == evs[..k];
  }

  /** Every command either leaves the register alone or does what the register permits. */
  lemma RegisterStep(s: Sys, e: Event, key: string)
    requires Tidy(s) && Exclusive(s, key)
    ensures LR.Step(CellAt(s, key), Actor(e), CellAt(Next(s, e), key))
  {
    if e.Execute? && e.h in s.handles && s.handles[e.h].key == key {
      var hd := s.handles[e.h];
      assert Versions(s, hd) && Ordered(s, hd) && Backed(s, e.h, hd);
      if InFlight(hd).Delete? && Takes(s, key, InFlight(hd)) {
        assert Claim(hd) == Some(InFlight(hd).detail);
      }
    }
  }

  /** The mutex implements the lease register: one register per key, held by handles. */
  lemma RefinesRegister(evs: seq<Event>, key: string)
    requires Anonymous(evs, key)
    ensures LR.Legal(Cells(evs, key), Actors(evs))
  {
    forall i | 0 <= i < |evs|
      ensures LR.Step(Cells(evs, key)[i], Actors(evs)[i], Cells(evs, key)[i + 1])
    {
      UsesOnlyPrefix(NONE, evs, key, i);
      ExclusiveRun(evs[..i], key);
      RunAt(evs, i);
      RegisterStep(Run(INIT, evs[..i]), evs[i], key);
    }
  }

  /** The lock passes from one handle to another only after expiry or the first one's own Unlock. */
  lemma LockPassesOn(evs: seq<Event>, key: string, i: nat, j: nat, from: nat, to: nat)
    requires Anonymous(evs, key) && i < j <= |evs| && from != to
    requires LR.HeldBy(Cells(evs, key)[i], from) && LR.HeldBy(Cells(evs, key)[j], to)
    ensures exists k: nat :: i <= k < j && LR.TenureEnds(Cells(evs, key), Actors(evs), k, from)
  {
    RefinesRegister(evs, key);
    LR.Handover(Cells(evs, key), Actors(evs), i, j, from, to);
  }

  /**
   Unlock filters on key and expiry alone, yet neither it nor any late write can touch an
   unexpired document that another handle wrote, even one with an equal expiry.
   */
  lemma StaleCommandSpares(evs: seq<Event>, h: nat, key: string)
    requires Anonymous(evs, key)
    requires var s := Run(INIT, evs); key in s.store && s.now <= s.store[key].expires && s.store[key].owner != h
    ensures var s := Run(INIT, evs);
            key in Next(s, Execute(h)).store && Next(s, Execute(h)).store[key] == s.store[key]
  {
    ExclusiveRun(evs, key);
    var s := Run(INIT, evs);
    if h in s.handles && s.handles[h].key == key {
      var hd := s.handles[h];
      assert Versions(s, hd) && Ordered(s, hd) && Backed(s, h, hd);
      assert InFlight(hd).Delete? ==> Claim(hd) == Some(InFlight(hd).detail);
    }
  }

  // ---------------------------------------------------------------- reentrant sharing, in every run

  /** The handle is attached to the version that is stored now. */
  predicate Attached(s: Sys, h: nat) {
    && h in s.handles && s.handles[h].detail.Some?
    && s.handles[h].key in s.store
    && s.store[s.handles[h].key].gen == s.handles[h].detail.value.gen
  }

  /** An attached handle wrote the version itself or shares its identity. */
  predicate Entitled(s: Sys, h: nat) {
    Attached(s, h) ==>
      var d, r := s.handles[h].detail.value, s.store[s.handles[h].key];
      d.identity == r.identity && (r.owner == h || d.identity != "")
  }

  predicate AllEntitled(s: Sys) {
    forall h :: h in s.handles ==> Entitled(s, h)
  }

  lemma EntitledOwn(s: Sys, h: nat, e: Event)
    requires Tidy(s) && h in s.handles && Entitled(s, h) && Actor(e) == Some(h)
    ensures Entitled(Next(s, e), h)
  {
    assert Versions(s, s.handles[h]) && Ordered(s, s.handles[h]);
    StepMoves(s, e);
  }

  lemma EntitledStep(s: Sys, e: Event)
    requires Tidy(s) && AllEntitled(s)
    ensures AllEntitled(Next(s, e))
  {
    StepMoves(s, e);
    OthersUntouched(s, e);
    forall g | g in Next(s, e).handles ensures Entitled(Next(s, e), g) {
      if g in s.handles {
        assert Versions(s, s.handles[g]) && Entitled(s, g);
        if Actor(e) == Some(g) { EntitledOwn(s, g, e); }
      }
    }
  }

  lemma {:induction false} EntitledRun(evs: seq<Event>)
    ensures AllEntitled(Run(INIT, evs))
    decreases |evs|
  {
    if evs != [] {
      EntitledRun(evs[..|evs| - 1]);
      TidyRun(evs[..|evs| - 1]);
      EntitledStep(Run(INIT, evs[..|evs| - 1]), evs[|evs| - 1]);
    }
  }

  /** Handles sharing the stored version are one handle, or carry one non-empty identity. */
  lemma SharedOnlyByIdentity(evs: seq<Event>, a: nat, b: nat)
    requires Attached(Run(INIT, evs), a) && Attached(Run(INIT, evs), b)
    requires Run(INIT, evs).handles[a].key == Run(INIT, evs).handles[b].key
    ensures var s := Run(INIT, evs);
            || a == b
            || (s.handles[a].detail.value.identity == s.handles[b].detail.value.identity != "")
  {
    EntitledRun(evs);
    var s := Run(INIT, evs);
    assert Entitled(s, a) && Entitled(s, b);
  }

  lemma {:induction false} VersionNeverReturns(s: Sys, evs: seq<Event>, key: string, gen: nat)
    requires gen < s.nextGen && (key in s.store ==> s.store[key].gen != gen)
    ensures gen < Run(s, evs).nextGen
    ensures key in Run(s, evs).store ==> Run(s, evs).store[key].gen != gen
    decreases |evs|
  {
    if evs != [] {
      VersionNeverReturns(s, evs[..|evs| - 1], key, gen);
      StepMoves(Run(s, evs[..|evs| - 1]), evs[|evs| - 1]);
    }
  }

  /** One successful Unlock ends the version for every handle attached to it, for good. */
  lemma UnlockEndsSharing(evs: seq<Event>, h: nat, later: seq<Event>, sibling: nat)
    requires h in Run(INIT, evs).handles && InFlight(Run(INIT, evs).handles[h]).Delete?
    requires Takes(Run(INIT, evs), Run(INIT, evs).handles[h].key, InFlight(Run(INIT, evs).handles[h]))
    requires Attached(Run(INIT, evs), sibling)
    requires Run(INIT, evs).handles[sibling].key == Run(INIT, evs).handles[h].key
    ensures var s := Run(INIT, evs);
            var key, gen := s.handles[h].key, s.handles[sibling].detail.value.gen;
            var t := Run(Next(s, Execute(h)), later);
            key in t.store ==> t.store[key].gen != gen
  {
    TidyRun(evs);
    var s := Run(INIT, evs);
    assert Versions(s, s.handles[sibling]);
    VersionNeverReturns(Next(s, Execute(h)), later, s.handles[h].key, s.handles[sibling].detail.value.gen);
  }

  // ---------------------------------------------------------------- uncontended calls

  /** The identities allowed on a key. */
  datatype Use = Use(key: string, ids: iset<string>)

  /** Some run that keeps to `u` leads here. */
  ghost predicate Reachable(s: Sys, u: Use) {
    exists evs: seq<Event> :: Run(INIT, evs) == s && UsesOnly(u.ids, evs, u.key)
  }

  lemma ReachNext(s: Sys, e: Event, u: Use)
    requires Reachable(s, u) && Permits(u.ids, s, e, u.key)
    ensures Reachable(Next(s, e), u)
  {
    var evs: seq<Event> :| Run(INIT, evs) == s && UsesOnly(u.ids, evs, u.key);
    assert (evs + [e])[..|evs|] == evs;
    assert Run(INIT, evs + [e]) == Next(s, e);
  }

  lemma ReachInit(u: Use)
    ensures Reachable(INIT, u)
  {
    assert Run(INIT, []) == INIT;
  }

  predicate Ready(s: Sys, h: nat, opt: LockOpt) {
    && h in s.handles && s.handles[h].pc.Idle? && s.handles[h].detail.None?
    && OptFits(s.handles[h].mode, opt)
  }

  function With(s: Sys, h: nat, hd: Handle): Sys {
    s.(handles := s.handles[h := hd])
  }

  /** The state after `h` won the lock in `s`, by insert or by swap. */
  function Won(s: Sys, h: nat, opt: LockOpt): Sys
    requires h in s.handles
  {
    var d := Detail(s.now + opt.ttl, opt.identity, s.nextGen);
    With(s, h, s.handles[h].(detail := Some(d)))
      .(store := s.store[s.handles[h].key := Rec(Trunc(s.now + opt.ttl), opt.identity, h, s.nextGen)],
        nextGen := s.nextGen + 1)
  }

  /** A step that sends nothing to the server changes its own handle only. */
  lemma LocalStep(s: Sys, h: nat, hd: Handle, e: Event)
    requires Actor(e) == Some(h) && !e.Execute? && !e.NewMutex? && !e.StartDo?
    ensures Next(With(s, h, hd), e) == With(s, h, HandleAfter(s, hd, e))
  {
    assert HandleAfter(With(s, h, hd), hd, e) == HandleAfter(s, hd, e);
  }

  /** The winning write lands on the state the attempt began in. */
  lemma WriteStep(s: Sys, h: nat, opt: LockOpt, cmd: Command)
    requires Ready(s, h, opt) && Takes(s, s.handles[h].key, cmd)
    requires (cmd.Insert? || cmd.Swap?) && cmd.opt == opt && cmd.expires == s.now + opt.ttl
    ensures Next(With(s, h, s.handles[h].(pc := Sending(cmd))), Execute(h)) == Won(s, h, opt)
  {
    var t := With(s, h, s.handles[h].(pc := Sending(cmd)));
    assert t.handles[h := Won(s, h, opt).handles[h]] == Won(s, h, opt).handles;
  }

  lemma ReachTwo(s: Sys, a: Event, b: Event, u: Use)
    requires Reachable(s, u) && Permits(u.ids, s, a, u.key) && !b.Begin?
    ensures Reachable(Next(Next(s, a), b), u)
  {
    ReachNext(s, a, u);
    ReachNext(Next(s, a), b, u);
  }

  lemma ReachFour(s: Sys, a: Event, b: Event, c: Event, d: Event, u: Use)
    requires Reachable(s, u) && Permits(u.ids, s, a, u.key) && !b.Begin? && !c.Begin? && !d.Begin?
    ensures Reachable(Next(Next(Next(Next(s, a), b), c), d), u)
  {
    ReachTwo(s, a, b, u);
    ReachTwo(Next(Next(s, a), b), c, d, u);
  }

  /** Alone, TryLock on a free key wins. */
  lemma InsertWins(s: Sys, h: nat, opt: LockOpt, u: Use)
    requires Ready(s, h, opt) && s.handles[h].key !in s.store
    requires Reachable(s, u) && opt.identity in u.ids
    ensures Reachable(Won(s, h, opt), u)
  {
    InsertSteps(s, h, opt);
    ReachFour(s, Begin(h, opt), FindOne(h), Stamp(h), Execute(h), u);
  }

  lemma InsertSteps(s: Sys, h: nat, opt: LockOpt)
    requires Ready(s, h, opt) && s.handles[h].key !in s.store
    ensures Next(Next(Next(Next(s, Begin(h, opt)), FindOne(h)), Stamp(h)), Execute(h)) == Won(s, h, opt)
  {
    var hd := s.handles[h];
    assert s == With(s, h, hd);
    LocalStep(s, h, hd, Begin(h, opt));
    LocalStep(s, h, hd.(pc := Finding(opt)), FindOne(h));
    LocalStep(s, h, hd.(pc := Absent(opt)), Stamp(h));
    WriteStep(s, h, opt, Insert(opt, s.now + opt.ttl));
  }

  lemma FindSteps(s: Sys, h: nat, opt: LockOpt)
    requires Ready(s, h, opt) && s.handles[h].key in s.store
    ensures Next(Next(s, Begin(h, opt)), FindOne(h)) ==
            With(s, h, s.handles[h].(pc := Found(opt, s.store[s.handles[h].key])))
  {
    assert s == With(s, h, s.handles[h]);
    LocalStep(s, h, s.handles[h], Begin(h, opt));
    LocalStep(s, h, s.handles[h].(pc := Finding(opt)), FindOne(h));
  }

  /** An expired document was read and judged, and the expiry stamped. */
  function Swapping(s: Sys, h: nat, opt: LockOpt): Handle
    requires h in s.handles && s.handles[h].key in s.store
  {
    s.handles[h].(pc := Sending(Swap(opt, s.store[s.handles[h].key], s.now + opt.ttl)))
  }

  lemma StaleSteps(s: Sys, h: nat, opt: LockOpt)
    requires Ready(s, h, opt) && s.handles[h].key in s.store && s.store[s.handles[h].key].expires < s.now
    ensures var found := With(s, h, s.handles[h].(pc := Found(opt, s.store[s.handles[h].key])));
            Next(Next(found, CheckExpiry(h)), Stamp(h)) == With(s, h, Swapping(s, h, opt))
  {
    var hd, seen := s.handles[h], s.store[s.handles[h].key];
    LocalStep(s, h, hd.(pc := Found(opt, seen)), CheckExpiry(h));
    LocalStep(s, h, hd.(pc := Stale(opt, seen)), Stamp(h));
  }

  lemma ReachSwapping(s: Sys, h: nat, opt: LockOpt, u: Use)
    requires Ready(s, h, opt) && s.handles[h].key in s.store && s.store[s.handles[h].key].expires < s.now
    requires Reachable(s, u) && opt.identity in u.ids
    ensures Reachable(With(s, h, Swapping(s, h, opt)), u)
  {
    FindSteps(s, h, opt);
    StaleSteps(s, h, opt);
    ReachFour(s, Begin(h, opt), FindOne(h), CheckExpiry(h), Stamp(h), u);
  }

  /** Alone, TryLock on an expired lock wins, given a TTL of at least a millisecond. */
  lemma SwapWins(s: Sys, h: nat, opt: LockOpt, u: Use)
    requires Ready(s, h, opt) && s.handles[h].key in s.store
    requires s.store[s.handles[h].key].expires < s.now && MS <= opt.ttl
    requires Reachable(s, u) && opt.identity in u.ids
    ensures Reachable(Won(s, h, opt), u)
  {
    ReachSwapping(s, h, opt, u);
    assert s.now < Trunc(s.now + opt.ttl);
    WriteStep(s, h, opt, Swapping(s, h, opt).pc.cmd);
    ReachNext(With(s, h, Swapping(s, h, opt)), Execute(h), u);
  }

  /**
   An attempt can be refused although the key is held by nobody throughout: the expired
   document it read is reaped before its swap arrives.
   */
  lemma SpuriousRefusal(s: Sys, h: nat, opt: LockOpt, u: Use) returns (w: Sys)
    requires Ready(s, h, opt) && Reachable(s, u) && opt.identity in u.ids
    requires s.handles[h].key in s.store && s.store[s.handles[h].key].expires + REAP_DELAY < s.now
    ensures Reachable(w, u) && s.handles[h].key !in w.store
    ensures h in w.handles && w.handles[h] == Swapping(s, h, opt) && Next(w, Execute(h)).handles[h] == s.handles[h]
  {
    var key, sending := s.handles[h].key, With(s, h, Swapping(s, h, opt));
    ReachSwapping(s, h, opt, u);
    ReachNext(sending, Reap(key), u);
    w := sending.(store := s.store - {key});
    assert Next(sending, Reap(key)) == w;
  }

  /** A call with the stored identity attaches to the stored version. */
  lemma AttachWins(s: Sys, h: nat, opt: LockOpt, u: Use)
    requires Ready(s, h, opt) && s.handles[h].key in s.store && opt.identity != ""
    requires Reachable(s, u) && opt.identity in u.ids
    requires s.now <= s.store[s.handles[h].key].expires && s.store[s.handles[h].key].identity == opt.identity
    ensures var r := s.store[s.handles[h].key];
            Reachable(With(s, h, s.handles[h].(detail := Some(Detail(r.expires, r.identity, r.gen)))), u)
  {
    var found := With(s, h, s.handles[h].(pc := Found(opt, s.store[s.handles[h].key])));
    FindSteps(s, h, opt);
    ReachTwo(s, Begin(h, opt), FindOne(h), u);
    LocalStep(s, h, found.handles[h], CheckExpiry(h));
    ReachNext(found, CheckExpiry(h), u);
  }

  /** Unlock removes whatever document has the remembered expiry. */
  lemma UnlockWins(s: Sys, h: nat, u: Use)
    requires h in s.handles && s.handles[h].mode.Plain? && s.handles[h].pc.Idle? && s.handles[h].detail.Some?
    requires s.handles[h].key in s.store && Reachable(s, u)
    requires s.store[s.handles[h].key].expires == Trunc(s.handles[h].detail.value.expires)
    ensures Reachable(With(s, h, s.handles[h].(detail := None)).(store := s.store - {s.handles[h].key}), u)
  {
    UnlockSteps(s, h);
    ReachTwo(s, BeginUnlock(h), Execute(h), u);
  }

  lemma UnlockSteps(s: Sys, h: nat)
    requires h in s.handles && s.handles[h].mode.Plain? && s.handles[h].pc.Idle? && s.handles[h].detail.Some?
    requires s.handles[h].key in s.store
    requires s.store[s.handles[h].key].expires == Trunc(s.handles[h].detail.value.expires)
    ensures Next(Next(s, BeginUnlock(h)), Execute(h)) ==
            With(s, h, s.handles[h].(detail := None)).(store := s.store - {s.handles[h].key})
  {
    var hd := s.handles[h];
    assert s == With(s, h, hd);
    LocalStep(s, h, hd, BeginUnlock(h));
    var t := With(s, h, hd.(pc := Sending(Delete(hd.detail.value))));
    assert Next(t, Execute(h)) == With(s, h, hd.(detail := None)).(store := s.store - {hd.key});
  }

  // ---------------------------------------------------------------- which identities may meet on a key

  /** One handle, or two that carry one non-empty identity. */
  predicate OneParty(s: Sys, a: nat, b: nat)
    requires Holds(s, a) && Holds(s, b)
  {
    a == b || s.handles[a].detail.value.identity == s.handles[b].detail.value.identity != ""
  }

  /** In every run that keeps to `u`, the unexpired leases on the key belong to one party. */
  ghost predicate Excludes(u: Use) {
    forall s, a, b :: Reachable(s, u) && HoldsKey(s, a, u.key) && HoldsKey(s, b, u.key) ==> OneParty(s, a, b)
  }

  /** No identity meets another one, nor an attempt without identity. */
  ghost predicate Unmixed(ids: iset<string>) {
    forall x, y :: x in ids && y in ids && x != "" ==> x == y
  }

  predicate Labelled(ids: iset<string>, hd: Handle) {
    && (OptOf(hd).Some? ==> OptOf(hd).value.identity in ids)
    && (hd.detail.Some? ==> hd.detail.value.identity in ids)
  }

  lemma LabelledOwn(ids: iset<string>, s: Sys, hd: Handle, e: Event)
    requires Labelled(ids, hd) && (e.Begin? ==> e.opt.identity in ids)
    ensures Labelled(ids, HandleAfter(s, hd, e))
  {
  }

  lemma {:induction false} LabelledRun(ids: iset<string>, evs: seq<Event>, key: string, h: nat)
    requires UsesOnly(ids, evs, key) && h in Run(INIT, evs).handles && Run(INIT, evs).handles[h].key == key
    ensures Labelled(ids, Run(INIT, evs).handles[h])
    decreases |evs|
  {
    if evs != [] {
      var s, e := Run(INIT, evs[..|evs| - 1]), evs[|evs| - 1];
      OthersUntouched(s, e);
      if h in s.handles {
        KeyKept(s, e, h);
        LabelledRun(ids, evs[..|evs| - 1], key, h);
        if Actor(e) == Some(h) && !e.NewMutex? && !e.StartDo? {
          LabelledOwn(ids, s, s.handles[h], e);
        }
      }
    }
  }

  /** Exclusion holds on a key exactly if the identities used on it do not mix. */
  lemma ExcludesIff(u: Use)
    ensures Excludes(u) <==> Unmixed(u.ids)
  {
    if Unmixed(u.ids) {
      forall s, a, b | Reachable(s, u) && HoldsKey(s, a, u.key) && HoldsKey(s, b, u.key) ensures OneParty(s, a, b) {
        var evs: seq<Event> :| Run(INIT, evs) == s && UsesOnly(u.ids, evs, u.key);
        UnmixedExcludes(u, evs, a, b);
      }
    } else {
      var x, y :| x in u.ids && y in u.ids && x != "" && x != y;
      var s := MixedRun(u, x, y);
      assert HoldsKey(s, 3, u.key) && HoldsKey(s, 4, u.key) && !OneParty(s, 3, 4);
    }
  }

  lemma UnmixedExcludes(u: Use, evs: seq<Event>, a: nat, b: nat)
    requires Unmixed(u.ids) && UsesOnly(u.ids, evs, u.key)
    requires HoldsKey(Run(INIT, evs), a, u.key) && HoldsKey(Run(INIT, evs), b, u.key)
    ensures OneParty(Run(INIT, evs), a, b)
  {
    LabelledRun(u.ids, evs, u.key, a);
    LabelledRun(u.ids, evs, u.key, b);
    var d := Run(INIT, evs).handles[a].detail.value;
    if d.identity == "" {
      assert u.ids <= NONE;
      UsesFewer(u.ids, NONE, evs, u.key);
      MutualExclusion(evs, u.key, a, b);
    }
  }

  predicate Are(s: Sys, hs: set<nat>, hd: Handle) {
    forall h :: h in hs ==> h in s.handles && s.handles[h] == hd
  }

  /** Two handles share a lock by identity. */
  lemma SharedLock(u: Use, x: string) returns (s: Sys)
    requires x in u.ids && x != ""
    ensures Reachable(s, u) && s.now == 0 && Are(s, {3, 4}, Blank(u.key))
    ensures Are(s, {1, 2}, Blank(u.key).(detail := Some(Detail(2 * MS, x, 0))))
    ensures u.key in s.store && s.store[u.key].expires == 2 * MS
  {
    var s0 := FourHandles(u);
    InsertWins(s0, 1, LockOpt(2 * MS, x), u);
    var s1 := Won(s0, 1, LockOpt(2 * MS, x));
    AttachWins(s1, 2, LockOpt(2 * MS, x), u);
    s := With(s1, 2, Blank(u.key).(detail := Some(Detail(2 * MS, x, 0))));
  }

  /** A reentrant handle keeps a copy of an expiry after its sibling has unlocked. */
  lemma CopyKept(u: Use, x: string) returns (s: Sys)
    requires x in u.ids && x != ""
    ensures Reachable(s, u) && s.now == 0 && u.key !in s.store && Are(s, {3, 4}, Blank(u.key))
    ensures Are(s, {2}, Blank(u.key).(detail := Some(Detail(2 * MS, x, 0))))
  {
    var s2 := SharedLock(u, x);
    UnlockWins(s2, 1, u);
    s := With(s2, 1, Blank(u.key)).(store := s2.store - {u.key});
  }

  /**
   How mixing breaks it: the copy can delete a stranger's unexpired lock written in the same
   millisecond, and somebody else then locks too.
   */
  lemma MixedRun(u: Use, x: string, y: string) returns (s: Sys)
    requires x in u.ids && y in u.ids && x != "" && x != y
    ensures Reachable(s, u) && HoldsKey(s, 3, u.key) && HoldsKey(s, 4, u.key)
    ensures s.handles[3].detail.value.identity == y && s.handles[4].detail.value.identity == x
  {
    var mine, theirs, hd := LockOpt(2 * MS, x), LockOpt(2 * MS, y), Blank(u.key);
    var s3 := CopyKept(u, x);
    InsertWins(s3, 3, theirs, u);
    var s4 := Won(s3, 3, theirs);
    UnlockWins(s4, 2, u);
    var s5 := With(s4, 2, hd).(store := s4.store - {u.key});
    InsertWins(s5, 4, mine, u);
    s := Won(s5, 4, mine);
  }

  function Blank(key: string): Handle {
    Handle(key, Plain, None, Idle)
  }

  lemma FourHandles(u: Use) returns (s: Sys)
    ensures Reachable(s, u) && s.now == 0 && u.key !in s.store && s.nextGen == 0 && Are(s, {1, 2, 3, 4}, Blank(u.key))
  {
    ReachInit(u);
    ReachFour(INIT, NewMutex(1, u.key), NewMutex(2, u.key), NewMutex(3, u.key), NewMutex(4, u.key), u);
    s := Next(Next(Next(Next(INIT, NewMutex(1, u.key)), NewMutex(2, u.key)), NewMutex(3, u.key)), NewMutex(4, u.key));
  }
}
