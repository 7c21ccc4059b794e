/**
 The Redis mutex as a transition system. SETNX, GET and the compare-and-delete script are
 one atomic step each; an entry whose time has passed is invisible to all of them. A call
 may be dropped with its command still in flight.
 */
module RedisMutex {
  import opened Common
  import LR = LeaseRegister

  datatype LockOpt = LockOpt(ttl: Time, identity: string)

  /**
   What is stored under the lock's key: a token made of the time and the process's own
   counter, or the identity the caller gave. Processes never make equal tokens and no
   identity looks like a token.
   */
  datatype Value = Token(pid: nat, nanos: Time, number: nat) | Ident(name: string)

  /** `owner` and `gen` are history: the handle that set the entry, and its fresh number. */
  datatype Entry = Entry(value: Value, until: Time, owner: nat, gen: nat)

  datatype Command = Nothing | SetNX(opt: LockOpt, value: Value) | Get(opt: LockOpt) | DeleteIf(value: Value)

  datatype Pc = Idle | Sending(cmd: Command) | Dropped(cmd: Command)

  datatype Mode = Plain | Scoped(ttl: Time, deadline: Time)

  /** The lock a handle remembers; `until` is history, the end of the lease it was granted. */
  datatype Lock = Lock(value: Value, until: Time)

  datatype Handle = Handle(pid: nat, key: string, mode: Mode, held: Option<Lock>, pc: Pc)

  datatype Sys = Sys(now: Time, store: map<string, Entry>, handles: map<nat, Handle>, seqs: map<nat, nat>, nextGen: nat)

  const INIT := Sys(0, map[], map[], map[], 0)

  datatype Event =
    | Tick(d: Time)
    | NewMutex(h: nat, pid: nat, key: string)
    | StartDo(h: nat, pid: nat, key: string, ttl: Time)
    | Begin(h: nat, opt: LockOpt)
    | BeginUnlock(h: nat)
    | Execute(h: nat)
    | Fail(h: nat)
    | Drop(h: nat)

  // ---------------------------------------------------------------- the server

  predicate Live(s: Sys, key: string) {
    key in s.store && s.now <= s.store[key].until
  }

  predicate Takes(s: Sys, key: string, cmd: Command) {
    match cmd
    case SetNX(_, _) => !Live(s, key)
    case DeleteIf(v) => Live(s, key) && s.store[key].value == v
    case _ => false
  }

  function Apply(s: Sys, h: nat, key: string, cmd: Command): Sys {
    if !Takes(s, key, cmd) then s
    else if cmd.DeleteIf? then s.(store := s.store - {key})
    else s.(store := s.store[key := Entry(cmd.value, s.now + StoredTTL(cmd.opt.ttl), h, s.nextGen)],
            nextGen := s.nextGen + 1)
  }

  // ---------------------------------------------------------------- the handle

  function Counter(s: Sys, pid: nat): nat {
    if pid in s.seqs then s.seqs[pid] else 0
  }

  /** NewLockOption leaves no TTL that is not positive; MutexDo locks with its own TTL and no identity. */
  predicate OptFits(m: Mode, opt: LockOpt) {
    opt.ttl > 0 && (m.Scoped? ==> opt == LockOpt(m.ttl, ""))
  }

  /** The value a new attempt sets: the identity, or a token with the next counter value. */
  function NextValue(s: Sys, pid: nat, opt: LockOpt): Value {
    if opt.identity != "" then Ident(opt.identity) else Token(pid, s.now, Counter(s, pid) + 1)
  }

  function Return(hd: Handle, held: Option<Lock>): Handle {
    if hd.mode.Scoped? && held.None? then hd.(held := None, pc := Dropped(Nothing))
    else hd.(held := held, pc := Idle)
  }

  function AfterReply(s: Sys, hd: Handle, cmd: Command): Handle {
    match cmd
    case Nothing => hd
    case SetNX(opt, v) =>
      if Takes(s, hd.key, cmd) then hd.(held := Some(Lock(v, s.now + StoredTTL(opt.ttl))), pc := Idle)
      else if opt.identity == "" then hd.(held := None, pc := Idle)
      else hd.(pc := Sending(Get(opt)))
    case Get(opt) =>
      if Live(s, hd.key) && s.store[hd.key].value == Ident(opt.identity)
      then hd.(held := Some(Lock(Ident(opt.identity), s.store[hd.key].until)), pc := Idle)
      else hd.(held := None, pc := Idle)
    case DeleteIf(_) =>
      if hd.mode.Scoped? || Takes(s, hd.key, cmd) then Return(hd, None) else Return(hd, hd.held)
  }

  function InFlight(hd: Handle): Command {
    if hd.pc.Idle? then Nothing else hd.pc.cmd
  }

  predicate Starts(hd: Handle, e: Event) {
    e.Begin? && hd.pc.Idle? && hd.held.None? && OptFits(hd.mode, e.opt)
  }

  function HandleAfter(s: Sys, hd: Handle, e: Event): Handle {
    match (e, hd.pc)
    case (Begin(_, opt), _) =>
      if Starts(hd, e) then hd.(pc := Sending(SetNX(opt, NextValue(s, hd.pid, opt)))) else hd
    case (BeginUnlock(_), Idle) => if hd.held.Some? then hd.(pc := Sending(DeleteIf(hd.held.value.value))) else hd
    case (Execute(_), Sending(cmd)) => AfterReply(s, hd, cmd)
    case (Execute(_), Dropped(_)) => hd.(pc := Dropped(Nothing))
    case (Fail(_), Sending(_)) => Return(hd, if hd.mode.Scoped? then None else hd.held)
    case (Drop(_), _) => hd.(held := None, pc := Dropped(InFlight(hd)))
    case _ => hd
  }

  function HandleStep(s: Sys, h: nat, hd: Handle, e: Event): Sys {
    var t := if e.Execute? then Apply(s, h, hd.key, InFlight(hd)) else s;
    t.(handles := s.handles[h := HandleAfter(s, hd, e)],
       // only an attempt without identity draws a token
       seqs := if Starts(hd, e) && e.opt.identity == "" then s.seqs[hd.pid := Counter(s, hd.pid) + 1] else s.seqs)
  }

  function Next(s: Sys, e: Event): Sys {
    match e
    case Tick(d) => s.(now := s.now + d)
    case NewMutex(h, pid, key) =>
      if h in s.handles then s else s.(handles := s.handles[h := Handle(pid, key, Plain, None, Idle)])
    case StartDo(h, pid, key, ttl) =>
      if h in s.handles then s
      else s.(handles := s.handles[h := Handle(pid, key, Scoped(ttl, s.now + ttl), None, Idle)])
    case _ => if e.h in s.handles then HandleStep(s, e.h, s.handles[e.h], e) else s
  }

  function Run(s: Sys, evs: seq<Event>): Sys
    decreases |evs|
  {
    if evs == [] then s else Next(Run(s, evs[..|evs| - 1]), evs[|evs| - 1])
  }

  function Actor(e: Event): Option<nat> {
    if e.Tick? then None else Some(e.h)
  }

  // ---------------------------------------------------------------- tokens

  /** The value a handle would set or delete. */
  function ValueOf(hd: Handle): Option<Value> {
    if hd.held.Some? then Some(hd.held.value.value)
    else if InFlight(hd).SetNX? || InFlight(hd).DeleteIf? then Some(InFlight(hd).value)
    else None
  }

  predicate HasToken(hd: Handle) {
    ValueOf(hd).Some? && ValueOf(hd).value.Token?
  }

  predicate Issued(s: Sys, v: Value) {
    v.Token? ==> v.number <= Counter(s, v.pid)
  }

  /** The lease a MutexDo call was granted is not shorter than its TTL as stored, counted from the call's start. */
  predicate Leased(m: Mode, until: Time)
    requires m.Scoped?
  {
    m.deadline + StoredTTL(m.ttl) <= until + m.ttl
  }

  /** Local facts: tokens were drawn from the counter, and a delete carries the remembered value. */
  predicate Sane(s: Sys, hd: Handle) {
    && (ValueOf(hd).Some? ==> Issued(s, ValueOf(hd).value))
    && (hd.held.Some? ==> hd.pc.Idle? || hd.pc == Sending(DeleteIf(hd.held.value.value)))
    && (hd.pc.Sending? && hd.pc.cmd.DeleteIf? ==> hd.held.Some?)
    && (InFlight(hd).SetNX? ==> OptFits(hd.mode, InFlight(hd).opt))
    && (InFlight(hd).SetNX? ==> InFlight(hd).value.Ident? == (InFlight(hd).opt.identity != ""))
    && (InFlight(hd).SetNX? && InFlight(hd).value.Ident? ==> InFlight(hd).value.name == InFlight(hd).opt.identity)
    && (InFlight(hd).Get? ==> InFlight(hd).opt.identity != "" && hd.mode.Plain?)
    && (ValueOf(hd).Some? && ValueOf(hd).value.Ident? ==> ValueOf(hd).value.name != "" && hd.mode.Plain?)
    && (hd.mode.Scoped? ==> hd.mode.deadline <= s.now + hd.mode.ttl)
    && (hd.mode.Scoped? && hd.held.Some? ==> Leased(hd.mode, hd.held.value.until))
  }

  /** No two handles ever work with the same token. */
  predicate Distinct(s: Sys) {
    forall a, b :: a in s.handles && b in s.handles && a != b && HasToken(s.handles[a]) ==>
      ValueOf(s.handles[a]) != ValueOf(s.handles[b])
  }

  /** A stored token is known to the handle that set it, if to anybody. */
  predicate LabelOk(s: Sys, en: Entry) {
    && Issued(s, en.value) && en.gen < s.nextGen
    && (en.value.Token? ==> forall h :: h in s.handles && ValueOf(s.handles[h]) == Some(en.value) ==> h == en.owner)
  }

  predicate Labelled(s: Sys) {
    forall k :: k in s.store ==> LabelOk(s, s.store[k])
  }

  /** The lease of a handle that locked without identity is stored as long as it runs. */
  predicate Kept(s: Sys, h: nat, hd: Handle) {
    hd.held.Some? && hd.held.value.value.Token? && s.now <= hd.held.value.until ==>
      && hd.key in s.store
      && s.store[hd.key].value == hd.held.value.value
      && s.store[hd.key].until == hd.held.value.until
      && s.store[hd.key].owner == h
  }

  predicate Inv(s: Sys) {
    && (forall h :: h in s.handles ==> Sane(s, s.handles[h]) && Kept(s, h, s.handles[h]))
    && Distinct(s)
    && Labelled(s)
  }

  lemma OthersUntouched(s: Sys, e: Event)
    ensures forall g :: g in s.handles && Actor(e) != Some(g) ==>
              g in Next(s, e).handles && Next(s, e).handles[g] == s.handles[g]
    ensures forall g :: g in Next(s, e).handles && Actor(e) != Some(g) ==> g in s.handles
    ensures s.now <= Next(s, e).now && s.nextGen <= Next(s, e).nextGen
    ensures forall p :: Counter(s, p) <= Counter(Next(s, e), p)
  {
  }

  lemma SaneOwn(s: Sys, h: nat, hd: Handle, e: Event)
    requires Sane(s, hd)
    ensures Sane(HandleStep(s, h, hd, e), HandleAfter(s, hd, e))
  {
  }

  /** A step either keeps the handle's value, forgets it, takes an identity, or draws a fresh token. */
  lemma ValueMoves(s: Sys, hd: Handle, e: Event)
    requires Sane(s, hd)
    ensures var v := ValueOf(HandleAfter(s, hd, e));
            || v.None? || v == ValueOf(hd) || v.value.Ident?
            || (Starts(hd, e) && v == Some(Token(hd.pid, s.now, Counter(s, hd.pid) + 1)))
  {
  }

  /** The acting handle comes to no token another handle works with. */
  lemma NoTokenShared(s: Sys, e: Event, g: nat)
    requires Inv(s) && g in s.handles && Actor(e).Some? && e.h in s.handles && g != e.h
    ensures var t := Next(s, e);
            && e.h in t.handles
            && (HasToken(s.handles[g]) || HasToken(t.handles[e.h]) ==> ValueOf(t.handles[e.h]) != ValueOf(s.handles[g]))
  {
    assert Sane(s, s.handles[e.h]) && Sane(s, s.handles[g]);
    ValueMoves(s, s.handles[e.h], e);
  }

  lemma NewHandleBlank(s: Sys, e: Event, g: nat)
    requires g in Next(s, e).handles && g !in s.handles
    ensures ValueOf(Next(s, e).handles[g]).None?
  {
  }

  lemma PairDistinct(s: Sys, t: Sys, e: Event, a: nat, b: nat)
    requires Inv(s) && t == Next(s, e) && a in t.handles && b in t.handles && a != b && HasToken(t.handles[a])
    ensures ValueOf(t.handles[a]) != ValueOf(t.handles[b])
  {
    OthersUntouched(s, e);
    if a !in s.handles {
      NewHandleBlank(s, e, a);
    } else if b !in s.handles {
      NewHandleBlank(s, e, b);
    } else if Actor(e) == Some(a) {
      NoTokenShared(s, e, b);
    } else if Actor(e) == Some(b) {
      NoTokenShared(s, e, a);
    }
  }

  lemma DistinctStep(s: Sys, e: Event)
    requires Inv(s)
    ensures Distinct(Next(s, e))
  {
    var t := Next(s, e);
    forall a, b | a in t.handles && b in t.handles && a != b && HasToken(t.handles[a])
      ensures ValueOf(t.handles[a]) != ValueOf(t.handles[b])
    {
      PairDistinct(s, t, e, a, b);
    }
  }

  lemma LabelKept(s: Sys, e: Event, en: Entry)
    requires Inv(s) && LabelOk(s, en)
    ensures LabelOk(Next(s, e), en)
  {
    var t := Next(s, e);
    OthersUntouched(s, e);
    if Actor(e).Some? && e.h in s.handles && !e.NewMutex? && !e.StartDo? {
      assert Sane(s, s.handles[e.h]);
      ValueMoves(s, s.handles[e.h], e);
    }
  }

  /** An entry is new only if the step was a SETNX that took. */
  lemma EntriesMove(s: Sys, e: Event, k: string)
    requires k in Next(s, e).store && !(k in s.store && Next(s, e).store[k] == s.store[k])
    ensures e.Execute? && e.h in s.handles && InFlight(s.handles[e.h]).SetNX?
    ensures Next(s, e).nextGen == s.nextGen + 1
    ensures var en := Next(s, e).store[k];
            en.value == InFlight(s.handles[e.h]).value && en.owner == e.h && en.gen == s.nextGen
  {
  }

  lemma LabelNew(s: Sys, h: nat, en: Entry)
    requires Inv(s) && h in s.handles && InFlight(s.handles[h]).SetNX?
    requires en.value == InFlight(s.handles[h]).value && en.owner == h && en.gen == s.nextGen
    ensures LabelOk(s.(nextGen := s.nextGen + 1), en)
  {
    assert Sane(s, s.handles[h]);
    assert ValueOf(s.handles[h]) == Some(en.value);
  }

  lemma LabelledStep(s: Sys, e: Event)
    requires Inv(s)
    ensures Labelled(Next(s, e))
  {
    var t := Next(s, e);
    forall k | k in t.store ensures LabelOk(t, t.store[k]) {
      if k in s.store && t.store[k] == s.store[k] {
        LabelKept(s, e, t.store[k]);
      } else {
        EntriesMove(s, e, k);
        LabelNew(s, e.h, t.store[k]);
        LabelMoves(s, e, t.store[k]);
      }
    }
  }

  lemma LabelMoves(s: Sys, e: Event, en: Entry)
    requires Inv(s) && e.Execute? && e.h in s.handles && LabelOk(s.(nextGen := s.nextGen + 1), en)
    requires Next(s, e).nextGen == s.nextGen + 1
    ensures LabelOk(Next(s, e), en)
  {
    OthersUntouched(s, e);
    assert Sane(s, s.handles[e.h]);
    ValueMoves(s, s.handles[e.h], e);
  }

  lemma KeptOwn(s: Sys, e: Event)
    requires Inv(s) && Actor(e).Some? && e.h in Next(s, e).handles
    ensures Kept(Next(s, e), e.h, Next(s, e).handles[e.h])
  {
    if e.h in s.handles {
      assert Sane(s, s.handles[e.h]) && Kept(s, e.h, s.handles[e.h]);
    }
  }

  lemma KeptStep(s: Sys, e: Event, g: nat)
    requires Inv(s) && g in Next(s, e).handles
    ensures Kept(Next(s, e), g, Next(s, e).handles[g])
  {
    OthersUntouched(s, e);
    if Actor(e) == Some(g) {
      KeptOwn(s, e);
    } else {
      var hg := s.handles[g];
      assert Sane(s, hg) && Kept(s, g, hg);
      if e.Execute? && e.h in s.handles {
        var hd := s.handles[e.h];
        assert Sane(s, hd);
        if HasToken(hg) && InFlight(hd).DeleteIf? {
          assert ValueOf(hd) == Some(InFlight(hd).value);
        }
      }
    }
  }

  lemma InvStep(s: Sys, e: Event)
    requires Inv(s)
    ensures Inv(Next(s, e))
  {
    var t := Next(s, e);
    OthersUntouched(s, e);
    DistinctStep(s, e);
    LabelledStep(s, e);
    forall g | g in t.handles ensures Sane(t, t.handles[g]) && Kept(t, g, t.handles[g]) {
      KeptStep(s, e, g);
      if g in s.handles {
        assert Sane(s, s.handles[g]);
        if Actor(e) == Some(g) && !e.NewMutex? && !e.StartDo? { SaneOwn(s, g, s.handles[g], e); }
      }
    }
  }

  lemma {:induction false} InvRun(evs: seq<Event>)
    ensures Inv(Run(INIT, evs))
    decreases |evs|
  {
    if evs != [] {
      InvRun(evs[..|evs| - 1]);
      InvStep(Run(INIT, evs[..|evs| - 1]), evs[|evs| - 1]);
    }
  }

  // ---------------------------------------------------------------- what every run keeps

  /** The handle locked without identity and its lease is still running. */
  predicate HoldsToken(s: Sys, h: nat) {
    && h in s.handles && s.handles[h].held.Some?
    && s.handles[h].held.value.value.Token? && s.now <= s.handles[h].held.value.until
  }

  /**
   A handle that locked without identity keeps its entry, untouched, until its own Unlock
   or its expiry, in every run, whatever reentrant handles do.
   */
  lemma TokenLeaseKept(evs: seq<Event>, h: nat)
    requires HoldsToken(Run(INIT, evs), h)
    ensures var s := Run(INIT, evs);
            && Live(s, s.handles[h].key)
            && s.store[s.handles[h].key].value == s.handles[h].held.value.value
            && s.store[s.handles[h].key].until == s.handles[h].held.value.until
            && s.store[s.handles[h].key].owner == h
  {
    InvRun(evs);
    assert Kept(Run(INIT, evs), h, Run(INIT, evs).handles[h]);
  }

  /** At most one of them per key. */
  lemma MutualExclusion(evs: seq<Event>, a: nat, b: nat)
    requires HoldsToken(Run(INIT, evs), a) && HoldsToken(Run(INIT, evs), b)
    requires Run(INIT, evs).handles[a].key == Run(INIT, evs).handles[b].key
    ensures a == b
  {
    TokenLeaseKept(evs, a);
    TokenLeaseKept(evs, b);
  }

  /** The handle's remembered value is the one that is stored. */
  predicate Attached(s: Sys, h: nat) {
    && h in s.handles && s.handles[h].held.Some?
    && Live(s, s.handles[h].key)
    && s.store[s.handles[h].key].value == s.handles[h].held.value.value
  }

  /** Handles attached to one entry are one handle, or carry one non-empty identity. */
  lemma SharedOnlyByIdentity(evs: seq<Event>, a: nat, b: nat)
    requires Attached(Run(INIT, evs), a) && Attached(Run(INIT, evs), b)
    requires Run(INIT, evs).handles[a].key == Run(INIT, evs).handles[b].key
    ensures var s := Run(INIT, evs);
            || a == b
            || exists name ::
                 name != "" && s.handles[a].held.value.value == Ident(name) == s.handles[b].held.value.value
  {
    InvRun(evs);
    var s := Run(INIT, evs);
    assert Sane(s, s.handles[a]) && Sane(s, s.handles[b]);
    var v := s.handles[a].held.value.value;
    assert v.Token? ==> HasToken(s.handles[a]);
    if a != b {
      assert v == Ident(v.name);
    }
  }

  lemma {:induction false} EntryNeverReturns(s: Sys, evs: seq<Event>, key: string, gen: nat)
    requires gen < s.nextGen && (key in s.store ==> s.store[key].gen != gen)
    ensures gen < Run(s, evs).nextGen
    ensures key in Run(s, evs).store ==> Run(s, evs).store[key].gen != gen
    decreases |evs|
  {
    if evs != [] {
      EntryNeverReturns(s, evs[..|evs| - 1], key, gen);
    }
  }

  /** One successful Unlock removes the entry for every handle attached to it, and that entry never comes back. */
  lemma UnlockEndsSharing(evs: seq<Event>, h: nat, later: seq<Event>)
    requires h in Run(INIT, evs).handles && InFlight(Run(INIT, evs).handles[h]).DeleteIf?
    requires Takes(Run(INIT, evs), Run(INIT, evs).handles[h].key, InFlight(Run(INIT, evs).handles[h]))
    ensures var s := Run(INIT, evs);
            var key := s.handles[h].key;
            && key !in Next(s, Execute(h)).store
            && var t := Run(Next(s, Execute(h)), later);
               key in t.store ==> t.store[key].gen != s.store[key].gen
  {
    InvRun(evs);
    var s := Run(INIT, evs);
    EntryNeverReturns(Next(s, Execute(h)), later, s.handles[h].key, s.store[s.handles[h].key].gen);
  }

  // ---------------------------------------------------------------- the lease register

  function CellAt(s: Sys, key: string): LR.Cell<Value> {
    LR.Cell(s.now, if key in s.store then LR.Held(s.store[key].value, s.store[key].until) else LR.Free)
  }

  /** The party that acts is the value the command carries: a token's handle, or all sharing an identity. */
  function Party(s: Sys, e: Event): Option<Value> {
    if e.Execute? && e.h in s.handles then
      var cmd := InFlight(s.handles[e.h]);
      if cmd.SetNX? || cmd.DeleteIf? then Some(cmd.value) else None
    else None
  }

  function Cells(evs: seq<Event>, key: string): seq<LR.Cell<Value>> {
    seq(|evs| + 1, i requires 0 <= i <= |evs| => CellAt(Run(INIT, evs[..i]), key))
  }

  function Parties(evs: seq<Event>): seq<Option<Value>> {
    seq(|evs|, i requires 0 <= i < |evs| => Party(Run(INIT, evs[..i]), evs[i]))
  }

  lemma RegisterStep(s: Sys, e: Event, key: string)
    ensures LR.Step(CellAt(s, key), Party(s, e), CellAt(Next(s, e), key))
  {
  }

  /** The mutex implements the lease register in every run, reentrant ones included. */
  lemma RefinesRegister(evs: seq<Event>, key: string)
    ensures LR.Legal(Cells(evs, key), Parties(evs))
  {
    forall i | 0 <= i < |evs|
      ensures LR.Step(Cells(evs, key)[i], Parties(evs)[i], Cells(evs, key)[i + 1])
    {
      assert evs[..i + 1][..i] == evs[..i];
      RegisterStep(Run(INIT, evs[..i]), evs[i], key);
    }
  }

  /** The lock passes from one value to another only after expiry or that value's own delete. */
  lemma LockPassesOn(evs: seq<Event>, key: string, i: nat, j: nat, from: Value, to: Value)
    requires i < j <= |evs| && from != to
    requires LR.HeldBy(Cells(evs, key)[i], from) && LR.HeldBy(Cells(evs, key)[j], to)
    ensures exists k: nat :: i <= k < j && LR.TenureEnds(Cells(evs, key), Parties(evs), k, from)
  {
    RefinesRegister(evs, key);
    LR.Handover(Cells(evs, key), Parties(evs), i, j, from, to);
  }
}
