/** How the options of one lock call are put together. */
module LockOptions {
  import opened Common

  /** Durations are signed: a caller may pass zero or a negative one. */
  datatype LockOption = LockOption(ttl: int, identity: string, spinInterval: int, maxWait: int)

  /** An option function, or the nil one that is skipped. */
  type OptionOp = Option<LockOption -> LockOption>

  const DEFAULT_TTL: int := 30_000_000_000
  const DEFAULT_SPIN: int := 500_000_000

  /** GetMutexDefaultTTL. */
  function DefaultTTL(configured: int): (ttl: int)
    ensures ttl > 0
    ensures configured > 0 ==> ttl == configured
  {
    if configured > 0 then configured else DEFAULT_TTL
  }

  /** The options before, between and after the ops: each op that is not nil runs once, in order. */
  predicate Ran(ops: seq<OptionOp>, steps: seq<LockOption>) {
    && |steps| == |ops| + 1
    && forall i :: 0 <= i < |ops| ==> steps[i + 1] == if ops[i].Some? then ops[i].value(steps[i]) else steps[i]
  }

  /**
   NewLockOption: whatever the option functions do, TTL and spin interval come out
   positive, each one is the callers' value if that was positive, and nothing else changes.
   */
  method NewLockOption(configuredTTL: int, ops: seq<OptionOp>) returns (opt: LockOption, ghost steps: seq<LockOption>)
    ensures opt.ttl > 0 && opt.spinInterval > 0
    ensures Ran(ops, steps) && steps[0] == LockOption(DefaultTTL(configuredTTL), "", DEFAULT_SPIN, 0)
    ensures var asked := steps[|ops|];
            && opt.ttl == (if asked.ttl > 0 then asked.ttl else DefaultTTL(configuredTTL))
            && opt.spinInterval == (if asked.spinInterval > 0 then asked.spinInterval else DEFAULT_SPIN)
            && opt.identity == asked.identity && opt.maxWait == asked.maxWait
    // the lock MutexDo takes lives exactly as long as the context MutexDo makes
    ensures ops == [] ==> opt.ttl == DefaultTTL(configuredTTL) && opt.identity == ""
  {
    var defaultTTL := configuredTTL;
    if defaultTTL <= 0 {
      defaultTTL := DEFAULT_TTL;
    }
    opt := LockOption(defaultTTL, "", DEFAULT_SPIN, 0);
    steps := [opt];
    for i := 0 to |ops|
      invariant Ran(ops[..i], steps) && steps[i] == opt
      invariant steps[0] == LockOption(DefaultTTL(configuredTTL), "", DEFAULT_SPIN, 0)
    {
      if ops[i].Some? {
        opt := ops[i].value(opt);
      }
      steps := steps + [opt];
    }
    assert ops[..|ops|] == ops;
    if opt.ttl <= 0 {
      opt := opt.(ttl := defaultTTL);
    }
    if opt.spinInterval <= 0 {
      opt := opt.(spinInterval := DEFAULT_SPIN);
    }
  }

  // ---------------------------------------------------------------- the options callers pass

  /** LockTTL, LockWithMaxWait, LockWithSpinInterval and Reentrant. */
  datatype Setting = TTL(d: int) | MaxWait(d: int) | SpinInterval(d: int) | Reentrant(identity: string)

  /** The option function of a setting: durations that are not positive are ignored. */
  function Op(s: Setting): OptionOp {
    Some((o: LockOption) =>
      match s
      case TTL(d) => if d > 0 then o.(ttl := d) else o
      case MaxWait(d) => if d > 0 then o.(maxWait := d) else o
      case SpinInterval(d) => if d > 0 then o.(spinInterval := d) else o
      case Reentrant(identity) => o.(identity := identity))
  }

  function Ops(settings: seq<Setting>): seq<OptionOp> {
    seq(|settings|, i requires 0 <= i < |settings| => Op(settings[i]))
  }

  /** The setting says something about the same field as `s`. */
  predicate Competes(s: Setting, t: Setting) {
    || (s.TTL? && t.TTL? && t.d > 0) || (s.MaxWait? && t.MaxWait? && t.d > 0)
    || (s.SpinInterval? && t.SpinInterval? && t.d > 0) || (s.Reentrant? && t.Reentrant?)
  }

  /** The options are as the setting asks. */
  predicate Obeys(o: LockOption, s: Setting) {
    match s
    case TTL(d) => o.ttl == d
    case MaxWait(d) => o.maxWait == d
    case SpinInterval(d) => o.spinInterval == d
    case Reentrant(identity) => o.identity == identity
  }

  /** What holds of a field goes on holding until a setting of that field comes. */
  lemma {:induction false} StaysSet(settings: seq<Setting>, steps: seq<LockOption>, s: Setting, i: nat, j: nat)
    requires Ran(Ops(settings), steps) && i <= j <= |settings| && Obeys(steps[i], s)
    requires forall k :: i <= k < j ==> !Competes(s, settings[k])
    ensures Obeys(steps[j], s)
    decreases j - i
  {
    if i < j {
      StaysSet(settings, steps, s, i, j - 1);
      assert !Competes(s, settings[j - 1]);
      assert Ops(settings)[j - 1] == Op(settings[j - 1]);
    }
  }

  /** Setting i is `s`, says something, and no later one does about its field. */
  predicate IsLast(settings: seq<Setting>, s: Setting, i: int) {
    && 0 <= i < |settings| && settings[i] == s && Competes(s, s)
    && forall k :: i < k < |settings| ==> !Competes(s, settings[k])
  }

  /**
   Of all settings passed, for each field the last one that says something wins, and a field
   nobody sets keeps what it was before.
   */
  lemma LastSettingWins(settings: seq<Setting>, steps: seq<LockOption>, s: Setting)
    requires Ran(Ops(settings), steps)
    ensures forall i :: IsLast(settings, s, i) ==> Obeys(steps[|settings|], s)
    ensures (forall k :: 0 <= k < |settings| ==> !Competes(s, settings[k])) ==>
              (Obeys(steps[|settings|], s) <==> Obeys(steps[0], s))
  {
    forall i | IsLast(settings, s, i) ensures Obeys(steps[|settings|], s) {
      assert Ops(settings)[i] == Op(s);
      StaysSet(settings, steps, s, i + 1, |settings|);
    }
    if forall k :: 0 <= k < |settings| ==> !Competes(s, settings[k]) {
      var was := SameField(s, steps[0]);
      StaysSet(settings, steps, was, 0, |settings|);
    }
  }

  /** The setting of the field of `s` that the options obey. */
  function SameField(s: Setting, o: LockOption): (t: Setting)
    ensures Obeys(o, t)
    ensures forall u :: Competes(t, u) <==> Competes(s, u)
  {
    match s
    case TTL(_) => TTL(o.ttl)
    case MaxWait(_) => MaxWait(o.maxWait)
    case SpinInterval(_) => SpinInterval(o.spinInterval)
    case Reentrant(_) => Reentrant(o.identity)
  }
}
