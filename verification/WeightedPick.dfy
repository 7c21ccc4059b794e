/** Choosing one instance of a service: healthy ones, of the preferred zone where possible, by weight. */
module WeightedPick {
  import opened Common
  import opened GoInt64

  datatype Instance = Instance(address: string, health: string, weight: int, zone: string)

  /** `all` asks for unhealthy instances too. */
  datatype Request = Request(all: bool, zone: string)

  const HEALTHY := "healthy"

  predicate Callable(req: Request, x: Instance) {
    req.all || x.health == "" || x.health == HEALTHY
  }

  predicate Near(req: Request, x: Instance) {
    req.zone == "" || x.zone == "" || x.zone == req.zone
  }

  /** The callable instances in order, only those near if `zoned`. */
  function Keep(req: Request, xs: seq<Instance>, zoned: bool): seq<Instance> {
    if xs == [] then []
    else
      var last, rest := xs[|xs| - 1], Keep(req, xs[..|xs| - 1], zoned);
      if Callable(req, last) && (zoned ==> Near(req, last)) then rest + [last] else rest
  }

  function Candidates(req: Request, xs: seq<Instance>): seq<Instance> {
    var near := Keep(req, xs, true);
    if near == [] && req.zone != "" then Keep(req, xs, false) else near
  }

  lemma {:induction false} KeepMeans(req: Request, xs: seq<Instance>, zoned: bool, x: Instance)
    ensures x in Keep(req, xs, zoned) <==> x in xs && Callable(req, x) && (zoned ==> Near(req, x))
  {
    if xs != [] {
      KeepMeans(req, xs[..|xs| - 1], zoned, x);
      assert xs == xs[..|xs| - 1] + [xs[|xs| - 1]];
    }
  }

  /** A candidate is a callable instance that is near, or any callable one if none is near. */
  lemma CandidatesMean(req: Request, xs: seq<Instance>, x: Instance)
    ensures x in Candidates(req, xs) <==>
            x in xs && Callable(req, x) && (Near(req, x) || forall y :: y in xs && Callable(req, y) ==> !Near(req, y))
  {
    var near := Keep(req, xs, true);
    KeepMeans(req, xs, true, x);
    KeepMeans(req, xs, false, x);
    forall y | y in xs && Callable(req, y) && near == [] ensures !Near(req, y) {
      KeepMeans(req, xs, true, y);
    }
    if near != [] {
      KeepMeans(req, xs, true, near[0]);
    }
  }

  // Weights

  function Share(x: Instance): nat {
    if x.weight > 0 then x.weight else 0
  }

  /** The weight of the first `i` candidates. */
  function Prefix(cs: seq<Instance>, i: nat): nat
    requires i <= |cs|
  {
    if i == 0 then 0 else Prefix(cs, i - 1) + Share(cs[i - 1])
  }

  lemma {:induction false} PrefixMonotone(cs: seq<Instance>, i: nat, j: nat)
    requires i <= j <= |cs|
    ensures Prefix(cs, i) <= Prefix(cs, j)
    decreases j
  {
    if i < j {
      PrefixMonotone(cs, i, j - 1);
    }
  }

  /** A draw lands on candidate `i`: it lies in the i-th of the adjoining intervals the weights cut out. */
  predicate Lands(cs: seq<Instance>, i: nat, draw: nat) {
    i < |cs| && Prefix(cs, i) <= draw < Prefix(cs, i + 1)
  }

  lemma LandsOnce(cs: seq<Instance>, i: nat, j: nat, draw: nat)
    requires Lands(cs, i, draw) && Lands(cs, j, draw)
    ensures i == j
  {
    if i < j {
      PrefixMonotone(cs, i + 1, j);
    } else if j < i {
      PrefixMonotone(cs, j + 1, i);
    }
  }

  /** The draws below `total` that select candidate `i`. */
  function Draws(cs: seq<Instance>, total: nat, i: nat): set<nat> {
    set d: nat | d < total && Lands(cs, i, d)
  }

  predicate Between(a: nat, d: nat, b: nat) {
    a <= d < b
  }

  function Range(a: nat, b: nat): set<nat> {
    set d: nat | d < b && Between(a, d, b)
  }

  lemma {:induction false} RangeSize(a: nat, b: nat)
    requires a <= b
    ensures |Range(a, b)| == b - a
    decreases b
  {
    if a < b {
      RangeSize(a, b - 1);
      assert Range(a, b) == Range(a, b - 1) + {b - 1};
    } else {
      assert Range(a, b) == {};
    }
  }

  function TotalWeight(cs: seq<Instance>): nat {
    Prefix(cs, |cs|)
  }

  /** Exactly proportional: of the draws below the total weight, as many select a candidate as it weighs. */
  lemma Proportional(cs: seq<Instance>, i: nat)
    requires i < |cs|
    ensures |Draws(cs, TotalWeight(cs), i)| == if cs[i].weight > 0 then cs[i].weight else 0
  {
    PrefixMonotone(cs, i + 1, |cs|);
    RangeSize(Prefix(cs, i), Prefix(cs, i + 1));
    assert Draws(cs, TotalWeight(cs), i) == Range(Prefix(cs, i), Prefix(cs, i + 1));
  }

  /** How many random numbers the picker draws from: the wrapped total, or one per candidate if that is not positive. */
  function DrawRange(cs: seq<Instance>): (n: nat)
    ensures cs != [] ==> n > 0
  {
    if Wrap(TotalWeight(cs)) > 0 then Wrap(TotalWeight(cs)) else |cs|
  }

  /** A draw selects candidate `i`: it lands there, or names it where the total is not positive. */
  predicate Selects(cs: seq<Instance>, i: nat, draw: nat) {
    if Wrap(TotalWeight(cs)) > 0 then Lands(cs, i, draw) else i == draw < |cs|
  }

  function Selecting(cs: seq<Instance>, i: nat): set<nat> {
    set d: nat | d < DrawRange(cs) && Selects(cs, i, d)
  }

  /** Each candidate has as large a part of the draws as of the total weight. */
  predicate InProportion(cs: seq<Instance>) {
    forall i: nat :: i < |cs| ==> |Selecting(cs, i)| * TotalWeight(cs) == Share(cs[i]) * DrawRange(cs)
  }

  predicate EqualShares(cs: seq<Instance>) {
    forall i, j :: 0 <= i < |cs| && 0 <= j < |cs| ==> Share(cs[i]) == Share(cs[j])
  }

  lemma {:induction false} EqualTotal(cs: seq<Instance>, n: nat)
    requires EqualShares(cs) && 0 < n <= |cs|
    ensures Prefix(cs, n) == Share(cs[0]) * n
    decreases n
  {
    if n > 1 {
      EqualTotal(cs, n - 1);
    }
  }

  lemma UniformSelecting(cs: seq<Instance>, i: nat)
    requires Wrap(TotalWeight(cs)) <= 0 && i < |cs|
    ensures |Selecting(cs, i)| == 1
  {
    forall d: nat ensures d in Selecting(cs, i) <==> d == i {
      assert Selects(cs, i, d) <==> d == i;
    }
    assert Selecting(cs, i) == {i};
  }

  lemma {:induction false} FirstWeighted(cs: seq<Instance>, n: nat) returns (i: nat)
    requires n <= |cs| && Prefix(cs, n) > 0
    ensures i < n && Prefix(cs, i) == 0 && Share(cs[i]) > 0
    decreases n
  {
    i := n - 1;
    if Prefix(cs, i) > 0 {
      i := FirstWeighted(cs, i);
    }
  }

  /** The first candidate with a weight gets its full weight of draws, or all of them. */
  lemma FirstSelecting(cs: seq<Instance>, i: nat)
    requires Wrap(TotalWeight(cs)) > 0 && i < |cs| && Prefix(cs, i) == 0
    ensures |Selecting(cs, i)| == if Share(cs[i]) <= DrawRange(cs) then Share(cs[i]) else DrawRange(cs)
  {
    var n := if Share(cs[i]) <= DrawRange(cs) then Share(cs[i]) else DrawRange(cs);
    RangeSize(0, n);
    assert Selecting(cs, i) == Range(0, n);
  }

  lemma Cancel(x: int, y: int, z: int)
    requires x > 0 && x * y == x * z
    ensures y == z
  {
  }

  /** Drawing from a wrapped total favours somebody. */
  lemma WrappedNotInProportion(cs: seq<Instance>)
    requires WeightsFit(cs) && !Fits(TotalWeight(cs)) && Wrap(TotalWeight(cs)) > 0
    ensures !InProportion(cs)
  {
    var i := FirstWeighted(cs, |cs|);
    FirstSelecting(cs, i);
    var w, n := TotalWeight(cs), DrawRange(cs);
    assert Fits(cs[i].weight) && w != n && w != Share(cs[i]);
    if |Selecting(cs, i)| * w == Share(cs[i]) * n {
      if Share(cs[i]) <= n {
        Cancel(Share(cs[i]), w, n);
      } else {
        Cancel(n, w, Share(cs[i]));
      }
    }
  }

  lemma UniformInProportionIff(cs: seq<Instance>)
    requires cs != [] && Wrap(TotalWeight(cs)) <= 0
    ensures InProportion(cs) <==> EqualShares(cs)
  {
    forall i: nat | i < |cs| ensures |Selecting(cs, i)| == 1 {
      UniformSelecting(cs, i);
    }
    if EqualShares(cs) {
      EqualTotal(cs, |cs|);
    }
    if InProportion(cs) {
      forall i, j | 0 <= i < |cs| && 0 <= j < |cs| ensures Share(cs[i]) == Share(cs[j]) {
        assert |Selecting(cs, i)| * TotalWeight(cs) == |Selecting(cs, j)| * TotalWeight(cs);
        Cancel(|cs|, Share(cs[i]), Share(cs[j]));
      }
    }
  }

  /**
   The picker adds weights in int64. It keeps to the weights exactly if the total fits, or all
   shares are equal and the total wraps to zero or below, so that it picks uniformly.
   */
  lemma ProportionalIff(cs: seq<Instance>)
    requires cs != [] && WeightsFit(cs)
    ensures InProportion(cs) <==> Fits(TotalWeight(cs)) || (Wrap(TotalWeight(cs)) <= 0 && EqualShares(cs))
  {
    if Wrap(TotalWeight(cs)) <= 0 {
      UniformInProportionIff(cs);
      if Fits(TotalWeight(cs)) {
        ZeroTotal(cs);
      }
    } else if Fits(TotalWeight(cs)) {
      forall i: nat | i < |cs| ensures |Selecting(cs, i)| == Share(cs[i]) {
        Proportional(cs, i);
        assert DrawRange(cs) == TotalWeight(cs);
        assert forall d :: d in Selecting(cs, i) <==> d in Draws(cs, TotalWeight(cs), i);
        assert Selecting(cs, i) == Draws(cs, TotalWeight(cs), i);
      }
    } else {
      WrappedNotInProportion(cs);
    }
  }

  lemma ZeroTotal(cs: seq<Instance>)
    requires TotalWeight(cs) == 0
    ensures EqualShares(cs)
  {
    forall i | 0 <= i < |cs| ensures Share(cs[i]) == 0 {
      PrefixMonotone(cs, i + 1, |cs|);
    }
  }

  // The picker

  /** A weight is a Go int. */
  predicate WeightsFit(xs: seq<Instance>) {
    forall x :: x in xs ==> Fits(x.weight)
  }

  method Collect(req: Request, xs: seq<Instance>, zoned: bool) returns (cs: seq<Instance>)
    ensures cs == Keep(req, xs, zoned)
  {
    cs := [];
    for i := 0 to |xs|
      invariant cs == Keep(req, xs[..i], zoned)
    {
      assert xs[..i + 1][..i] == xs[..i];
      if !Callable(req, xs[i]) { continue; }
      if zoned && !Near(req, xs[i]) { continue; }
      cs := cs + [xs[i]];
    }
    assert xs[..|xs|] == xs;
  }

  method AddWeights(cs: seq<Instance>) returns (total: int)
    requires WeightsFit(cs)
    ensures total == Wrap(TotalWeight(cs))
  {
    total := 0;
    for i := 0 to |cs|
      invariant total == Wrap(Prefix(cs, i))
    {
      if cs[i].weight > 0 {
        WrapSum(Prefix(cs, i), cs[i].weight);
        total := Wrap(total + cs[i].weight);
      }
    }
  }

  lemma WrapSum(x: int, y: int)
    ensures Wrap(Wrap(x) + y) == Wrap(x + y)
  {
    assert (Wrap(x) + y - MIN) % SPAN == (x + y - MIN) % SPAN;
  }

  /** The walk that subtracts weights from the draw; it never runs past the last candidate. */
  method Walk(cs: seq<Instance>, draw: nat) returns (k: nat)
    requires draw < TotalWeight(cs)
    ensures Lands(cs, k, draw)
  {
    var pick := draw as int;
    for i := 0 to |cs|
      invariant pick == draw - Prefix(cs, i) && pick >= 0
    {
      if cs[i].weight <= 0 { continue; }
      pick := pick - cs[i].weight;
      if pick < 0 {
        return i;
      }
    }
    assert false;
  }

  /** What the picker makes of a random number. */
  ghost predicate PickedBy(cs: seq<Instance>, random: nat, x: Instance) {
    cs != [] && exists i: nat :: i < |cs| && Selects(cs, i, random % DrawRange(cs)) && cs[i] == x
  }

  /** Pick; `random` stands for the source of randomness, reduced to the range asked of it. */
  method Pick(req: Request, instances: seq<Instance>, random: nat) returns (r: Option<Instance>)
    requires WeightsFit(instances)
    ensures r.None? <==> forall x :: x in instances ==> !req.all && x.health != "" && x.health != "healthy"
    ensures r.Some? ==> r.value in instances && (req.all || r.value.health == "" || r.value.health == "healthy")
    // an instance of another zone is picked only if no callable one is of the zone or of none
    ensures r.Some? && req.zone != "" && r.value.zone != "" && r.value.zone != req.zone ==>
      forall x :: x in instances && Callable(req, x) ==> x.zone != "" && x.zone != req.zone
    ensures r.Some? ==> PickedBy(Candidates(req, instances), random, r.value)
  {
    var cs := Collect(req, instances, true);
    if |cs| == 0 && req.zone != "" {
      cs := Collect(req, instances, false);
    }
    CandidatesExist(req, instances);
    forall x {
      CandidatesMean(req, instances, x);
    }
    if |cs| == 0 {
      return None;
    }
    var total := AddWeights(cs);
    if total <= 0 {
      assert Selects(cs, random % |cs|, random % |cs|);
      return Some(cs[random % |cs|]);
    }
    WrapBelow(TotalWeight(cs));
    var k := Walk(cs, random % total);
    r := Some(cs[k]);
  }

  lemma WrapBelow(x: nat)
    ensures Wrap(x) <= x
  {
  }

  lemma CandidatesExist(req: Request, xs: seq<Instance>)
    ensures Candidates(req, xs) == [] <==> forall x :: x in xs ==> !Callable(req, x)
    ensures forall x :: x in Candidates(req, xs) ==> x in xs
  {
    forall x ensures x in Candidates(req, xs) ==> x in xs && Callable(req, x) {
      CandidatesMean(req, xs, x);
    }
    if Candidates(req, xs) == [] {
      forall x | x in xs ensures !Callable(req, x) {
        KeepMeans(req, xs, true, x);
        KeepMeans(req, xs, false, x);
      }
    } else {
      assert Candidates(req, xs)[0] in Candidates(req, xs);
    }
  }
}
