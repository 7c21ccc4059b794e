/**
 The abstract object every lease protocol of the repository implements: one
 register that is either free or held until some instant. It may be granted only
 while free or past its time, rewritten only by its holder, and cleared only by its
 holder or past its time.
 */
module LeaseRegister {
  import opened Common

  datatype Register<H> = Free | Held(holder: H, until: Time)

  /** The register together with the clock it is judged by. */
  datatype Cell<H> = Cell(now: Time, reg: Register<H>)

  predicate Lapsed<H>(c: Cell<H>) {
    c.reg.Held? && c.reg.until < c.now
  }

  predicate HeldBy<H(==)>(c: Cell<H>, h: H) {
    c.reg.Held? && c.reg.holder == h
  }

  predicate Grants<H(==)>(a: Cell<H>, actor: Option<H>, b: Cell<H>) {
    b.reg.Held? && actor == Some(b.reg.holder) && (a.reg.Free? || Lapsed(a))
  }

  predicate Rewrites<H(==)>(a: Cell<H>, actor: Option<H>, b: Cell<H>) {
    b.reg.Held? && actor == Some(b.reg.holder) && HeldBy(a, b.reg.holder)
  }

  predicate Clears<H(==)>(a: Cell<H>, actor: Option<H>, b: Cell<H>) {
    b.reg.Free? && a.reg.Held? && (actor == Some(a.reg.holder) || Lapsed(a))
  }

  /** `actor` is the party whose command was executed, if the step was a command. */
  predicate Step<H(==)>(a: Cell<H>, actor: Option<H>, b: Cell<H>) {
    || (a.reg == b.reg && a.now <= b.now)
    || (a.now == b.now && (Grants(a, actor, b) || Rewrites(a, actor, b) || Clears(a, actor, b)))
  }

  /** A recorded run: `actors[i]` performed the step from `cells[i]` to `cells[i + 1]`. */
  predicate Legal<H(==)>(cells: seq<Cell<H>>, actors: seq<Option<H>>) {
    && |cells| == |actors| + 1
    && forall i :: 0 <= i < |actors| ==> Step(cells[i], actors[i], cells[i + 1])
  }

  /** The two ways `h`'s tenure may end at step k: it had lapsed, or `h` released it. */
  predicate TenureEnds<H(==)>(cells: seq<Cell<H>>, actors: seq<Option<H>>, k: nat, h: H)
    requires k < |actors| && |cells| == |actors| + 1
  {
    && HeldBy(cells[k], h)
    && (Lapsed(cells[k]) || (actors[k] == Some(h) && cells[k + 1].reg.Free?))
  }

  lemma {:induction false} ClockNeverRunsBack<H>(cells: seq<Cell<H>>, actors: seq<Option<H>>, i: nat, j: nat)
    requires Legal(cells, actors) && i <= j < |cells|
    ensures cells[i].now <= cells[j].now
  {
    if i < j {
      ClockNeverRunsBack(cells, actors, i, j - 1);
      assert Step(cells[j - 1], actors[j - 1], cells[j]);
    }
  }

  /** Ownership passes to somebody else only after expiry or the owner's own release. */
  lemma {:induction false} Handover<H>(cells: seq<Cell<H>>, actors: seq<Option<H>>, i: nat, j: nat, from: H, to: H)
    requires Legal(cells, actors) && i < j < |cells|
    requires from != to && HeldBy(cells[i], from) && HeldBy(cells[j], to)
    ensures exists k: nat :: i <= k < j && TenureEnds(cells, actors, k, from)
    decreases j - i
  {
    assert Step(cells[i], actors[i], cells[i + 1]);
    if HeldBy(cells[i + 1], from) {
      Handover(cells, actors, i + 1, j, from, to);
    } else {
      assert TenureEnds(cells, actors, i, from);
    }
  }

  /** While its time has not come and its holder does nothing, a lease cannot change. */
  lemma {:induction false} KeptUntilExpiry<H>(cells: seq<Cell<H>>, actors: seq<Option<H>>, i: nat, j: nat)
    requires Legal(cells, actors) && i <= j < |cells|
    requires cells[i].reg.Held? && cells[j].now <= cells[i].reg.until
    requires forall k :: i <= k < j ==> actors[k] != Some(cells[i].reg.holder)
    ensures cells[j].reg == cells[i].reg
  {
    if i < j {
      assert Step(cells[j - 1], actors[j - 1], cells[j]);
      KeptUntilExpiry(cells, actors, i, j - 1);
    }
  }
}
