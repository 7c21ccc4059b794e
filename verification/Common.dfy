/** Shared vocabulary: optional values and the two clocks every lease lives on. */
module Common {

  datatype Option<+T> = None | Some(value: T)

  /** Instants and durations, in nanoseconds of one shared, monotone clock. */
  type Time = nat

  /** One millisecond: the resolution at which MongoDB stores a date. */
  const MS: nat := 1_000_000

  /** What a stored date keeps of an instant: the whole milliseconds. */
  function Trunc(t: Time): (r: Time)
    ensures r <= t < r + MS
    ensures r % MS == 0
    ensures t % MS == 0 ==> r == t
  {
    t / MS * MS
  }

  lemma TruncMonotone(a: Time, b: Time)
    requires a <= b
    ensures Trunc(a) <= Trunc(b)
  {
  }

  /** What Redis keeps of a TTL: whole milliseconds, and at least one, because the client rounds a shorter one up. */
  function StoredTTL(ttl: Time): (r: Time)
    ensures r % MS == 0 && r >= MS
    ensures ttl <= r <==> ttl <= MS || ttl % MS == 0
  {
    if ttl < MS then MS else Trunc(ttl)
  }

  /** What happens before one party's command is executed: steps of everybody else, and whether the command fails. */
  datatype Gap<E> = Gap(others: seq<E>, fails: bool)

  /** What a caller that tries the numbers below `max` in random order walks over. */
  predicate IsPermutation(p: seq<nat>, max: nat) {
    && |p| == max
    && (forall i :: 0 <= i < |p| ==> p[i] < max)
    && (forall n: nat :: n < max ==> n in p)
  }
}
