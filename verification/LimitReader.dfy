/** The reader that passes a body through up to a size limit and fails once the body proves longer. */
module LimitReader {
  import opened Common
  import opened GoInt64

  type Byte = bv8

  datatype Error = EOF | Broken(code: nat) | SizeLimitExceeded

  /** How a body behaves in one read: how much it would like to give, and the error it comes with. */
  datatype Mood = Mood(want: nat, fault: Option<Error>)

  /** How many bytes a body gives for a buffer of `room` bytes with `left` bytes to come: any short read is possible. */
  function Given(room: nat, left: nat, mood: Mood): (n: nat)
    ensures n <= room && n <= left
  {
    var most := if room < left then room else left;
    if mood.want < most then mood.want else most
  }

  /** The error it gives with them: never the limit's, and no end of file before the end. */
  function GivenError(left: nat, mood: Mood): (e: Option<Error>)
    ensures e == Some(EOF) ==> left == 0
    ensures e != Some(SizeLimitExceeded)
  {
    if mood.fault == Some(SizeLimitExceeded) || (mood.fault == Some(EOF) && left > 0) then None else mood.fault
  }

  class Body {
    const data: seq<Byte>
    var pos: nat

    ghost predicate Valid()
      reads this
    {
      pos <= |data|
    }

    constructor (bytes: seq<Byte>)
      ensures Valid() && data == bytes && pos == 0
    {
      data, pos := bytes, 0;
    }

    method Read(p: array<Byte>, room: nat, mood: Mood) returns (n: nat, err: Option<Error>)
      requires Valid() && room <= p.Length
      modifies this`pos, p
      ensures Valid() && n == Given(room, |data| - old(pos), mood) && pos == old(pos) + n
      ensures err == GivenError(|data| - pos, mood)
      ensures p[..n] == data[old(pos)..pos]
    {
      n := Given(room, |data| - pos, mood);
      for i := 0 to n
        invariant pos == old(pos) && p[..i] == data[pos..pos + i]
      {
        p[i] := data[pos + i];
      }
      pos := pos + n;
      err := GivenError(|data| - pos, mood);
    }
  }

  /** limitReadCloser; `delivered` is all it has given out. */
  class Limited {
    const body: Body
    const max: nat
    var read: int
    var over: bool
    ghost var delivered: seq<Byte>

    ghost predicate Valid()
      reads this, body
    {
      && body.Valid() && Fits(max) && read == body.pos
      && delivered == body.data[..if read < max then read else max]
      && (over <==> read > max) && read <= max + 1
    }

    constructor (b: Body, limit: nat)
      requires b.Valid() && b.pos == 0 && Fits(limit)
      ensures Valid() && body == b && max == limit && read == 0 && !over && delivered == []
    {
      body, max, read, over, delivered := b, limit, 0, false, [];
    }

    /** How much of a buffer is offered to the body: at most one byte beyond the limit. */
    method Room(length: nat) returns (room: nat)
      requires Valid() && !over
      ensures room <= length && room <= max - read + 1
      ensures length > 0 ==> room > 0
      ensures max < MAX && room < length ==> room == max - read + 1
    {
      var remaining := max - read;
      var readLimit := Wrap(remaining + 1);
      if readLimit <= 0 {
        readLimit := 1;
      }
      room := length;
      if room > readLimit {
        room := readLimit;
      }
    }

    method Read(p: array<Byte>, mood: Mood) returns (n: nat, err: Option<Error>)
      requires Valid()
      modifies this`read, this`over, this`delivered, body`pos, p
      ensures Valid() && n <= p.Length
      ensures delivered == old(delivered) + p[..n]
      // the limit's error is given exactly once it is exceeded, and for good
      ensures err == Some(SizeLimitExceeded) <==> over
      ensures old(over) ==> over && n == 0 && body.pos == old(body.pos)
      // within the limit a read is the body's own
      ensures |body.data| <= max < MAX ==>
                && n == Given(p.Length, |body.data| - old(body.pos), mood)
                && err == GivenError(|body.data| - body.pos, mood)
      ensures err == Some(EOF) ==> delivered == body.data
      // a read the body was willing to serve makes progress
      ensures !old(over) && p.Length > 0 && mood.want > 0 && old(body.pos) < |body.data| ==> body.pos > old(body.pos)
    {
      if over {
        assert p[..0] == [];
        return 0, Some(SizeLimitExceeded);
      }
      var room := Room(p.Length);
      n, err := body.Read(p, room, mood);
      read := read + n;
      if read > max {
        over := true;
        var allowed := n - (read - max);
        if allowed < 0 {
          allowed := 0;
        }
        PrefixOfCopy(p[..], body.data, n, old(body.pos), allowed);
        delivered := delivered + p[..allowed];
        return allowed, Some(SizeLimitExceeded);
      }
      PrefixOfCopy(p[..], body.data, n, old(body.pos), n);
      delivered := delivered + p[..n];
    }
  }

  /** A shorter prefix of a copied piece is a copy of the shorter piece, and continues what came before it. */
  lemma PrefixOfCopy(p: seq<Byte>, d: seq<Byte>, n: nat, at: nat, m: nat)
    requires m <= n <= |p| && at + n <= |d| && p[..n] == d[at..at + n]
    ensures p[..m] == d[at..at + m] && d[..at] + p[..m] == d[..at + m]
  {
    assert p[..m] == p[..n][..m];
  }

  /** One read as its caller sees it. */
  datatype Got = Got(bytes: seq<Byte>, err: Option<Error>)

  datatype Call = Call(size: nat, mood: Mood)

  function Joined(gots: seq<Got>): seq<Byte> {
    if gots == [] then [] else Joined(gots[..|gots| - 1]) + gots[|gots| - 1].bytes
  }

  predicate Refused(g: Got) {
    g == Got([], Some(SizeLimitExceeded))
  }

  /** From the read that exceeded the limit on, all fail, and all after it give nothing. */
  predicate FailsForGood(gots: seq<Got>) {
    forall i, j :: 0 <= i < j < |gots| && gots[i].err == Some(SizeLimitExceeded) ==> Refused(gots[j])
  }

  predicate HasFailed(gots: seq<Got>) {
    exists i :: 0 <= i < |gots| && gots[i].err == Some(SizeLimitExceeded)
  }

  predicate HasEnded(gots: seq<Got>) {
    exists i :: 0 <= i < |gots| && gots[i].err == Some(EOF)
  }

  /**
   Any reads with any buffers, of a body that gives any short reads and errors. The bytes are the
   body's first ones, never more than the limit; the limit's error means exactly `max` of them
   and a longer body; the end of file means all of it.
   */
  method ReadRun(data: seq<Byte>, max: nat, calls: seq<Call>) returns (gots: seq<Got>)
    requires 0 < max && Fits(max)
    ensures |gots| == |calls| && FailsForGood(gots)
    ensures |Joined(gots)| <= max && Joined(gots) <= data
    ensures HasFailed(gots) ==> |data| > max && Joined(gots) == data[..max]
    ensures HasEnded(gots) ==> Joined(gots) == data
  {
    gots := [];
    var body := new Body(data);
    var r := new Limited(body, max);
    for k := 0 to |calls|
      invariant fresh(r) && fresh(body) && r.body == body && body.data == data && r.max == max && r.Valid()
      invariant |gots| == k && Joined(gots) == r.delivered
      invariant HasFailed(gots) <==> r.over
      invariant FailsForGood(gots)
      invariant HasEnded(gots) ==> r.delivered == data
    {
      var p := new Byte[calls[k].size];
      var n, err := r.Read(p, calls[k].mood);
      ghost var before := gots;
      gots := gots + [Got(p[..n], err)];
      RunStep(before, Got(p[..n], err));
    }
    if HasFailed(gots) {
      assert |data| > max;
    }
  }

  lemma RunStep(gots: seq<Got>, g: Got)
    ensures Joined(gots + [g]) == Joined(gots) + g.bytes
    ensures HasFailed(gots + [g]) <==> HasFailed(gots) || g.err == Some(SizeLimitExceeded)
    ensures HasEnded(gots + [g]) <==> HasEnded(gots) || g.err == Some(EOF)
    ensures FailsForGood(gots) && (HasFailed(gots) ==> Refused(g)) ==> FailsForGood(gots + [g])
  {
    var all := gots + [g];
    assert all[..|all| - 1] == gots;
    assert all[|gots|] == g;
    if HasFailed(gots) {
      var i :| 0 <= i < |gots| && gots[i].err == Some(SizeLimitExceeded);
      assert all[i] == gots[i];
    }
    if HasEnded(gots) {
      var i :| 0 <= i < |gots| && gots[i].err == Some(EOF);
      assert all[i] == gots[i];
    }
  }
}
