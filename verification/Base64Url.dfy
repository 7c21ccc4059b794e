/**
 The unpadded URL-safe base64 of section 5 of RFC 4648, as Go decodes it: line breaks are
 skipped, spare bits ignored.
 */
module Base64Url {
  import opened Common

  /** Go strings are byte strings. */
  type Byte = c: char | c as int < 256 witness 'A'
  type Text = seq<Byte>
  type Sextet = d: nat | d < 64

  function Symbol(d: Sextet): (c: Byte)
    ensures Value(c) == Some(d)
    ensures c !in {':', '*', '?', '[', ']', '\\', '\r', '\n'}
  {
    if d < 26 then (65 + d) as char
    else if d < 52 then (97 + (d - 26)) as char
    else if d < 62 then (48 + (d - 52)) as char
    else if d == 62 then '-' else '_'
  }

  function Value(c: Byte): (r: Option<Sextet>) {
    if 'A' <= c <= 'Z' then Some(c as int - 65)
    else if 'a' <= c <= 'z' then Some(c as int - 97 + 26)
    else if '0' <= c <= '9' then Some(c as int - 48 + 52)
    else if c == '-' then Some(62)
    else if c == '_' then Some(63)
    else None
  }

  // Three bytes are four sextets.

  function First(a: Byte): Sextet { a as int / 4 }
  function Second(a: Byte, b: Byte): Sextet { a as int % 4 * 16 + b as int / 16 }
  function Third(b: Byte, c: Byte): Sextet { b as int % 16 * 4 + c as int / 64 }
  function Fourth(c: Byte): Sextet { c as int % 64 }

  function High(w: Sextet, x: Sextet): Byte { (w as int * 4 + x as int / 16) as char }
  function Middle(x: Sextet, y: Sextet): Byte { (x as int % 16 * 16 + y as int / 4) as char }
  function Low(y: Sextet, z: Sextet): Byte { (y as int % 4 * 64 + z as int) as char }

  lemma Regrouped(a: Byte, b: Byte, c: Byte)
    ensures High(First(a), Second(a, b)) == a
    ensures Middle(Second(a, b), Third(b, c)) == b
    ensures Low(Third(b, c), Fourth(c)) == c
  {
  }

  const ZERO: Byte := 0 as char

  /** The bits of the bytes, most significant first, cut into sextets; a last one is filled up with zeros. */
  function Sextets(s: Text): seq<Sextet>
    decreases |s|
  {
    if |s| == 0 then []
    else if |s| == 1 then [First(s[0]), Second(s[0], ZERO)]
    else if |s| == 2 then [First(s[0]), Second(s[0], s[1]), Third(s[1], ZERO)]
    else [First(s[0]), Second(s[0], s[1]), Third(s[1], s[2]), Fourth(s[2])] + Sextets(s[3..])
  }

  /** The bytes of the sextets; spare bits are ignored, and one sextet is too few for a byte. */
  function Bytes(v: seq<Sextet>): Option<Text>
    decreases |v|
  {
    if |v| == 0 then Some([])
    else if |v| == 1 then None
    else if |v| == 2 then Some([High(v[0], v[1])])
    else if |v| == 3 then Some([High(v[0], v[1]), Middle(v[1], v[2])])
    else
      var rest := Bytes(v[4..]);
      if rest.Some? then Some([High(v[0], v[1]), Middle(v[1], v[2]), Low(v[2], v[3])] + rest.value) else None
  }

  function Encode(s: Text): Text {
    Symbols(Sextets(s))
  }

  function Symbols(v: seq<Sextet>): (t: Text)
    ensures |t| == |v| && forall i :: 0 <= i < |v| ==> t[i] == Symbol(v[i])
  {
    if v == [] then [] else [Symbol(v[0])] + Symbols(v[1..])
  }

  /** The values of all symbols, if all are symbols. */
  function Values(t: Text): (r: Option<seq<Sextet>>)
    ensures r.Some? ==> |r.value| == |t|
  {
    if t == [] then Some([])
    else
      var first, rest := Value(t[0]), Values(t[1..]);
      if first.Some? && rest.Some? then Some([first.value] + rest.value) else None
  }

  function WithoutBreaks(t: Text): Text {
    if t == [] then []
    else if t[0] == '\r' || t[0] == '\n' then WithoutBreaks(t[1..])
    else [t[0]] + WithoutBreaks(t[1..])
  }

  function Decode(t: Text): Option<Text> {
    var v := Values(WithoutBreaks(t));
    if v.Some? then Bytes(v.value) else None
  }

  /** Only symbols of the alphabet: no separator of keys, no sign of a glob, no line break. */
  predicate Plain(t: Text) {
    forall i :: 0 <= i < |t| ==> Value(t[i]).Some?
  }

  lemma EncodePlain(s: Text)
    ensures Plain(Encode(s))
  {
  }

  lemma {:induction false} PlainKept(t: Text)
    requires Plain(t)
    ensures WithoutBreaks(t) == t
  {
    if t != [] {
      assert Value(t[0]).Some?;
      forall i | 0 <= i < |t[1..]| ensures Value(t[1..][i]).Some? {
        assert t[1..][i] == t[i + 1];
      }
      PlainKept(t[1..]);
    }
  }

  lemma {:induction false} SymbolsBack(v: seq<Sextet>)
    ensures Values(Symbols(v)) == Some(v)
  {
    if v != [] {
      SymbolsBack(v[1..]);
      assert Symbols(v)[1..] == Symbols(v[1..]);
      assert Value(Symbols(v)[0]) == Some(v[0]) && [v[0]] + v[1..] == v;
    }
  }

  lemma {:induction false} SextetsBack(s: Text)
    ensures Bytes(Sextets(s)) == Some(s)
    decreases |s|
  {
    if |s| == 1 {
      Regrouped(s[0], ZERO, ZERO);
      assert s == [s[0]];
    } else if |s| == 2 {
      Regrouped(s[0], s[1], ZERO);
      assert s == [s[0], s[1]];
    } else if |s| >= 3 {
      Regrouped(s[0], s[1], s[2]);
      SextetsBack(s[3..]);
      assert Sextets(s)[4..] == Sextets(s[3..]);
      assert s == [s[0], s[1], s[2]] + s[3..];
    }
  }

  /** Decoding undoes encoding, for every byte string. */
  lemma RoundTrip(s: Text)
    ensures Decode(Encode(s)) == Some(s)
  {
    EncodePlain(s);
    PlainKept(Encode(s));
    SymbolsBack(Sextets(s));
    SextetsBack(s);
  }

  lemma Injective(s: Text, t: Text)
    ensures Encode(s) == Encode(t) <==> s == t
  {
    RoundTrip(s);
    RoundTrip(t);
  }
}
