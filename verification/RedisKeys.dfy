/**
 The keys of the Redis store. All parts of one prefix keep apart: locks, numbers, leaders and
 heartbeats. Names inside leader and heartbeat keys are encoded, so that a colon always separates.
 */
module RedisKeys {
  import opened Common
  import opened Base64Url

  function MutexKey(prefix: Text, key: Text): Text {
    prefix + ":mutex:" + key
  }

  function RandomKey(prefix: Text, digits: Text): Text {
    prefix + ":random:" + digits
  }

  function LeaderKey(prefix: Text, iso: Text): Text {
    prefix + ":leader:" + Encode(iso)
  }

  /** What all heartbeat keys of one domain begin with. */
  function Domain(prefix: Text, iso: Text): Text {
    prefix + ":heartbeat:" + Encode(iso) + ":"
  }

  function HeartbeatKey(prefix: Text, iso: Text, node: Text): Text {
    Domain(prefix, iso) + Encode(node)
  }

  function HeartbeatPattern(prefix: Text, iso: Text): Text {
    Domain(prefix, iso) + "*"
  }

  // Prefixes

  lemma AppendCancels(p: Text, a: Text, b: Text)
    ensures p + a == p + b <==> a == b
  {
    assert (p + a)[|p|..] == a && (p + b)[|p|..] == b;
  }

  predicate ColonFree(t: Text) {
    forall i :: 0 <= i < |t| ==> t[i] != ':'
  }

  lemma PlainColonFree(s: Text)
    ensures ColonFree(Encode(s))
  {
    EncodePlain(s);
    forall i | 0 <= i < |Encode(s)| ensures Encode(s)[i] != ':' {
      assert Value(Encode(s)[i]).Some?;
    }
  }

  lemma FirstColonSplits(a: Text, x: Text, b: Text, y: Text)
    requires ColonFree(a) && ColonFree(b) && a + ":" + x == b + ":" + y
    ensures a == b && x == y
  {
    var u, v := a + ":" + x, b + ":" + y;
    assert u[|a|] == ':' && v[|b|] == ':';
    assert forall i :: 0 <= i < |a| ==> u[i] == a[i];
    assert forall i :: 0 <= i < |b| ==> v[i] == b[i];
    assert |a| == |b|;
    assert a == u[..|a|] && b == v[..|b|];
    assert x == u[|a| + 1..] && y == v[|b| + 1..];
  }

  /** Isolation domains never share a leader key. */
  lemma LeaderKeyInjective(prefix: Text, iso: Text, other: Text)
    ensures LeaderKey(prefix, iso) == LeaderKey(prefix, other) <==> iso == other
  {
    AppendCancels(prefix + ":leader:", Encode(iso), Encode(other));
    Injective(iso, other);
  }

  // Scanning

  /** No sign that a glob treats specially. */
  predicate GlobFree(t: Text) {
    forall i :: 0 <= i < |t| ==> t[i] !in {'*', '?', '[', '\\'}
  }

  /** Redis matching of patterns without character classes. */
  predicate Matches(pattern: Text, s: Text)
    requires '[' !in pattern
    decreases |pattern|, |s|
  {
    if pattern == [] then s == []
    else if pattern[0] == '*' then Matches(pattern[1..], s) || (s != [] && Matches(pattern, s[1..]))
    else if pattern[0] == '?' then s != [] && Matches(pattern[1..], s[1..])
    else if pattern[0] == '\\' && |pattern| > 1 then s != [] && s[0] == pattern[1] && Matches(pattern[2..], s[1..])
    else s != [] && s[0] == pattern[0] && Matches(pattern[1..], s[1..])
  }

  lemma {:induction false} StarMatchesAll(s: Text)
    ensures Matches("*", s)
  {
    if s != [] {
      StarMatchesAll(s[1..]);
    }
  }

  lemma {:induction false} LiteralsMatchThemselves(t: Text, s: Text)
    requires GlobFree(t)
    ensures Matches(t + "*", s) <==> t <= s
  {
    if t == [] {
      StarMatchesAll(s);
      assert t + "*" == "*";
    } else if s != [] {
      LiteralsMatchThemselves(t[1..], s[1..]);
      assert (t + "*")[1..] == t[1..] + "*";
      assert t <= s <==> t[0] == s[0] && t[1..] <= s[1..];
    }
  }

  lemma DomainGlobFree(prefix: Text, iso: Text)
    requires GlobFree(prefix)
    ensures GlobFree(Domain(prefix, iso))
  {
    EncodePlain(iso);
    forall i | 0 <= i < |Encode(iso)| ensures Encode(iso)[i] !in {'*', '?', '[', '\\'} {
      assert Value(Encode(iso)[i]).Some?;
    }
  }

  /** The scan pattern of a domain matches exactly the keys that begin like its heartbeat keys. */
  lemma PatternMeans(prefix: Text, iso: Text, key: Text)
    requires GlobFree(prefix)
    ensures '[' !in HeartbeatPattern(prefix, iso)
    ensures Matches(HeartbeatPattern(prefix, iso), key) <==> Domain(prefix, iso) <= key
  {
    DomainGlobFree(prefix, iso);
    LiteralsMatchThemselves(Domain(prefix, iso), key);
  }

  /** Two domains that some key both continues are one. */
  lemma DomainAndRest(prefix: Text, iso: Text, rest: Text, iso': Text, rest': Text)
    requires Domain(prefix, iso) + rest == Domain(prefix, iso') + rest'
    ensures iso == iso' && rest == rest'
  {
    var p := prefix + ":heartbeat:";
    assert Domain(prefix, iso) + rest == p + (Encode(iso) + ":" + rest);
    assert Domain(prefix, iso') + rest' == p + (Encode(iso') + ":" + rest');
    AppendCancels(p, Encode(iso) + ":" + rest, Encode(iso') + ":" + rest');
    PlainColonFree(iso);
    PlainColonFree(iso');
    FirstColonSplits(Encode(iso), rest, Encode(iso'), rest');
    Injective(iso, iso');
  }

  /** A heartbeat key says which domain and which node it belongs to. */
  lemma HeartbeatKeyInjective(prefix: Text, iso: Text, node: Text, iso': Text, node': Text)
    ensures HeartbeatKey(prefix, iso, node) == HeartbeatKey(prefix, iso', node') <==> iso == iso' && node == node'
  {
    if HeartbeatKey(prefix, iso, node) == HeartbeatKey(prefix, iso', node') {
      DomainAndRest(prefix, iso, Encode(node), iso', Encode(node'));
      Injective(node, node');
    }
  }

  lemma DomainsApart(prefix: Text, iso: Text, iso': Text, node: Text)
    ensures Domain(prefix, iso) <= HeartbeatKey(prefix, iso', node) <==> iso == iso'
  {
    var key := HeartbeatKey(prefix, iso', node);
    if Domain(prefix, iso) <= key {
      var rest := key[|Domain(prefix, iso)|..];
      assert key == Domain(prefix, iso) + rest;
      DomainAndRest(prefix, iso, rest, iso', Encode(node));
    }
  }

  lemma KindsApart(prefix: Text, iso: Text, x: Text)
    ensures !(Domain(prefix, iso) <= MutexKey(prefix, x))
    ensures !(Domain(prefix, iso) <= RandomKey(prefix, x))
    ensures !(Domain(prefix, iso) <= LeaderKey(prefix, x))
  {
    var n := |prefix| + 1;
    assert Domain(prefix, iso)[n] == 'h';
    assert MutexKey(prefix, x)[n] == 'm' && RandomKey(prefix, x)[n] == 'r' && LeaderKey(prefix, x)[n] == 'l';
  }

  /** A key this package writes under the prefix. */
  ghost predicate OwnKey(prefix: Text, key: Text) {
    || (exists x :: key == MutexKey(prefix, x))
    || (exists x :: key == RandomKey(prefix, x))
    || (exists x :: key == LeaderKey(prefix, x))
    || (exists iso, node :: key == HeartbeatKey(prefix, iso, node))
  }

  ghost predicate HeartbeatOf(prefix: Text, iso: Text, key: Text) {
    exists node :: key == HeartbeatKey(prefix, iso, node)
  }

  /** Of all keys written under a prefix, the scan of a domain finds exactly that domain's heartbeats. */
  lemma ScanFindsDomain(prefix: Text, iso: Text, key: Text)
    requires GlobFree(prefix) && OwnKey(prefix, key)
    ensures '[' !in HeartbeatPattern(prefix, iso)
    ensures Matches(HeartbeatPattern(prefix, iso), key) <==> HeartbeatOf(prefix, iso, key)
  {
    PatternMeans(prefix, iso, key);
    if Domain(prefix, iso) <= key {
      forall x ensures key != MutexKey(prefix, x) && key != RandomKey(prefix, x) && key != LeaderKey(prefix, x) {
        KindsApart(prefix, iso, x);
      }
      var iso', node :| key == HeartbeatKey(prefix, iso', node);
      DomainsApart(prefix, iso, iso', node);
    }
    if HeartbeatOf(prefix, iso, key) {
      var node :| key == HeartbeatKey(prefix, iso, node);
      DomainsApart(prefix, iso, iso, node);
    }
  }

  // Recovering the node

  /** `strings.LastIndex(key, ":")`. */
  function LastColon(key: Text): (i: int)
    ensures -1 <= i < |key|
  {
    if key == [] then -1
    else if key[|key| - 1] == ':' then |key| - 1
    else LastColon(key[..|key| - 1])
  }

  /** It is the position of the only colon with none behind it. */
  lemma {:induction false} LastColonUnique(key: Text, i: nat)
    requires i < |key| && key[i] == ':' && forall k :: i < k < |key| ==> key[k] != ':'
    ensures LastColon(key) == i
  {
    if i < |key| - 1 {
      assert key[|key| - 1] != ':';
      LastColonUnique(key[..|key| - 1], i);
    }
  }

  datatype Entry = Skipped | Unreadable | Node(name: Text)

  /** What AliveNodes makes of one key. */
  function EntryOf(key: Text): Entry {
    var i := LastColon(key);
    if i < 0 || i == |key| - 1 then Skipped
    else
      var name := Decode(key[i + 1..]);
      if name.None? then Unreadable else Node(name.value)
  }

  /** Every non-empty node key is recovered from its heartbeat key. */
  lemma NodeRecovered(prefix: Text, iso: Text, node: Text)
    ensures EntryOf(HeartbeatKey(prefix, iso, node)) == if node == "" then Skipped else Node(node)
  {
    var key, i := HeartbeatKey(prefix, iso, node), |Domain(prefix, iso)| - 1;
    assert key[i] == ':' && key[i + 1..] == Encode(node);
    PlainColonFree(node);
    forall k | i < k < |key| ensures key[k] != ':' {
      assert key[k] == Encode(node)[k - i - 1];
    }
    LastColonUnique(key, i);
    RoundTrip(node);
    assert node == "" <==> Encode(node) == "";
  }

  datatype Page = Page(keys: seq<Text>) | PageFailed

  datatype Alive = Nodes(names: seq<Text>) | Disabled | ScanFailed | DecodeFailed

  /** scanHeartbeatKeys: all pages up to the one that ends the scan. */
  method ScanHeartbeatKeys(pages: seq<Page>) returns (r: Option<seq<Text>>)
    ensures r.None? <==> PageFailed in pages
    ensures r.Some? ==> forall k :: k in r.value <==> exists p :: p in pages && p.Page? && k in p.keys
  {
    var keys: seq<Text> := [];
    for n := 0 to |pages|
      invariant PageFailed !in pages[..n]
      invariant forall k :: k in keys <==> exists p :: p in pages[..n] && p.Page? && k in p.keys
    {
      assert pages[..n + 1] == pages[..n] + [pages[n]];
      if pages[n].PageFailed? {
        return None;
      }
      keys := keys + pages[n].keys;
    }
    assert pages[..|pages|] == pages;
    r := Some(keys);
  }

  /** The loop of AliveNodes over the keys found. */
  method ReadNodes(keys: seq<Text>) returns (r: Option<seq<Text>>)
    ensures r.None? <==> exists k :: k in keys && EntryOf(k).Unreadable?
    ensures r.Some? ==> forall name :: name in r.value <==> exists k :: k in keys && EntryOf(k) == Node(name)
  {
    var names: seq<Text> := [];
    for n := 0 to |keys|
      invariant forall k :: k in keys[..n] ==> !EntryOf(k).Unreadable?
      invariant forall name :: name in names <==> exists k :: k in keys[..n] && EntryOf(k) == Node(name)
    {
      assert keys[..n + 1] == keys[..n] + [keys[n]];
      var idx := LastColon(keys[n]);
      if idx < 0 || idx == |keys[n]| - 1 {
        assert EntryOf(keys[n]) == Skipped;
        continue;
      }
      var name := Decode(keys[n][idx + 1..]);
      if name.None? {
        assert EntryOf(keys[n]) == Unreadable;
        return None;
      }
      assert EntryOf(keys[n]) == Node(name.value);
      names := names + [name.value];
    }
    assert keys[..|keys|] == keys;
    r := Some(names);
  }

  /**
   AliveNodes. If the keyspace under the prefix is this package's own and the scan returned
   matching keys only, the answer names exactly the non-empty nodes whose heartbeats were seen.
   */
  method AliveNodes(prefix: Text, iso: Text, keepHeartbeat: bool, pages: seq<Page>) returns (r: Alive)
    ensures r == Disabled <==> !keepHeartbeat
    ensures r == ScanFailed <==> keepHeartbeat && PageFailed in pages
    ensures keepHeartbeat && PageFailed !in pages && FoundInDomain(prefix, iso, pages) ==>
              && r.Nodes?
              && forall node :: node in r.names <==> node != "" && Found(pages, HeartbeatKey(prefix, iso, node))
  {
    if !keepHeartbeat {
      return Disabled;
    }
    var keys := ScanHeartbeatKeys(pages);
    if keys.None? {
      return ScanFailed;
    }
    forall k ensures k in keys.value <==> Found(pages, k) { }
    var names := ReadNodes(keys.value);
    if FoundInDomain(prefix, iso, pages) {
      NamesAreNodes(prefix, iso, keys.value);
    }
    r := if names.None? then DecodeFailed else Nodes(names.value);
  }

  ghost predicate Found(pages: seq<Page>, key: Text) {
    exists p :: p in pages && p.Page? && key in p.keys
  }

  ghost predicate FoundInDomain(prefix: Text, iso: Text, pages: seq<Page>) {
    forall k :: Found(pages, k) ==> HeartbeatOf(prefix, iso, k)
  }

  lemma NamesAreNodes(prefix: Text, iso: Text, keys: seq<Text>)
    requires forall k :: k in keys ==> HeartbeatOf(prefix, iso, k)
    ensures forall k :: k in keys ==> !EntryOf(k).Unreadable?
    ensures forall node ::
              (exists k :: k in keys && EntryOf(k) == Node(node)) <==>
              node != "" && HeartbeatKey(prefix, iso, node) in keys
  {
    forall k | k in keys
      ensures exists node ::
                && k == HeartbeatKey(prefix, iso, node)
                && EntryOf(k) == if node == "" then Skipped else Node(node)
    {
      var node :| k == HeartbeatKey(prefix, iso, node);
      NodeRecovered(prefix, iso, node);
    }
    forall node ensures EntryOf(HeartbeatKey(prefix, iso, node)) == if node == "" then Skipped else Node(node) {
      NodeRecovered(prefix, iso, node);
    }
  }
}
