/**
 Keyset pagination: FeedQuery asks for one row more than the page, remembers the cursor of
 the last row it returns, and the next call continues strictly behind that cursor. The
 collection may change between two calls.
 */
module FeedPaging {
  import opened Common

  /** A document: its identity and its comparable fields. */
  datatype Row = Row(id: nat, fields: map<string, int>)

  datatype Cond = Eq(v: int) | Gt(v: int) | Lt(v: int) | Missing

  /** A filter document: conditions per field, and the parts of a `$and`, if it has one. */
  datatype Filter = Filter(conds: map<string, Cond>, parts: seq<Filter>)

  const NO_FILTER := Filter(map[], [])

  predicate Satisfies(r: Row, key: string, c: Cond) {
    match c
    case Eq(v) => key in r.fields && r.fields[key] == v
    case Gt(v) => key in r.fields && r.fields[key] > v
    case Lt(v) => key in r.fields && r.fields[key] < v
    case Missing => key !in r.fields
  }

  predicate Matches(f: Filter, r: Row)
    decreases f
  {
    && (forall k :: k in f.conds ==> Satisfies(r, k, f.conds[k]))
    && (forall i :: 0 <= i < |f.parts| ==> Matches(f.parts[i], r))
  }

  // ---------------------------------------------------------------- building the query

  /** The sort of a feed: one field, one direction. */
  datatype Order = Order(field: string, desc: bool)

  /** Where a row stands in the feed; larger is later. */
  function Pos(o: Order, r: Row): int {
    if o.field !in r.fields then 0 else if o.desc then -r.fields[o.field] else r.fields[o.field]
  }

  function CursorValue(o: Order, pos: int): int {
    if o.desc then -pos else pos
  }

  /** normalizeFeedCursorField. */
  function CursorField(name: string): string {
    if name == "" || name == "id" then "_id" else name
  }

  /**
   What a caller is to see: rows that meet the injected conditions, the caller's own ones on all
   other fields, and every part of its `$and`.
   */
  predicate Visible(f: Filter, inj: map<string, Cond>, r: Row) {
    && (forall k :: k in inj ==> Satisfies(r, k, inj[k]))
    && (forall k :: k in f.conds && k !in inj ==> Satisfies(r, k, f.conds[k]))
    && (forall i :: 0 <= i < |f.parts| ==> Matches(f.parts[i], r))
  }

  /** injectCond: isolation and soft-delete conditions are set on the filter itself. */
  function Inject(f: Filter, inj: map<string, Cond>): Filter {
    f.(conds := f.conds + inj)
  }

  /** An injected filter finds what both sides ask for; on a field of both, what was injected. */
  lemma InjectMeans(f: Filter, inj: map<string, Cond>, r: Row)
    ensures Matches(Inject(f, inj), r) <==>
            && (forall k :: k in inj ==> Satisfies(r, k, inj[k]))
            && (forall k :: k in f.conds && k !in inj ==> Satisfies(r, k, f.conds[k]))
            && (forall i :: 0 <= i < |f.parts| ==> Matches(f.parts[i], r))
    ensures Matches(Inject(f, inj), r) <==> Visible(f, inj, r)
  {
    var g := Inject(f, inj);
    if Visible(f, inj, r) {
      forall k | k in g.conds ensures Satisfies(r, k, g.conds[k]) {
        assert k in inj || k in f.conds;
      }
    }
    if Matches(g, r) {
      forall k | k in inj ensures Satisfies(r, k, inj[k]) {
        assert k in g.conds;
      }
      forall k | k in f.conds && k !in inj ensures Satisfies(r, k, f.conds[k]) {
        assert k in g.conds;
      }
    }
    assert g.parts == f.parts;
  }

  function CursorFilter(o: Order, v: int): Filter {
    Filter(map[o.field := if o.desc then Lt(v) else Gt(v)], [])
  }

  predicate IsEmpty(f: Filter) {
    |f.conds| == 0 && |f.parts| == 0
  }

  /** mergeFeedFilter. */
  function MergeFilter(base: Filter, cursor: Filter): Filter {
    if IsEmpty(base) then cursor
    else if IsEmpty(cursor) then base
    else Filter(map[], [base, cursor])
  }

  /** The filter one call queries with, and leaves in the input. */
  function QueryFilter(f: Filter, inj: map<string, Cond>, o: Order, after: Option<int>): Filter {
    var base := Inject(f, inj);
    if after.None? then base else MergeFilter(base, CursorFilter(o, CursorValue(o, after.value)))
  }

  lemma CursorFilterMeans(o: Order, pos: int, r: Row)
    requires o.field in r.fields
    ensures Matches(CursorFilter(o, CursorValue(o, pos)), r) <==> Pos(o, r) > pos
  {
    var f := CursorFilter(o, CursorValue(o, pos));
    assert Matches(f, r) <==> Satisfies(r, o.field, f.conds[o.field]);
  }

  lemma MergeMeans(a: Filter, b: Filter, r: Row)
    ensures Matches(MergeFilter(a, b), r) <==> Matches(a, r) && Matches(b, r)
  {
    if !IsEmpty(a) && !IsEmpty(b) {
      var m := Filter(map[], [a, b]);
      assert m.parts[0] == a && m.parts[1] == b;
      assert Matches(m, r) <==> Matches(m.parts[0], r) && Matches(m.parts[1], r);
    }
  }

  /** A fresh query finds the base rows behind the token. */
  lemma QueryMeans(f: Filter, inj: map<string, Cond>, o: Order, after: Option<int>, r: Row)
    requires o.field in r.fields
    ensures Matches(QueryFilter(f, inj, o, after), r) <==>
              Visible(f, inj, r) && (after.Some? ==> Pos(o, r) > after.value)
  {
    InjectMeans(f, inj, r);
    if after.Some? {
      CursorFilterMeans(o, after.value, r);
      MergeMeans(Inject(f, inj), CursorFilter(o, CursorValue(o, after.value)), r);
    }
  }

  /** On rows that carry the cursor, `g` finds what the caller of `f` is to see behind the cursor value. */
  ghost predicate Finds(g: Filter, f: Filter, inj: map<string, Cond>, o: Order, v: Option<int>) {
    forall r: Row :: o.field in r.fields ==>
      (Matches(g, r) <==> Visible(f, inj, r) && (v.Some? ==> FieldBehind(o, r, v.value)))
  }

  /** Larger for an ascending feed, smaller for a descending one. */
  predicate FieldBehind(o: Order, r: Row, v: int)
    requires o.field in r.fields
  {
    if o.desc then r.fields[o.field] < v else v < r.fields[o.field]
  }

  lemma QueryFinds(f: Filter, inj: map<string, Cond>, o: Order, after: Option<int>, v: Option<int>)
    requires after == if v.None? then None else Some(if o.desc then -v.value else v.value)
    ensures Finds(QueryFilter(f, inj, o, after), f, inj, o, v)
  {
    forall r: Row | o.field in r.fields
      ensures Matches(QueryFilter(f, inj, o, after), r) <==>
              Visible(f, inj, r) && (v.Some? ==> FieldBehind(o, r, v.value))
    {
      QueryMeans(f, inj, o, after, r);
    }
  }

  predicate Covers(base: Filter, inj: map<string, Cond>) {
    forall k :: k in inj ==> k in base.conds && base.conds[k] == inj[k]
  }

  lemma InjectIntoAnd(base: Filter, cur: Filter, inj: map<string, Cond>, r: Row)
    requires Covers(base, inj)
    ensures Matches(Filter(inj, [base, cur]), r) <==> Matches(Filter(map[], [base, cur]), r)
  {
    var g, h := Filter(map[], [base, cur]), Filter(inj, [base, cur]);
    assert g.parts[0] == base && h.parts[0] == base && g.parts[1] == cur && h.parts[1] == cur;
    assert Matches(g, r) <==> Matches(base, r) && Matches(cur, r);
    assert Matches(h, r) <==> (forall k :: k in inj ==> Satisfies(r, k, inj[k])) && Matches(base, r) && Matches(cur, r);
    if Matches(base, r) {
      forall k | k in inj ensures Satisfies(r, k, inj[k]) {
        assert k in base.conds;
      }
    }
  }

  lemma NothingInjected(f: Filter, inj: map<string, Cond>)
    requires IsEmpty(Inject(f, inj))
    ensures inj == map[]
  {
    assert forall k :: k in inj ==> k in Inject(f, inj).conds;
  }

  /** A base without conditions leaves the bare cursor condition, and there was nothing to inject. */
  lemma InjectIntoCursor(f: Filter, inj: map<string, Cond>, cur: Filter)
    requires IsEmpty(Inject(f, inj))
    ensures MergeFilter(Inject(f, inj), cur) == cur && Inject(cur, inj) == cur
  {
    NothingInjected(f, inj);
    assert cur.conds + inj == cur.conds;
  }

  /** Otherwise the filter is a `$and` around a base that carries the injected conditions. */
  lemma InjectIntoMerged(f: Filter, inj: map<string, Cond>, cur: Filter, r: Row)
    requires !IsEmpty(Inject(f, inj)) && |cur.conds| > 0
    ensures var g := MergeFilter(Inject(f, inj), cur); Matches(Inject(g, inj), r) <==> Matches(g, r)
  {
    assert map[] + inj == inj;
    InjectIntoAnd(Inject(f, inj), cur, inj, r);
  }

  lemma InjectAfterToken(f: Filter, inj: map<string, Cond>, o: Order, pos: int, r: Row)
    ensures var g := QueryFilter(f, inj, o, Some(pos)); Matches(Inject(g, inj), r) <==> Matches(g, r)
  {
    var cur := CursorFilter(o, CursorValue(o, pos));
    if IsEmpty(Inject(f, inj)) {
      InjectIntoCursor(f, inj, cur);
    } else {
      assert o.field in cur.conds;
      InjectIntoMerged(f, inj, cur, r);
    }
  }

  /** Injecting again into any filter FeedQuery leaves behind changes nothing. */
  lemma InjectAgain(f: Filter, inj: map<string, Cond>, o: Order, after: Option<int>, r: Row)
    ensures var g := QueryFilter(f, inj, o, after); Matches(Inject(g, inj), r) <==> Matches(g, r)
  {
    if after.None? {
      assert Inject(Inject(f, inj), inj) == Inject(f, inj);
    } else {
      InjectAfterToken(f, inj, o, after.value, r);
    }
  }

  /** Passing the mutated filter again, with a later token, finds exactly what a fresh query with that token finds. */
  lemma ReuseMeans(f: Filter, inj: map<string, Cond>, o: Order, before: Option<int>, next: int, r: Row)
    requires o.field in r.fields && (before.Some? ==> before.value < next)
    ensures var g := QueryFilter(f, inj, o, before);
            Matches(QueryFilter(g, inj, o, Some(next)), r) <==> Matches(QueryFilter(f, inj, o, Some(next)), r)
  {
    QueryMeans(QueryFilter(f, inj, o, before), inj, o, Some(next), r);
    InjectMeans(QueryFilter(f, inj, o, before), inj, r);
    InjectAgain(f, inj, o, before, r);
    QueryMeans(f, inj, o, before, r);
    QueryMeans(f, inj, o, Some(next), r);
  }

  // ---------------------------------------------------------------- one call

  /** How cursor values become page tokens. */
  datatype Codec = Codec(render: int -> string, parse: string -> Option<int>)

  ghost predicate Lawful(c: Codec) {
    forall v :: c.render(v) != "" && c.parse(c.render(v)) == Some(v)
  }

  datatype FeedResult = Page(rows: seq<Row>, next: string) | BadToken | NoOperator | NoCursor

  function PageSize(n: int): (r: nat)
    ensures n > 0 ==> r == n
    ensures n <= 0 ==> r == 20
  {
    if n <= 0 then 20 else n
  }

  class FeedInput {
    var filter: Filter
    var pageSize: int
    var token: string
    const order: Order

    constructor (filter: Filter, pageSize: int, token: string, field: string, desc: bool)
      ensures this.filter == filter && this.pageSize == pageSize && this.token == token
      ensures this.order == Order(CursorField(field), desc)
    {
      this.filter, this.pageSize, this.token := filter, pageSize, token;
      this.order := Order(CursorField(field), desc);
    }
  }

  /** The cursor value a token stands for, if it parses. */
  function CursorOf(c: Codec, token: string): Option<int> {
    if token == "" then None else c.parse(token)
  }

  /** The position a token stands for, if it parses. */
  function TokenPos(c: Codec, o: Order, token: string): Option<int> {
    if token == "" || c.parse(token).None? then None
    else Some(if o.desc then -c.parse(token).value else c.parse(token).value)
  }

  /** The first half of FeedQuery: the filter the query is sent with, on error paths too. */
  method PrepareFilter(input: FeedInput, c: Codec, inj: map<string, Cond>) returns (ok: bool)
    modifies input`filter
    ensures !ok <==> input.token != "" && c.parse(input.token).None?
    ensures !ok ==> input.filter == Inject(old(input.filter), inj)
    ensures ok ==>
              input.filter == QueryFilter(old(input.filter), inj, input.order, TokenPos(c, input.order, input.token))
    ensures ok ==> Finds(input.filter, old(input.filter), inj, input.order, CursorOf(c, input.token))
  {
    ghost var f, after := input.filter, TokenPos(c, input.order, input.token);
    input.filter := Inject(input.filter, inj);
    if input.token != "" {
      var v := c.parse(input.token);
      if v.None? {
        return false;
      }
      assert CursorValue(input.order, after.value) == v.value;
      input.filter := MergeFilter(input.filter, CursorFilter(input.order, v.value));
    }
    ok := true;
    assert input.filter == QueryFilter(f, inj, input.order, after);
    QueryFinds(f, inj, input.order, after, CursorOf(c, input.token));
  }

  /** The second half: the page and the token of its last row. */
  method CutPage(o: Order, n: nat, c: Codec, answer: seq<Row>) returns (r: FeedResult)
    requires n > 0
    ensures r.Page? || r == NoCursor
    ensures r.Page? && |answer| <= n ==> r == Page(answer, "")
    ensures r.Page? && |answer| > n ==> r == Page(answer[..n], c.render(CursorValue(o, Pos(o, answer[n - 1]))))
    ensures r == NoCursor <==> |answer| > n && o.field !in answer[n - 1].fields
  {
    if |answer| <= n {
      return Page(answer, "");
    }
    var last := answer[n - 1];
    if o.field !in last.fields {
      return NoCursor;
    }
    r := Page(answer[..n], c.render(last.fields[o.field]));
  }

  /**
   FeedQuery: `inj` are the injected conditions (none when the context lacks the operator they
   need), `answer` is what the database returns for the query this call sends.
   */
  method FeedQuery(input: FeedInput, c: Codec, inj: Option<map<string, Cond>>, answer: seq<Row>)
    returns (r: FeedResult)
    modifies input`filter
    ensures r == NoOperator <==> inj.None?
    ensures r == NoOperator ==> input.filter == NO_FILTER
    ensures r == BadToken <==> inj.Some? && input.token != "" && c.parse(input.token).None?
    ensures r == BadToken ==> input.filter == Inject(old(input.filter), inj.value)
    ensures r.Page? || r == NoCursor ==>
              var after := TokenPos(c, input.order, input.token);
              && input.filter == QueryFilter(old(input.filter), inj.value, input.order, after)
              && Finds(input.filter, old(input.filter), inj.value, input.order, CursorOf(c, input.token))
    ensures var n := PageSize(input.pageSize);
            r.Page? ==>
              && r.rows == (if |answer| > n then answer[..n] else answer)
              && (|answer| <= n ==> r.next == "")
              && (|answer| > n ==> r.next == c.render(CursorValue(input.order, Pos(input.order, answer[n - 1]))))
    ensures r == NoCursor ==>
              var n := PageSize(input.pageSize); |answer| > n && input.order.field !in answer[n - 1].fields
  {
    if inj.None? {
      input.filter := NO_FILTER;
      return NoOperator;
    }
    var ok := PrepareFilter(input, c, inj.value);
    if !ok {
      return BadToken;
    }
    r := CutPage(input.order, PageSize(input.pageSize), c, answer);
  }

  lemma TokenRoundTrip(c: Codec, o: Order, pos: int)
    requires Lawful(c)
    ensures TokenPos(c, o, c.render(CursorValue(o, pos))) == Some(pos)
  {
  }

  // ---------------------------------------------------------------- a whole traversal

  predicate InFeedOrder(o: Order, rows: seq<Row>) {
    forall i, j :: 0 <= i < j < |rows| ==> Pos(o, rows[i]) < Pos(o, rows[j])
  }

  predicate CutOffBefore(o: Order, limit: nat, ans: seq<Row>, r: Row) {
    |ans| == limit && limit > 0 && Pos(o, ans[limit - 1]) < Pos(o, r)
  }

  /** What the database answers: the matching rows in feed order, cut off at the limit. */
  ghost predicate Answers(coll: set<Row>, f: Filter, o: Order, limit: nat, ans: seq<Row>) {
    && |ans| <= limit
    && (forall i :: 0 <= i < |ans| ==> ans[i] in coll && Matches(f, ans[i]))
    && InFeedOrder(o, ans)
    && (forall r :: r in coll && Matches(f, r) ==> r in ans || CutOffBefore(o, limit, ans, r))
  }

  /** One call of a traversal: the collection it met, the filter it used and what came back. */
  datatype Call = Call(coll: set<Row>, filter: Filter, answer: seq<Row>)

  /** The feed a caller reads: its own filter and the conditions injected for it. */
  datatype Feed = Feed(order: Order, filter: Filter, inj: map<string, Cond>, size: nat)

  predicate InBase(d: Feed, r: Row) {
    Visible(d.filter, d.inj, r)
  }

  function Returned(d: Feed, call: Call): (r: seq<Row>)
    ensures r <= call.answer
  {
    if |call.answer| > d.size then call.answer[..d.size] else call.answer
  }

  /** How far a page with a token goes. */
  function UpTo(d: Feed, call: Call): Option<int> {
    if |call.answer| > d.size > 0 then Some(Pos(d.order, call.answer[d.size - 1])) else None
  }

  /** The token that goes with a page. */
  function TokenAfter(d: Feed, c: Codec, call: Call): string {
    if UpTo(d, call).Some? then c.render(CursorValue(d.order, UpTo(d, call).value)) else ""
  }

  /** The position behind which call i looks. */
  function After(d: Feed, calls: seq<Call>, i: nat): Option<int>
    requires i <= |calls|
  {
    if i == 0 then None else UpTo(d, calls[i - 1])
  }

  predicate Behind(d: Feed, r: Row, after: Option<int>) {
    InBase(d, r) && (after.Some? ==> Pos(d.order, r) > after.value)
  }

  /** The filter of a call means: the base rows behind the previous page. */
  ghost predicate LooksBehind(d: Feed, call: Call, after: Option<int>) {
    forall r :: r in call.coll ==> (Matches(call.filter, r) <==> Behind(d, r, after))
  }

  /** Rows carry their cursor. */
  predicate CursorsPresent(d: Feed, coll: set<Row>) {
    forall r :: r in coll ==> d.order.field in r.fields
  }

  /** A caller that builds its input anew each time looks behind the token it passes. */
  lemma FreshLooksBehind(d: Feed, f: Filter, inj: map<string, Cond>, call: Call, after: Option<int>)
    requires d.filter == f && d.inj == inj && call.filter == QueryFilter(f, inj, d.order, after)
    requires CursorsPresent(d, call.coll)
    ensures LooksBehind(d, call, after)
  {
    forall r | r in call.coll ensures Matches(call.filter, r) <==> Behind(d, r, after) {
      QueryMeans(f, inj, d.order, after, r);
    }
  }

  ghost predicate GoodCall(d: Feed, calls: seq<Call>, i: nat)
    requires i < |calls|
  {
    && Answers(calls[i].coll, calls[i].filter, d.order, d.size + 1, calls[i].answer)
    && LooksBehind(d, calls[i], After(d, calls, i))
    && (i < |calls| - 1 ==> |calls[i].answer| > d.size)
  }

  /** A traversal follows every token; all but the last call returned one. */
  ghost predicate Traversal(d: Feed, calls: seq<Call>) {
    && d.size > 0
    && forall i :: 0 <= i < |calls| ==> GoodCall(d, calls, i)
  }

  /** Rows keep their cursors, and different rows have different ones, in all the collections met. */
  ghost predicate StableCursors(d: Feed, calls: seq<Call>) {
    forall i, j, r, q :: 0 <= i < |calls| && 0 <= j < |calls| && r in calls[i].coll && q in calls[j].coll ==>
      (r.id == q.id <==> Pos(d.order, r) == Pos(d.order, q))
  }

  /** A returned row lies behind the page before it, and not behind its own page's last row. */
  lemma RowWithinPage(d: Feed, calls: seq<Call>, i: nat, k: nat)
    requires Traversal(d, calls) && i < |calls| && k < |Returned(d, calls[i])|
    ensures After(d, calls, i).Some? ==> After(d, calls, i).value < Pos(d.order, calls[i].answer[k])
    ensures After(d, calls, i + 1).Some? ==> Pos(d.order, calls[i].answer[k]) <= After(d, calls, i + 1).value
  {
    assert GoodCall(d, calls, i);
    assert calls[i].answer[k] in calls[i].coll;
  }

  lemma {:induction false} TokensAdvance(d: Feed, calls: seq<Call>, i: nat, j: nat)
    requires Traversal(d, calls) && 0 < i <= j < |calls|
    ensures After(d, calls, i).Some? && After(d, calls, j).Some? && After(d, calls, i).value <= After(d, calls, j).value
    decreases j - i
  {
    assert GoodCall(d, calls, j - 1);
    if i < j {
      TokensAdvance(d, calls, i, j - 1);
      RowWithinPage(d, calls, j - 1, d.size - 1);
    }
  }

  /** Pages move strictly forward. */
  lemma PagesAdvance(d: Feed, calls: seq<Call>, i: nat, j: nat, k: nat, l: nat)
    requires Traversal(d, calls) && i < j < |calls|
    requires k < |Returned(d, calls[i])| && l < |Returned(d, calls[j])|
    ensures Pos(d.order, calls[i].answer[k]) < Pos(d.order, calls[j].answer[l])
  {
    TokensAdvance(d, calls, i + 1, j);
    RowWithinPage(d, calls, i, k);
    RowWithinPage(d, calls, j, l);
  }

  /** No row is on two pages, whatever is inserted, deleted or edited in between. */
  lemma RowsDiffer(d: Feed, calls: seq<Call>, i: nat, j: nat, k: nat, l: nat)
    requires Traversal(d, calls) && StableCursors(d, calls) && i <= j < |calls|
    requires k < |Returned(d, calls[i])| && l < |Returned(d, calls[j])|
    requires Returned(d, calls[i])[k].id == Returned(d, calls[j])[l].id
    ensures i == j && k == l
  {
    assert GoodCall(d, calls, i) && GoodCall(d, calls, j);
    assert calls[i].answer[k] in calls[i].coll && calls[j].answer[l] in calls[j].coll;
    assert Pos(d.order, calls[i].answer[k]) == Pos(d.order, calls[j].answer[l]);
    if i < j {
      PagesAdvance(d, calls, i, j, k, l);
    } else {
      assert InFeedOrder(d.order, calls[i].answer);
    }
  }

  /** The row `id` is there and matches whenever the traversal looks. */
  ghost predicate AlwaysThere(d: Feed, calls: seq<Call>, id: nat) {
    forall i :: 0 <= i < |calls| ==> Version(d, calls[i], id)
  }

  ghost predicate Version(d: Feed, call: Call, id: nat) {
    exists r :: r in call.coll && r.id == id && InBase(d, r)
  }

  predicate ReturnedIn(d: Feed, call: Call, id: nat) {
    exists k :: 0 <= k < |Returned(d, call)| && Returned(d, call)[k].id == id
  }

  /** A matching row behind the token is on this page or behind the next token. */
  lemma OnPageOrBehind(d: Feed, calls: seq<Call>, i: nat, r: Row)
    requires Traversal(d, calls) && i < |calls| && r in calls[i].coll && Behind(d, r, After(d, calls, i))
    ensures var next := After(d, calls, i + 1);
            ReturnedIn(d, calls[i], r.id) || (next.Some? && Pos(d.order, r) > next.value)
  {
    var call := calls[i];
    assert GoodCall(d, calls, i);
    assert Matches(call.filter, r);
    if r in call.answer {
      var k :| 0 <= k < |call.answer| && call.answer[k] == r;
      if k < d.size {
        assert Returned(d, call)[k].id == r.id;
      } else {
        assert Pos(d.order, call.answer[d.size - 1]) < Pos(d.order, call.answer[k]);
      }
    } else {
      assert CutOffBefore(d.order, d.size + 1, call.answer, r);
      assert Pos(d.order, call.answer[d.size - 1]) < Pos(d.order, call.answer[d.size]);
    }
  }

  lemma {:induction false} FoundFrom(d: Feed, calls: seq<Call>, id: nat, pos: int, i: nat)
    requires Traversal(d, calls) && AlwaysThere(d, calls, id) && i < |calls|
    requires |calls[|calls| - 1].answer| <= d.size
    requires forall j, r :: 0 <= j < |calls| && r in calls[j].coll && r.id == id ==> Pos(d.order, r) == pos
    requires After(d, calls, i).Some? ==> pos > After(d, calls, i).value
    ensures exists j :: i <= j < |calls| && ReturnedIn(d, calls[j], id)
    decreases |calls| - i
  {
    assert Version(d, calls[i], id);
    var r :| r in calls[i].coll && r.id == id && InBase(d, r);
    OnPageOrBehind(d, calls, i, r);
    if !ReturnedIn(d, calls[i], id) {
      FoundFrom(d, calls, id, pos, i + 1);
    }
  }

  /** A traversal that ended returned every row that was there throughout. */
  lemma RowsFound(d: Feed, calls: seq<Call>, id: nat)
    requires Traversal(d, calls) && StableCursors(d, calls) && AlwaysThere(d, calls, id) && calls != []
    requires |calls[|calls| - 1].answer| <= d.size
    ensures exists j :: 0 <= j < |calls| && ReturnedIn(d, calls[j], id)
  {
    assert Version(d, calls[0], id);
    var r :| r in calls[0].coll && r.id == id && InBase(d, r);
    FoundFrom(d, calls, id, Pos(d.order, r), 0);
  }

  // ---------------------------------------------------------------- the calls a caller makes

  /**
   What a caller keeps: its own filter, the conditions injected for it, the rendering of tokens,
   and before which calls it leaves the filter of the call before in the input.
   */
  datatype Caller = Caller(filter: Filter, inj: map<string, Cond>, codec: Codec, reuse: nat -> bool)

  /** The filter call i passes. */
  function Passed(k: Caller, calls: seq<Call>, i: nat): Filter
    requires i < |calls|
  {
    if i > 0 && k.reuse(i) then calls[i - 1].filter else k.filter
  }

  /** Call i passes its filter and the token of the page before it; FeedQuery then sends this filter. */
  predicate Sent(d: Feed, k: Caller, calls: seq<Call>, i: nat)
    requires i < |calls|
  {
    var token := if i == 0 then "" else TokenAfter(d, k.codec, calls[i - 1]);
    calls[i].filter == QueryFilter(Passed(k, calls, i), k.inj, d.order, TokenPos(k.codec, d.order, token))
  }

  ghost predicate Made(d: Feed, k: Caller, calls: seq<Call>, i: nat)
    requires i < |calls|
  {
    && Sent(d, k, calls, i) && CursorsPresent(d, calls[i].coll)
    && Answers(calls[i].coll, calls[i].filter, d.order, d.size + 1, calls[i].answer)
    && (i < |calls| - 1 ==> |calls[i].answer| > d.size)
  }

  /** A caller follows every token, over whatever collections it meets. */
  ghost predicate Reads(d: Feed, k: Caller, calls: seq<Call>) {
    && d.size > 0 && d.filter == k.filter && d.inj == k.inj && Lawful(k.codec)
    && forall i :: 0 <= i < |calls| ==> Made(d, k, calls, i)
  }

  /** On rows that carry the cursor, the filter means: the base rows behind the position. */
  ghost predicate Means(d: Feed, filter: Filter, after: Option<int>) {
    forall r: Row :: d.order.field in r.fields ==> (Matches(filter, r) <==> Behind(d, r, after))
  }

  lemma FreshMeans(d: Feed, k: Caller, after: Option<int>)
    requires d.filter == k.filter && d.inj == k.inj
    ensures Means(d, QueryFilter(k.filter, k.inj, d.order, after), after)
  {
    forall r: Row | d.order.field in r.fields
      ensures Matches(QueryFilter(k.filter, k.inj, d.order, after), r) <==> Behind(d, r, after)
    {
      QueryMeans(k.filter, k.inj, d.order, after, r);
    }
  }

  /** A filter left in the input and asked behind a later token means the base rows behind that token. */
  lemma MutatedMeans(d: Feed, k: Caller, f: Filter, before: Option<int>, next: int)
    requires Means(d, QueryFilter(f, k.inj, d.order, before), before) && (before.Some? ==> before.value < next)
    ensures Means(d, QueryFilter(QueryFilter(f, k.inj, d.order, before), k.inj, d.order, Some(next)), Some(next))
  {
    var g := QueryFilter(f, k.inj, d.order, before);
    forall r: Row | d.order.field in r.fields
      ensures Matches(QueryFilter(g, k.inj, d.order, Some(next)), r) <==> Behind(d, r, Some(next))
    {
      ReuseMeans(f, k.inj, d.order, before, next, r);
      QueryMeans(f, k.inj, d.order, before, r);
      QueryMeans(f, k.inj, d.order, Some(next), r);
    }
  }

  /** A page with a token ends strictly behind the position its query looked behind. */
  lemma PageMoves(d: Feed, call: Call, before: Option<int>)
    requires CursorsPresent(d, call.coll) && Means(d, call.filter, before)
    requires Answers(call.coll, call.filter, d.order, d.size + 1, call.answer)
    ensures before.Some? && UpTo(d, call).Some? ==> before.value < UpTo(d, call).value
  {
    if UpTo(d, call).Some? {
      var r := call.answer[d.size - 1];
      assert r in call.coll && Matches(call.filter, r);
    }
  }

  /** The position a page's token stands for is where the page ended. */
  lemma TokenStandsFor(d: Feed, c: Codec, call: Call)
    requires Lawful(c) && UpTo(d, call).Some?
    ensures TokenPos(c, d.order, TokenAfter(d, c, call)) == UpTo(d, call)
  {
    TokenRoundTrip(c, d.order, UpTo(d, call).value);
  }

  /** Whichever filter the caller passes each time, every query means the base rows behind the last token. */
  lemma {:induction false} SentMeans(d: Feed, k: Caller, calls: seq<Call>, i: nat)
    requires Reads(d, k, calls) && i < |calls|
    ensures Means(d, calls[i].filter, After(d, calls, i))
    decreases i
  {
    SentAfter(d, k, calls, i);
    if i > 0 && k.reuse(i) {
      SentMeans(d, k, calls, i - 1);
      SentAfter(d, k, calls, i - 1);
      MutatedStep(d, k, calls[i - 1], Passed(k, calls, i - 1), After(d, calls, i - 1));
    } else {
      FreshMeans(d, k, After(d, calls, i));
    }
  }

  lemma MutatedStep(d: Feed, k: Caller, last: Call, f: Filter, before: Option<int>)
    requires last.filter == QueryFilter(f, k.inj, d.order, before)
    requires CursorsPresent(d, last.coll) && Means(d, last.filter, before)
    requires Answers(last.coll, last.filter, d.order, d.size + 1, last.answer) && UpTo(d, last).Some?
    ensures Means(d, QueryFilter(last.filter, k.inj, d.order, UpTo(d, last)), UpTo(d, last))
  {
    PageMoves(d, last, before);
    MutatedMeans(d, k, f, before, UpTo(d, last).value);
  }

  /** Call i looks behind the page before it, which has a token. */
  lemma SentAfter(d: Feed, k: Caller, calls: seq<Call>, i: nat)
    requires Reads(d, k, calls) && i < |calls|
    ensures calls[i].filter == QueryFilter(Passed(k, calls, i), k.inj, d.order, After(d, calls, i))
    ensures i > 0 ==> After(d, calls, i).Some? && CursorsPresent(d, calls[i - 1].coll)
    ensures i > 0 ==> Answers(calls[i - 1].coll, calls[i - 1].filter, d.order, d.size + 1, calls[i - 1].answer)
  {
    assert Made(d, k, calls, i);
    if i > 0 {
      assert Made(d, k, calls, i - 1);
      TokenStandsFor(d, k.codec, calls[i - 1]);
    }
  }

  lemma ReadsTraverses(d: Feed, k: Caller, calls: seq<Call>)
    requires Reads(d, k, calls)
    ensures Traversal(d, calls)
  {
    forall i | 0 <= i < |calls| ensures GoodCall(d, calls, i) {
      assert Made(d, k, calls, i);
      SentMeans(d, k, calls, i);
    }
  }

  /**
   No row is returned twice, whatever is inserted, deleted or edited between the calls, and
   whichever filter the caller passes each time.
   */
  lemma NoRowTwice(d: Feed, k: Caller, calls: seq<Call>, i: nat, j: nat, m: nat, n: nat)
    requires Reads(d, k, calls) && StableCursors(d, calls) && i <= j < |calls|
    requires m < |Returned(d, calls[i])| && n < |Returned(d, calls[j])|
    requires Returned(d, calls[i])[m].id == Returned(d, calls[j])[n].id
    ensures i == j && m == n
  {
    ReadsTraverses(d, k, calls);
    RowsDiffer(d, calls, i, j, m, n);
  }

  /** Only rows the caller is to see are returned, as they were when the page was read. */
  lemma OnlyVisibleRows(d: Feed, k: Caller, calls: seq<Call>, i: nat, m: nat)
    requires Reads(d, k, calls) && i < |calls| && m < |Returned(d, calls[i])|
    ensures Returned(d, calls[i])[m] in calls[i].coll
    ensures Visible(k.filter, k.inj, Returned(d, calls[i])[m])
  {
    ReadsTraverses(d, k, calls);
    assert GoodCall(d, calls, i);
    assert Returned(d, calls[i])[m] == calls[i].answer[m];
  }

  /** A caller that has read to the end was given every row that was there throughout (and, by NoRowTwice, once). */
  lemma NoRowMissed(d: Feed, k: Caller, calls: seq<Call>, id: nat)
    requires Reads(d, k, calls) && StableCursors(d, calls) && AlwaysThere(d, calls, id) && calls != []
    requires |calls[|calls| - 1].answer| <= d.size
    ensures exists j :: 0 <= j < |calls| && ReturnedIn(d, calls[j], id)
  {
    ReadsTraverses(d, k, calls);
    RowsFound(d, calls, id);
  }
}
