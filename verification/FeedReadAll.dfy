/** Reading a whole feed from a collection that does not change: pages, in order, all of it. */
module FeedReadAll {
  import opened Common
  import opened FeedPaging

  /** Different rows have different cursors. */
  predicate DistinctCursors(o: Order, coll: set<Row>) {
    forall r, q :: r in coll && q in coll && r != q ==> Pos(o, r) != Pos(o, q)
  }

  predicate Least(o: Order, rows: set<Row>, m: Row) {
    m in rows && forall r :: r in rows ==> Pos(o, m) <= Pos(o, r)
  }

  method FirstRow(o: Order, rows: set<Row>) returns (m: Row)
    requires rows != {}
    ensures Least(o, rows, m)
  {
    m :| m in rows;
    var todo := rows - {m};
    while todo != {}
      invariant todo <= rows && m in rows
      invariant forall r :: r in rows && r !in todo ==> Pos(o, m) <= Pos(o, r)
      decreases todo
    {
      var r :| r in todo;
      if Pos(o, r) < Pos(o, m) {
        m := r;
      }
      todo := todo - {r};
    }
  }

  /** Every row picked stands before every row left. */
  predicate AllBefore(o: Order, picked: seq<Row>, left: set<Row>) {
    forall i, r :: 0 <= i < |picked| && r in left ==> Pos(o, picked[i]) < Pos(o, r)
  }

  lemma PickNext(o: Order, picked: seq<Row>, left: set<Row>, m: Row)
    requires InFeedOrder(o, picked) && AllBefore(o, picked, left) && Least(o, left, m) && DistinctCursors(o, left)
    ensures InFeedOrder(o, picked + [m]) && AllBefore(o, picked + [m], left - {m})
  {
  }

  /** The database's part: the first `limit` matching rows in feed order. */
  method Find(coll: set<Row>, f: Filter, o: Order, limit: nat) returns (ans: seq<Row>)
    requires DistinctCursors(o, coll) && limit > 0
    ensures Answers(coll, f, o, limit, ans)
  {
    ans := [];
    var matching := set r | r in coll && Matches(f, r);
    var left := matching;
    while left != {} && |ans| < limit
      invariant |ans| <= limit && left <= matching
      invariant forall i :: 0 <= i < |ans| ==> ans[i] in matching
      invariant forall r :: r in matching ==> r in ans || r in left
      invariant InFeedOrder(o, ans) && AllBefore(o, ans, left)
      decreases left
    {
      var m := FirstRow(o, left);
      PickNext(o, ans, left, m);
      left := left - {m};
      ans := ans + [m];
    }
    forall r | r in matching && r !in ans ensures CutOffBefore(o, limit, ans, r) {
      assert r in left;
    }
  }

  /** Given an input whose query looks behind `before`, the next query with the mutated input looks behind `next`. */
  lemma NextQueryMeans(f: Filter, inj: map<string, Cond>, d: Feed, before: Option<int>, next: int, call: Call)
    requires CursorsPresent(d, call.coll) && call.filter == QueryFilter(f, inj, d.order, before)
    requires LooksBehind(d, call, before) && (before.Some? ==> before.value < next)
    ensures LooksBehind(d, call.(filter := QueryFilter(call.filter, inj, d.order, Some(next))), Some(next))
  {
    forall r | r in call.coll
      ensures Matches(QueryFilter(call.filter, inj, d.order, Some(next)), r) <==> Behind(d, r, Some(next))
    {
      QueryMeans(call.filter, inj, d.order, Some(next), r);
      InjectMeans(call.filter, inj, r);
      InjectAgain(f, inj, d.order, before, r);
      assert Matches(call.filter, r) <==> Behind(d, r, before);
    }
  }

  predicate FromFeed(d: Feed, coll: set<Row>, upTo: Option<int>, rows: seq<Row>) {
    forall i :: 0 <= i < |rows| ==>
      rows[i] in coll && InBase(d, rows[i]) && (upTo.Some? ==> Pos(d.order, rows[i]) <= upTo.value)
  }

  predicate HoldsAll(d: Feed, coll: set<Row>, upTo: Option<int>, rows: seq<Row>) {
    forall r :: r in coll && InBase(d, r) && (upTo.Some? ==> Pos(d.order, r) <= upTo.value) ==> r in rows
  }

  /** The rows of the feed up to a position, or all of them. */
  predicate IsFeedUpTo(d: Feed, coll: set<Row>, upTo: Option<int>, rows: seq<Row>) {
    InFeedOrder(d.order, rows) && FromFeed(d, coll, upTo, rows) && HoldsAll(d, coll, upTo, rows)
  }

  lemma AppendInOrder(o: Order, rows: seq<Row>, page: seq<Row>, mid: int)
    requires InFeedOrder(o, rows) && InFeedOrder(o, page)
    requires forall i :: 0 <= i < |rows| ==> Pos(o, rows[i]) <= mid
    requires forall i :: 0 <= i < |page| ==> mid < Pos(o, page[i])
    ensures InFeedOrder(o, rows + page)
  {
  }

  /** The rows of a page: of the collection, matching, behind the token, in order. */
  lemma PageRows(d: Feed, call: Call, before: Option<int>)
    requires LooksBehind(d, call, before) && Answers(call.coll, call.filter, d.order, d.size + 1, call.answer)
    ensures InFeedOrder(d.order, Returned(d, call))
    ensures forall i :: 0 <= i < |Returned(d, call)| ==>
              Returned(d, call)[i] in call.coll && Behind(d, Returned(d, call)[i], before)
  {
    var page := Returned(d, call);
    forall i | 0 <= i < |page| ensures page[i] in call.coll && Behind(d, page[i], before) {
      assert page[i] == call.answer[i];
    }
  }

  /** One more page brings the rows read so far up to that page's end. */
  lemma PageExtends(d: Feed, coll: set<Row>, before: Option<int>, rows: seq<Row>, call: Call)
    requires d.size > 0 && call.coll == coll && LooksBehind(d, call, before)
    requires Answers(coll, call.filter, d.order, d.size + 1, call.answer)
    requires if before.Some? then IsFeedUpTo(d, coll, before, rows) else rows == []
    ensures IsFeedUpTo(d, coll, UpTo(d, call), rows + Returned(d, call))
    ensures before.Some? && UpTo(d, call).Some? ==> before.value < UpTo(d, call).value
  {
    var page := Returned(d, call);
    PageRows(d, call, before);
    if before.Some? {
      AppendInOrder(d.order, rows, page, before.value);
    } else {
      assert rows + page == page;
    }
    PageSound(d, coll, before, rows, call);
    PageComplete(d, coll, before, rows, call);
  }

  lemma PageSound(d: Feed, coll: set<Row>, before: Option<int>, rows: seq<Row>, call: Call)
    requires d.size > 0 && call.coll == coll && LooksBehind(d, call, before)
    requires Answers(coll, call.filter, d.order, d.size + 1, call.answer)
    requires if before.Some? then FromFeed(d, coll, before, rows) else rows == []
    ensures FromFeed(d, coll, UpTo(d, call), rows + Returned(d, call))
    ensures before.Some? && UpTo(d, call).Some? ==> before.value < UpTo(d, call).value
  {
    var page, upTo := Returned(d, call), UpTo(d, call);
    PageRows(d, call, before);
    if upTo.Some? {
      assert page[d.size - 1] == call.answer[d.size - 1] && Behind(d, page[d.size - 1], before);
    }
    forall i | 0 <= i < |page| && upTo.Some? ensures Pos(d.order, page[i]) <= upTo.value {
      assert InFeedOrder(d.order, page);
    }
  }

  lemma PageComplete(d: Feed, coll: set<Row>, before: Option<int>, rows: seq<Row>, call: Call)
    requires d.size > 0 && call.coll == coll && LooksBehind(d, call, before)
    requires Answers(coll, call.filter, d.order, d.size + 1, call.answer)
    requires if before.Some? then HoldsAll(d, coll, before, rows) else rows == []
    ensures HoldsAll(d, coll, UpTo(d, call), rows + Returned(d, call))
  {
    var all, upTo := rows + Returned(d, call), UpTo(d, call);
    forall r | r in coll && InBase(d, r) && (upTo.Some? ==> Pos(d.order, r) <= upTo.value) ensures r in all {
      if before.Some? && Pos(d.order, r) <= before.value {
        assert r in rows;
      } else {
        assert Behind(d, r, before) && Matches(call.filter, r);
        InPage(d, call, r);
      }
    }
  }

  lemma InPage(d: Feed, call: Call, r: Row)
    requires d.size > 0 && r in call.coll && Matches(call.filter, r)
    requires Answers(call.coll, call.filter, d.order, d.size + 1, call.answer)
    requires |call.answer| > d.size ==> Pos(d.order, r) <= Pos(d.order, call.answer[d.size - 1])
    ensures r in Returned(d, call)
  {
    if |call.answer| > d.size {
      assert Pos(d.order, call.answer[d.size - 1]) < Pos(d.order, call.answer[d.size]);
      assert r in call.answer;
      var k :| 0 <= k < |call.answer| && call.answer[k] == r;
      assert InFeedOrder(d.order, call.answer);
      assert k < d.size;
      assert Returned(d, call)[k] == r;
    }
  }

  ghost function Remaining(d: Feed, coll: set<Row>, rows: seq<Row>): set<Row> {
    set r | r in coll && InBase(d, r) && r !in rows
  }

  /** An input whose next query continues behind `last`, with `rows` read so far. */
  ghost predicate Continues(d: Feed, coll: set<Row>, c: Codec, inj: map<string, Cond>, filter: Filter, token: string,
                            last: Option<int>, rows: seq<Row>) {
    && TokenPos(c, d.order, token) == last && (token != "" ==> c.parse(token).Some?)
    && LooksBehind(d, Call(coll, QueryFilter(filter, inj, d.order, last), []), last)
    && (if last.Some? then IsFeedUpTo(d, coll, last, rows) else rows == [])
  }

  /** One query: what FeedQuery returns for the database's answer. */
  method Ask(input: FeedInput, coll: set<Row>, c: Codec, inj: map<string, Cond>, ghost d: Feed)
    returns (answer: seq<Row>, page: FeedResult)
    requires d.order == input.order && d.size == PageSize(input.pageSize)
    requires CursorsPresent(d, coll) && DistinctCursors(d.order, coll)
    requires input.token != "" ==> c.parse(input.token).Some?
    modifies input`filter
    ensures input.filter == QueryFilter(old(input.filter), inj, d.order, TokenPos(c, d.order, input.token))
    ensures Answers(coll, input.filter, d.order, d.size + 1, answer)
    ensures var call := Call(coll, input.filter, answer); page == Page(Returned(d, call), TokenAfter(d, c, call))
  {
    var filter := QueryFilter(input.filter, inj, input.order, TokenPos(c, input.order, input.token));
    var n := PageSize(input.pageSize);
    answer := Find(coll, filter, input.order, n + 1);
    page := FeedQuery(input, c, Some(inj), answer);
    assert |answer| > n ==> answer[n - 1] in coll;
  }

  /** A page that ends the feed, or after which the filter with the new token continues it. */
  ghost predicate Turned(d: Feed, coll: set<Row>, c: Codec, inj: map<string, Cond>, filter: Filter, rows: seq<Row>,
                         more: bool, token: string, next: Option<int>, all: seq<Row>) {
    if !more then IsFeedUpTo(d, coll, None, all)
    else
      && Continues(d, coll, c, inj, filter, token, next, all)
      && Remaining(d, coll, all) < Remaining(d, coll, rows)
  }

  /** One query and what it adds to the rows read. */
  method NextPage(input: FeedInput, coll: set<Row>, c: Codec, ghost base: Filter, inj: map<string, Cond>,
                  ghost rows: seq<Row>, ghost d: Feed, ghost last: Option<int>)
    returns (page: FeedResult, more: bool, ghost next: Option<int>)
    requires Lawful(c) && d == Feed(input.order, base, inj, PageSize(input.pageSize))
    requires CursorsPresent(d, coll) && DistinctCursors(d.order, coll)
    requires Continues(d, coll, c, inj, input.filter, input.token, last, rows)
    modifies input`filter
    ensures page.Page?
    ensures Turned(d, coll, c, inj, input.filter, rows, more, page.next, next, rows + page.rows)
    ensures Turned(d, coll, c, inj, base, rows, more, page.next, next, rows + page.rows)
  {
    ghost var f := input.filter;
    var answer;
    answer, page := Ask(input, coll, c, inj, d);
    more := |answer| > PageSize(input.pageSize);
    ghost var call := Call(coll, input.filter, answer);
    next := UpTo(d, call);
    PageTurn(d, coll, c, base, inj, f, input.token, last, rows, call);
    assert rows + page.rows == rows + Returned(d, call) && page.next == TokenAfter(d, c, call);
  }

  /** One turn of the caller's loop. */
  method ReadPage(input: FeedInput, coll: set<Row>, c: Codec, base: Filter, inj: map<string, Cond>, reuse: bool,
                  rows: seq<Row>, ghost d: Feed, ghost last: Option<int>)
    returns (all: seq<Row>, done: bool, ghost next: Option<int>)
    requires Lawful(c) && d == Feed(input.order, base, inj, PageSize(input.pageSize))
    requires CursorsPresent(d, coll) && DistinctCursors(d.order, coll)
    requires Continues(d, coll, c, inj, input.filter, input.token, last, rows)
    modifies input
    ensures input.pageSize == old(input.pageSize)
    ensures Turned(d, coll, c, inj, input.filter, rows, !done, input.token, next, all)
  {
    var page, more;
    page, more, next := NextPage(input, coll, c, base, inj, rows, d, last);
    all := rows + page.rows;
    done := !more;
    input.token := page.next;
    if more && !reuse {
      input.filter := base;
    }
  }

  /** What one more page makes of the rows read so far. */
  lemma PageTurn(d: Feed, coll: set<Row>, c: Codec, base: Filter, inj: map<string, Cond>, f: Filter, token: string,
                 last: Option<int>, rows: seq<Row>, call: Call)
    requires Lawful(c) && d.size > 0 && d.filter == base && d.inj == inj && CursorsPresent(d, coll) && call.coll == coll
    requires Continues(d, coll, c, inj, f, token, last, rows) && call.filter == QueryFilter(f, inj, d.order, last)
    requires Answers(coll, call.filter, d.order, d.size + 1, call.answer)
    ensures var next, token := UpTo(d, call), TokenAfter(d, c, call);
            && Turned(d, coll, c, inj, call.filter, rows, |call.answer| > d.size, token, next, rows + Returned(d, call))
            && Turned(d, coll, c, inj, base, rows, |call.answer| > d.size, token, next, rows + Returned(d, call))
  {
    CallContinues(d, coll, c, inj, f, token, last, rows, call);
    if |call.answer| > d.size {
      PageContinues(d, coll, c, base, inj, f, last, rows, call);
    } else {
      PageExtends(d, coll, last, rows, call);
    }
  }

  lemma PageContinues(d: Feed, coll: set<Row>, c: Codec, base: Filter, inj: map<string, Cond>, f: Filter,
                      last: Option<int>, rows: seq<Row>, call: Call)
    requires Lawful(c) && d.size > 0 && d.filter == base && d.inj == inj && CursorsPresent(d, coll) && call.coll == coll
    requires LooksBehind(d, call, last) && (if last.Some? then IsFeedUpTo(d, coll, last, rows) else rows == [])
    requires call.filter == QueryFilter(f, inj, d.order, last)
    requires Answers(coll, call.filter, d.order, d.size + 1, call.answer) && |call.answer| > d.size
    ensures var next, token := UpTo(d, call), TokenAfter(d, c, call);
            && Turned(d, coll, c, inj, call.filter, rows, true, token, next, rows + Returned(d, call))
            && Turned(d, coll, c, inj, base, rows, true, token, next, rows + Returned(d, call))
  {
    PageExtends(d, coll, last, rows, call);
    PageStep(d, coll, c, base, inj, f, last, rows, call);
  }

  lemma CallContinues(d: Feed, coll: set<Row>, c: Codec, inj: map<string, Cond>, f: Filter, token: string,
                      last: Option<int>, rows: seq<Row>, call: Call)
    requires Continues(d, coll, c, inj, f, token, last, rows)
    requires call.coll == coll && call.filter == QueryFilter(f, inj, d.order, last)
    ensures LooksBehind(d, call, last) && (if last.Some? then IsFeedUpTo(d, coll, last, rows) else rows == [])
  {
    SameMeaning(d, Call(coll, call.filter, []), call, last);
  }

  /** After a page with a token, the mutated input and a fresh one both continue behind it. */
  lemma PageStep(d: Feed, coll: set<Row>, c: Codec, base: Filter, inj: map<string, Cond>, f: Filter, last: Option<int>,
                 rows: seq<Row>, call: Call)
    requires Lawful(c) && d.size > 0 && d.filter == base && d.inj == inj && CursorsPresent(d, coll) && call.coll == coll
    requires LooksBehind(d, call, last) && call.filter == QueryFilter(f, inj, d.order, last)
    requires Answers(coll, call.filter, d.order, d.size + 1, call.answer) && |call.answer| > d.size
    requires last.Some? ==> last.value < UpTo(d, call).value
    requires IsFeedUpTo(d, coll, UpTo(d, call), rows + Returned(d, call))
    ensures var next, token := UpTo(d, call), TokenAfter(d, c, call);
            && Turned(d, coll, c, inj, call.filter, rows, true, token, next, rows + Returned(d, call))
            && Turned(d, coll, c, inj, base, rows, true, token, next, rows + Returned(d, call))
  {
    var next := UpTo(d, call);
    TokenRoundTrip(c, d.order, next.value);
    NextQueryMeans(f, inj, d, last, next.value, call);
    SameMeaning(d, call.(filter := QueryFilter(call.filter, inj, d.order, next)),
                Call(coll, QueryFilter(call.filter, inj, d.order, next), []), next);
    FreshLooksBehind(d, base, inj, Call(coll, QueryFilter(base, inj, d.order, next), []), next);
    PageRows(d, call, last);
    Progress(d, coll, rows, call);
  }

  lemma SameMeaning(d: Feed, a: Call, b: Call, after: Option<int>)
    requires LooksBehind(d, a, after) && a.coll == b.coll && a.filter == b.filter
    ensures LooksBehind(d, b, after)
  {
  }

  /**
   The loop a caller writes, with a fresh input per page or with the one FeedQuery mutated: it
   ends, and its pages put together are all matching rows, each once, in feed order.
   */
  method ReadAll(coll: set<Row>, c: Codec, base: Filter, inj: map<string, Cond>, pageSize: int, field: string,
                 desc: bool, reuse: bool)
    returns (rows: seq<Row>)
    requires Lawful(c)
    requires forall r :: r in coll ==> CursorField(field) in r.fields
    requires DistinctCursors(Order(CursorField(field), desc), coll)
    ensures forall i, j :: 0 <= i < j < |rows| ==>
      && CursorField(field) in rows[i].fields && CursorField(field) in rows[j].fields
      && var a, b := rows[i].fields[CursorField(field)], rows[j].fields[CursorField(field)];
         if desc then a > b else a < b
    ensures forall r :: r in rows <==>
      && r in coll
      && (forall k :: k in inj ==> Satisfies(r, k, inj[k]))
      && (forall k :: k in base.conds && k !in inj ==> Satisfies(r, k, base.conds[k]))
      && (forall i :: 0 <= i < |base.parts| ==> Matches(base.parts[i], r))
  {
    var input := new FeedInput(base, pageSize, "", field, desc);
    ghost var d := Feed(input.order, base, inj, PageSize(pageSize));
    ghost var last: Option<int> := None;
    var done := false;
    rows := [];
    FreshLooksBehind(d, base, inj, Call(coll, QueryFilter(base, inj, d.order, None), []), None);
    while !done
      invariant input.pageSize == pageSize && fresh(input)
      invariant if done then IsFeedUpTo(d, coll, None, rows)
                else Continues(d, coll, c, inj, input.filter, input.token, last, rows)
      decreases !done, Remaining(d, coll, rows)
    {
      rows, done, last := ReadPage(input, coll, c, base, inj, reuse, rows, d, last);
    }
  }

  lemma Progress(d: Feed, coll: set<Row>, before: seq<Row>, call: Call)
    requires d.size > 0 && |call.answer| > d.size && InFeedOrder(d.order, before + Returned(d, call))
    requires Returned(d, call)[0] in coll && InBase(d, Returned(d, call)[0])
    ensures Remaining(d, coll, before + Returned(d, call)) < Remaining(d, coll, before)
  {
    var r, all := Returned(d, call)[0], before + Returned(d, call);
    assert all[|before|] == r;
    forall k | 0 <= k < |before| ensures before[k] != r {
      assert all[k] == before[k] && Pos(d.order, all[k]) < Pos(d.order, all[|before|]);
    }
    assert r in Remaining(d, coll, before) && r !in Remaining(d, coll, all);
  }
}
