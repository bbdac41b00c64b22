/** Properties of the builder's reads: what a single getAll and totalCount send, how chunk
    threads the cursor and calls back once per page, and how paginate spends its budget. */
module BuilderProps {
  import opened Php
  import opened Dynamo
  import opened Planner
  import opened Transport
  import opened Builder

  // ----- One page -----

  /** A single-page getAll sends one scan or query on the model's table with Limit only when
      `limit > -1`, the projection when columns are given, and ExclusiveStartKey only when the
      cursor it starts from (the argument when non-empty, else the stored one) is non-empty. */
  lemma GetAllSpec(s: Schema, plan: PlanFn, columns: seq<string>, limit: int, cursor: Option<Cursor>,
                   stored: Option<Cursor>, drawn: nat, script: seq<Reply>)
    requires KeepsPaging(plan)
    ensures var g := PageStep(s, plan, columns, limit, cursor, stored, drawn, script);
            var start := Stored(stored, cursor);
            g.call.ReadCall? && g.call.request.table == s.table && g.call.request.select == None &&
            g.call.request.limit == (if limit > -1 then Some(limit) else None) &&
            g.call.request.projection == (if columns == [] then None else Some(Implode(", ", columns))) &&
            g.call.request.exclusiveStartKey == (if HasCursor(start) then start else None)
  {
    var start := Stored(stored, cursor);
    var req := PageRequest(s, columns, limit, start);
    assert plan(req, drawn).request.limit == req.limit;
  }

  /** After a single-page getAll the stored cursor is the reply's LastEvaluatedKey (None when
      absent) and the rows are the reply's items, unmarshaled; when the call raises, the stored
      cursor is the one the request started from. */
  lemma GetAllReply(s: Schema, plan: PlanFn, columns: seq<string>, limit: int, cursor: Option<Cursor>,
                    stored: Option<Cursor>, drawn: nat, script: seq<Reply>)
    ensures var g := PageStep(s, plan, columns, limit, cursor, stored, drawn, script);
            (Next(script).Failure? ==> g.rows == Thrown && g.stored == Stored(stored, cursor)) &&
            (Next(script).Answer? ==> g.rows == Done(Rows(s, Next(script).items)) && g.stored == Next(script).lastEvaluatedKey)
  {
  }

  /** totalCount sends one COUNT read, with no Limit and no cursor, and answers the reply's
      Count, 0 when there is none. */
  lemma TotalCountSpec(s: Schema, plan: PlanFn, drawn: nat, script: seq<Reply>)
    requires KeepsPaging(plan)
    ensures var t := CountStep(s, plan, drawn, script);
            t.call.ReadCall? && t.call.request.table == s.table &&
            t.call.request.select == Some("COUNT") && t.call.request.returnConsumedCapacity == Some("TOTAL") &&
            t.call.request.limit == None && t.call.request.exclusiveStartKey == None
    ensures var t := CountStep(s, plan, drawn, script);
            (t.count.Thrown? <==> Next(script).Failure?) &&
            (Next(script).Answer? ==> t.count.value == if Next(script).count.Some? then Next(script).count.value else 0)
  {
    assert plan(CountRequest(s), drawn).request.limit == None;
  }

  // ----- chunk -----

  /** chunk calls back once per request that did not raise: at least one request is made, and
      when nothing raised the callback ran at least once. */
  lemma {:induction false} ChunkCallbacks(s: Schema, plan: PlanFn, size: int, stored: Option<Cursor>, drawn: nat,
                                          script: seq<Reply>)
    ensures var r := ChunkRun(s, plan, size, stored, drawn, script);
            |r.calls| >= 1 && |r.pages| == |r.calls| - (if r.failed then 1 else 0) && (!r.failed ==> |r.pages| >= 1)
    decreases |script|
  {
    var g := PageStep(s, plan, [], size, None, stored, drawn, script);
    if g.rows.Done? && HasCursor(g.stored) {
      ChunkCallbacks(s, plan, size, g.stored, g.drawn, Rest(script));
    }
  }

  /** The callback got `page`, the rows of the answer `reply`, which has a cursor. */
  predicate Forwarded(s: Schema, page: seq<Row>, reply: Reply) {
    reply.Answer? && HasCursor(reply.lastEvaluatedKey) && page == Rows(s, reply.items)
  }

  /** The callback got `page`, the rows of the answer `reply`, which has no cursor. */
  predicate Final(s: Schema, page: seq<Row>, reply: Reply) {
    reply.Answer? && !HasCursor(reply.lastEvaluatedKey) && page == Rows(s, reply.items)
  }

  /** The run `r` of chunk over the replies `script`: every request but the last was answered
      with a cursor and its rows went to the callback; a run that did not raise ends on an
      answer without one, whose cursor is the one stored; a run that raised ends on a failure. */
  predicate RepliesMatch(s: Schema, r: Run, script: seq<Reply>) {
    var n := |r.calls|;
    n >= 1 && |r.pages| >= n - 1 && n <= |script| + 1 &&
    (forall i :: 0 <= i < n - 1 ==> Forwarded(s, r.pages[i], script[i])) &&
    (!r.failed ==> n - 1 < |script| && |r.pages| == n && Final(s, r.pages[n - 1], script[n - 1]) &&
                   r.stored == script[n - 1].lastEvaluatedKey) &&
    (r.failed ==> n - 1 == |script| || script[n - 1].Failure?)
  }

  /** A run that called back with the rows of a first answer with a cursor and went on as `f`
      over the rest of the replies matches the replies when `f` matches the rest. */
  lemma RepliesCons(s: Schema, script: seq<Reply>, c: Call, r: Run, f: Run)
    requires script != [] && script[0].Answer? && HasCursor(script[0].lastEvaluatedKey)
    requires r == f.(pages := [Rows(s, script[0].items)] + f.pages, calls := [c] + f.calls)
    requires RepliesMatch(s, f, script[1..])
    ensures RepliesMatch(s, r, script)
  {
    var n := |r.calls|;
    forall i | 0 <= i < n - 1
      ensures Forwarded(s, r.pages[i], script[i])
    {
      if i > 0 {
        assert r.pages[i] == f.pages[i - 1];
        assert script[1..][i - 1] == script[i];
      }
    }
    if n - 1 < |script| {
      assert script[1..][n - 2] == script[n - 1];
    }
    if !r.failed {
      assert r.pages[n - 1] == f.pages[n - 2];
    }
  }

  /** chunk stops at the first reply without a cursor: the rows of each answer go to the
      callback in order, and the run ends on the first answer without a cursor or on the
      first failure. */
  lemma {:induction false} ChunkReplies(s: Schema, plan: PlanFn, size: int, stored: Option<Cursor>, drawn: nat,
                                        script: seq<Reply>)
    ensures RepliesMatch(s, ChunkRun(s, plan, size, stored, drawn, script), script)
    decreases |script|
  {
    GetAllReply(s, plan, [], size, None, stored, drawn, script);
    var g := PageStep(s, plan, [], size, None, stored, drawn, script);
    if g.rows.Done? {
      assert script[0] == Next(script);
    }
    if g.rows.Done? && HasCursor(g.stored) {
      var r := ChunkRun(s, plan, size, stored, drawn, script);
      var f := ChunkRun(s, plan, size, g.stored, g.drawn, Rest(script));
      ChunkReplies(s, plan, size, g.stored, g.drawn, Rest(script));
      RepliesCons(s, script, g.call, r, f);
    }
  }

  /** The read `c` starts where the answer `reply` left off. */
  predicate Resumes(c: Call, reply: Reply) {
    reply.Answer? && c.ReadCall? && c.request.exclusiveStartKey == reply.lastEvaluatedKey
  }

  /** chunk threads the cursor: every request asks for `size` items (no Limit when size is -1 or
      less) on the model's table, the first from the stored cursor when it is non-empty, and each
      later one from the cursor of the reply before it. */
  lemma {:induction false} ChunkRequests(s: Schema, plan: PlanFn, size: int, stored: Option<Cursor>, drawn: nat,
                                         script: seq<Reply>)
    requires KeepsPaging(plan)
    ensures var r := ChunkRun(s, plan, size, stored, drawn, script);
            |r.calls| >= 1 &&
            (forall k :: 0 <= k < |r.calls| ==>
               r.calls[k].ReadCall? && r.calls[k].request.table == s.table &&
               r.calls[k].request.limit == (if size > -1 then Some(size) else None)) &&
            r.calls[0].request.exclusiveStartKey == (if HasCursor(stored) then stored else None)
    ensures var r := ChunkRun(s, plan, size, stored, drawn, script);
            |r.calls| <= |script| + 1 && forall k :: 0 < k < |r.calls| ==> Resumes(r.calls[k], script[k - 1])
    decreases |script|
  {
    GetAllSpec(s, plan, [], size, None, stored, drawn, script);
    GetAllReply(s, plan, [], size, None, stored, drawn, script);
    var g := PageStep(s, plan, [], size, None, stored, drawn, script);
    var r := ChunkRun(s, plan, size, stored, drawn, script);
    if g.rows.Done? && HasCursor(g.stored) {
      var f := ChunkRun(s, plan, size, g.stored, g.drawn, Rest(script));
      ChunkRequests(s, plan, size, g.stored, g.drawn, Rest(script));
      assert r.calls == [g.call] + f.calls;
      forall k | 0 < k < |r.calls|
        ensures r.calls[k] == f.calls[k - 1]
      {
      }
      assert script[0] == Next(script) && g.stored == script[0].lastEvaluatedKey;
      assert script[0].Answer?;
      forall k | 0 < k < |r.calls|
        ensures Resumes(r.calls[k], script[k - 1])
      {
        assert r.calls[k] == f.calls[k - 1];
        if k > 1 {
          assert Rest(script)[k - 2] == script[k - 1];
        }
      }
    } else {
      assert r.calls == [g.call];
    }
  }

  // ----- paginate -----

  function Sum(xs: seq<nat>): nat {
    if xs == [] then 0 else xs[0] + Sum(xs[1..])
  }

  lemma SumCons(x: nat, xs: seq<nat>)
    ensures Sum([x] + xs) == x + Sum(xs)
  {
    assert ([x] + xs)[1..] == xs;
  }

  /** The rows of the answered replies `rs`, in order. */
  function Merged(s: Schema, rs: seq<Reply>): seq<Row> {
    if rs == [] then [] else (if rs[0].Answer? then Rows(s, rs[0].items) else []) + Merged(s, rs[1..])
  }

  /** The page of `n` items came from an answer with `n` items. */
  predicate Counted(n: nat, reply: Reply) {
    reply.Answer? && n == |reply.items|
  }

  /** The read `c` asks for at most `n` items. */
  predicate Limited(c: Call, n: int) {
    c.ReadCall? && c.request.limit == Some(n)
  }

  /** The loop `r` over the replies `script` merged the rows of its answers in order, one
      size per request that did not raise (its answer's item count), and only its last request
      can have raised. */
  predicate Merges(s: Schema, r: LoopRun, script: seq<Reply>) {
    |r.sizes| <= |script| && r.items == Merged(s, script[..|r.sizes|]) && |r.items| == Sum(r.sizes) &&
    (forall i :: 0 <= i < |r.sizes| ==> Counted(r.sizes[i], script[i])) &&
    |r.calls| == |r.sizes| + (if r.failed then 1 else 0)
  }

  /** The loop `r`, given `budget` items to read, asked each time for what was left of it and
      ended with the budget less the items read. */
  predicate Spends(r: LoopRun, budget: int) {
    r.budget == budget - Sum(r.sizes) && |r.calls| <= |r.sizes| + 1 &&
    (forall k :: 0 <= k < |r.calls| ==> Limited(r.calls[k], budget - Sum(r.sizes[..k])))
  }

  /** A loop that merged the rows of a first answer and went on as `f` over the rest of the
      replies merges the replies when `f` merges the rest. */
  lemma ShapeCons(s: Schema, script: seq<Reply>, c: Call, r: LoopRun, f: LoopRun)
    requires script != [] && script[0].Answer?
    requires r == f.(items := Rows(s, script[0].items) + f.items, sizes := [|script[0].items|] + f.sizes, calls := [c] + f.calls)
    requires Merges(s, f, script[1..])
    ensures Merges(s, r, script)
  {
    SumCons(|script[0].items|, f.sizes);
    assert script[..|r.sizes|][1..] == script[1..][..|f.sizes|];
    forall i | 0 <= i < |r.sizes|
      ensures Counted(r.sizes[i], script[i])
    {
      if i > 0 {
        assert r.sizes[i] == f.sizes[i - 1];
        assert script[1..][i - 1] == script[i];
      }
    }
  }

  /** A loop that began with a request for `budget` items, which returned `n`, and went on as
      `f` with `budget - n` left, spends `budget` when `f` spends what was left. */
  lemma LimitsCons(budget: int, n: nat, c: Call, r: LoopRun, f: LoopRun)
    requires r.sizes == [n] + f.sizes && r.calls == [c] + f.calls && r.budget == f.budget
    requires Limited(c, budget) && Spends(f, budget - n)
    ensures Spends(r, budget)
  {
    SumCons(n, f.sizes);
    forall k | 0 <= k < |r.calls|
      ensures Limited(r.calls[k], budget - Sum(r.sizes[..k]))
    {
      if k == 0 {
        assert r.sizes[..0] == [];
      } else {
        assert r.calls[k] == f.calls[k - 1];
        assert r.sizes[..k] == [n] + f.sizes[..k - 1];
        SumCons(n, f.sizes[..k - 1]);
      }
    }
  }

  /** The page loop merges the rows of the answered replies in order, one size per request that
      did not raise (its reply's item count), and a raising request ends the loop. */
  lemma {:induction false} LoopShape(s: Schema, plan: PlanFn, columns: seq<string>, total: nat, budget: int,
                                     lek: Option<Cursor>, stored: Option<Cursor>, drawn: nat, script: seq<Reply>)
    ensures Merges(s, PageLoop(s, plan, columns, total, budget, lek, stored, drawn, script), script)
    decreases |script|
  {
    if budget > 0 && total > 0 {
      var lp := if total < budget then -1 else budget;
      var g := PageStep(s, plan, columns, lp, lek, stored, drawn, script);
      GetAllReply(s, plan, columns, lp, lek, stored, drawn, script);
      if g.rows.Done? {
        assert script[0] == Next(script);
        if HasCursor(g.stored) {
          var r := PageLoop(s, plan, columns, total, budget, lek, stored, drawn, script);
          var f := PageLoop(s, plan, columns, total, lp - |g.rows.value|, g.stored, g.stored, g.drawn, Rest(script));
          LoopShape(s, plan, columns, total, lp - |g.rows.value|, g.stored, g.stored, g.drawn, Rest(script));
          ShapeCons(s, script, g.call, r, f);
        } else {
          assert Merged(s, script[..1]) == g.rows.value by {
            assert script[..1][1..] == [];
          }
        }
      }
    }
  }

  /** With a budget no larger than the total, each request's Limit is the budget left, which
      falls by exactly each page's item count. */
  lemma {:induction false} LoopBudget(s: Schema, plan: PlanFn, columns: seq<string>, total: nat, budget: int,
                                      lek: Option<Cursor>, stored: Option<Cursor>, drawn: nat, script: seq<Reply>)
    requires KeepsPaging(plan) && budget <= total
    ensures Spends(PageLoop(s, plan, columns, total, budget, lek, stored, drawn, script), budget)
    decreases |script|
  {
    var r := PageLoop(s, plan, columns, total, budget, lek, stored, drawn, script);
    if budget > 0 && total > 0 {
      var g := PageStep(s, plan, columns, budget, lek, stored, drawn, script);
      GetAllSpec(s, plan, columns, budget, lek, stored, drawn, script);
      assert r.sizes[..0] == [];
      if g.rows.Done? {
        var n := |g.rows.value|;
        if HasCursor(g.stored) {
          var f := PageLoop(s, plan, columns, total, budget - n, g.stored, g.stored, g.drawn, Rest(script));
          LoopBudget(s, plan, columns, total, budget - n, g.stored, g.stored, g.drawn, Rest(script));
          LimitsCons(budget, n, g.call, r, f);
        } else {
          SumCons(n, []);
        }
      }
    }
  }

  /** With a total smaller than the budget, paginate makes a single request, without a Limit,
      whatever the reply: the budget goes negative after it. */
  lemma LoopBelowTotal(s: Schema, plan: PlanFn, columns: seq<string>, total: nat, budget: int,
                       lek: Option<Cursor>, stored: Option<Cursor>, drawn: nat, script: seq<Reply>)
    requires KeepsPaging(plan) && 0 < total < budget
    ensures var r := PageLoop(s, plan, columns, total, budget, lek, stored, drawn, script);
            |r.calls| == 1 && r.calls[0].ReadCall? && r.calls[0].request.limit == None &&
            (!r.failed ==> r.budget < 0)
  {
    GetAllSpec(s, plan, columns, -1, lek, stored, drawn, script);
  }

  /** The page loop ends only when the budget is spent, there is nothing to count, the cursor is
      empty, or a request raised. */
  lemma {:induction false} LoopEnds(s: Schema, plan: PlanFn, columns: seq<string>, total: nat, budget: int,
                                    lek: Option<Cursor>, stored: Option<Cursor>, drawn: nat, script: seq<Reply>)
    ensures var r := PageLoop(s, plan, columns, total, budget, lek, stored, drawn, script);
            r.failed || r.budget <= 0 || total == 0 || !HasCursor(r.lek)
    decreases |script|
  {
    if budget > 0 && total > 0 {
      var lp := if total < budget then -1 else budget;
      var g := PageStep(s, plan, columns, lp, lek, stored, drawn, script);
      if g.rows.Done? && HasCursor(g.stored) {
        LoopEnds(s, plan, columns, total, lp - |g.rows.value|, g.stored, g.stored, g.drawn, Rest(script));
      }
    }
  }

  /** paginate begins with totalCount's request; with nothing to count or a limit of at most 0
      no page is read, and a limit of 0 then raises. */
  lemma PaginateNoPages(s: Schema, plan: PlanFn, columns: seq<string>, limit: int, token: Option<Cursor>,
                        encode: Cursor -> string, stored: Option<Cursor>, drawn: nat, script: seq<Reply>)
    ensures var p := PaginateRun(s, plan, columns, limit, token, encode, stored, drawn, script);
            var t := CountStep(s, plan, drawn, script);
            |p.calls| >= 1 && p.calls[0] == t.call &&
            ((t.count == Done(0) || (t.count.Done? && limit <= 0)) ==>
               p.calls == [t.call] && p.stored == stored &&
               (limit == 0 <==> p.result.Thrown?) &&
               (p.result.Done? ==> p.result.value.items == [] &&
                                   p.result.value.lastEvaluatedKey == (if HasCursor(token) then encode(token.value) else "")))
  {
    var t := CountStep(s, plan, drawn, script);
    assert [t.call] + [] == [t.call];
  }

  /** What paginate reports: the counted total, totalPage the ceiling of total / limit, the
      rows of the page loop, and the cursor where the pages stopped, encoded, or "" when it is
      empty. */
  lemma PaginateResult(s: Schema, plan: PlanFn, columns: seq<string>, limit: int, token: Option<Cursor>,
                       encode: Cursor -> string, stored: Option<Cursor>, drawn: nat, script: seq<Reply>)
    ensures var p := PaginateRun(s, plan, columns, limit, token, encode, stored, drawn, script);
            var t := CountStep(s, plan, drawn, script);
            p.result.Done? ==>
              limit != 0 && t.count.Done? && p.result.value.total == t.count.value &&
              (limit > 0 ==> (p.result.value.totalPage - 1) * limit < p.result.value.total <= p.result.value.totalPage * limit) &&
              var r := PageLoop(s, plan, columns, t.count.value, limit, token, stored, t.drawn, Rest(script));
              p.calls == [t.call] + r.calls && p.result.value.items == r.items && !r.failed &&
              p.result.value.lastEvaluatedKey == (if HasCursor(r.lek) then encode(r.lek.value) else "")
  {
  }
}
