/** The query builder object: its `$where`, order, index name, stored cursor and the uniqid()
    tokens it has drawn, and the methods that change them or talk to the client. Each method is
    proved against a function of the old state that says what it sends, what it returns and what
    the new state is; the multi-page operations (chunk, paginate) against recursive functions
    over the client's replies. */
module Builder {
  import opened Php
  import opened Dynamo
  import opened Conditions
  import opened Compiler
  import opened Planner
  import opened Requests
  import opened Transport

  /** The result of a call that may raise: a value, or an exception passed on to the caller. */
  datatype Outcome<T> = Done(value: T) | Thrown

  // ----- One page (getAll without the iterator) -----

  /** The stored cursor once getAll has taken its argument: a non-empty argument replaces it. */
  function Stored(stored: Option<Cursor>, cursor: Option<Cursor>): Option<Cursor> {
    if HasCursor(cursor) then cursor else stored
  }

  /** The request getAll builds before the planner runs. */
  function PageRequest(s: Schema, columns: seq<string>, limit: int, stored: Option<Cursor>): ReadRequest {
    var q := BaseRequest(s.table);
    var q1 := if limit > -1 then q.(limit := Some(limit)) else q;
    var q2 := if columns != [] then q1.(projection := Some(Implode(", ", columns))) else q1;
    if HasCursor(stored) then q2.(exclusiveStartKey := stored) else q2
  }

  /** The page's items unmarshaled, one model's attributes per item. */
  function Rows(s: Schema, items: seq<Item>): (r: seq<Row>)
    ensures |r| == |items|
    ensures forall i :: 0 <= i < |items| ==> r[i] == UnmarshalItem(s, items[i])
  {
    seq(|items|, i requires 0 <= i < |items| => UnmarshalItem(s, items[i]))
  }

  /** The access-path planner as the page functions use it: a request and the tokens drawn so
      far give the operation, the completed request and the tokens drawn after it. */
  type PlanFn = (ReadRequest, nat) -> Planned

  /** addConditionInQuery under the builder's criteria. */
  function PlanWith(s: Schema, c: Criteria, uniq: Uniq): PlanFn {
    (req: ReadRequest, d: nat) => Plan(s, c, uniq, req, d)
  }

  /** The planner fills only the condition fields: table, Select, ReturnConsumedCapacity,
      Limit, ProjectionExpression and ExclusiveStartKey pass through. */
  ghost predicate KeepsPaging(plan: PlanFn) {
    forall req: ReadRequest, d: nat ::
      var q := plan(req, d).request;
      q.table == req.table && q.select == req.select && q.returnConsumedCapacity == req.returnConsumedCapacity &&
      q.limit == req.limit && q.projection == req.projection && q.exclusiveStartKey == req.exclusiveStartKey
  }

  lemma PlanKeepsPaging(s: Schema, c: Criteria, uniq: Uniq)
    ensures KeepsPaging(PlanWith(s, c, uniq))
  {
  }

  /** What one getAll does: the call it makes, the tokens drawn after it, the stored cursor after
      it and the rows it returns. */
  datatype Page = Page(call: Call, drawn: nat, stored: Option<Cursor>, rows: Outcome<seq<Row>>)

  function PageStep(s: Schema, plan: PlanFn, columns: seq<string>, limit: int, cursor: Option<Cursor>,
                    stored: Option<Cursor>, drawn: nat, script: seq<Reply>): (g: Page)
    ensures g.rows.Done? ==> script != []
  {
    var start := Stored(stored, cursor);
    var p := plan(PageRequest(s, columns, limit, start), drawn);
    match Next(script)
    case Failure => Page(ReadCall(p.kind, p.request), p.drawn, start, Thrown)
    case Answer(items, lek, _, _, _) => Page(ReadCall(p.kind, p.request), p.drawn, lek, Done(Rows(s, items)))
  }

  // ----- chunk -----

  /** A run of chunk: the pages the callback receives, in order, the calls made, the final
      stored cursor, tokens and replies left, and whether a call raised. */
  datatype Run = Run(pages: seq<seq<Row>>, calls: seq<Call>, stored: Option<Cursor>, drawn: nat, script: seq<Reply>, failed: bool)

  /** chunk's loop from the stored cursor `stored`: one page, then, while the reply had a
      cursor, the rest of the run from that cursor. */
  function ChunkRun(s: Schema, plan: PlanFn, size: int, stored: Option<Cursor>, drawn: nat, script: seq<Reply>): Run
    decreases |script|
  {
    var g := PageStep(s, plan, [], size, None, stored, drawn, script);
    if g.rows.Thrown? then Run([], [g.call], g.stored, g.drawn, Rest(script), true)
    else if !HasCursor(g.stored) then Run([g.rows.value], [g.call], g.stored, g.drawn, Rest(script), false)
    else
      var f := ChunkRun(s, plan, size, g.stored, g.drawn, Rest(script));
      f.(pages := [g.rows.value] + f.pages, calls := [g.call] + f.calls)
  }

  /** The run `whole` is the pages and calls done so far followed by the run `rest`. */
  predicate ChunkAfter(whole: Run, pages: seq<seq<Row>>, calls: seq<Call>, rest: Run) {
    whole == rest.(pages := pages + rest.pages, calls := calls + rest.calls)
  }

  /** One turn of chunk's loop from a state where `pages` and `calls` are done and the rest of
      the run is still to come. */
  lemma ChunkAfterStep(s: Schema, plan: PlanFn, size: int, stored: Option<Cursor>, drawn: nat, script: seq<Reply>,
                       whole: Run, pages: seq<seq<Row>>, calls: seq<Call>)
    requires ChunkAfter(whole, pages, calls, ChunkRun(s, plan, size, stored, drawn, script))
    ensures var g := PageStep(s, plan, [], size, None, stored, drawn, script);
            (g.rows.Thrown? ==> whole == Run(pages, calls + [g.call], g.stored, g.drawn, Rest(script), true)) &&
            (g.rows.Done? && !HasCursor(g.stored) ==>
               whole == Run(pages + [g.rows.value], calls + [g.call], g.stored, g.drawn, Rest(script), false)) &&
            (g.rows.Done? && HasCursor(g.stored) ==>
               ChunkAfter(whole, pages + [g.rows.value], calls + [g.call], ChunkRun(s, plan, size, g.stored, g.drawn, Rest(script))))
  {
    var g := PageStep(s, plan, [], size, None, stored, drawn, script);
    if g.rows.Done? && HasCursor(g.stored) {
      var rest := ChunkRun(s, plan, size, g.stored, g.drawn, Rest(script));
      AppendAssoc(pages, [g.rows.value], rest.pages);
      AppendAssoc(calls, [g.call], rest.calls);
    }
  }

  // ----- totalCount -----

  /** The request totalCount builds before the planner runs. */
  function CountRequest(s: Schema): ReadRequest {
    BaseRequest(s.table).(select := Some("COUNT"), returnConsumedCapacity := Some("TOTAL"))
  }

  datatype Counted = Counted(call: Call, drawn: nat, count: Outcome<nat>)

  /** What totalCount does: one call, and the reply's Count, 0 when it has none. */
  function CountStep(s: Schema, plan: PlanFn, drawn: nat, script: seq<Reply>): Counted {
    var p := plan(CountRequest(s), drawn);
    var count := match Next(script)
      case Failure => Thrown
      case Answer(_, _, n, _, _) => Done(if n.Some? then n.value else 0);
    Counted(ReadCall(p.kind, p.request), p.drawn, count)
  }

  // ----- paginate -----

  /** The page loop of paginate: the rows merged, the item count of each page, the calls made,
      the cursor, stored cursor, tokens and replies at the end, the budget left, and whether a
      call raised. */
  datatype LoopRun = LoopRun(items: seq<Row>, sizes: seq<nat>, calls: seq<Call>, lek: Option<Cursor>,
                             stored: Option<Cursor>, drawn: nat, script: seq<Reply>, budget: int, failed: bool)

  /** paginate's loop with `budget` items still wanted: while there are items to count, one
      page (everything left when the total is below the budget), then, while the reply had a
      cursor, the rest of the loop from that cursor with the budget less the page's items.
      Merging and subtracting only for a non-empty page, as the source does, is the same as
      doing both for every page. */
  function PageLoop(s: Schema, plan: PlanFn, columns: seq<string>, total: nat, budget: int,
                    lek: Option<Cursor>, stored: Option<Cursor>, drawn: nat, script: seq<Reply>): LoopRun
    decreases |script|
  {
    if !(budget > 0 && total > 0) then LoopRun([], [], [], lek, stored, drawn, script, budget, false)
    else
      var lp := if total < budget then -1 else budget;
      var g := PageStep(s, plan, columns, lp, lek, stored, drawn, script);
      if g.rows.Thrown? then LoopRun([], [], [g.call], lek, g.stored, g.drawn, Rest(script), lp, true)
      else
        var page := g.rows.value;
        var lp' := lp - |page|;
        if !HasCursor(g.stored) then
          LoopRun(page, [|page|], [g.call], g.stored, g.stored, g.drawn, Rest(script), lp', false)
        else
          var f := PageLoop(s, plan, columns, total, lp', g.stored, g.stored, g.drawn, Rest(script));
          f.(items := page + f.items, sizes := [|page|] + f.sizes, calls := [g.call] + f.calls)
  }

  /** The loop `whole` is the items, sizes and calls done so far followed by the loop `rest`. */
  predicate LoopAfter(whole: LoopRun, items: seq<Row>, sizes: seq<nat>, calls: seq<Call>, rest: LoopRun) {
    whole == rest.(items := items + rest.items, sizes := sizes + rest.sizes, calls := calls + rest.calls)
  }

  /** One turn of paginate's loop from a state where `items`, `sizes` and `calls` are done and
      the rest of the loop is still to come. */
  lemma LoopAfterStep(s: Schema, plan: PlanFn, columns: seq<string>, total: nat, budget: int,
                      lek: Option<Cursor>, stored: Option<Cursor>, drawn: nat, script: seq<Reply>,
                      whole: LoopRun, items: seq<Row>, sizes: seq<nat>, calls: seq<Call>)
    requires LoopAfter(whole, items, sizes, calls, PageLoop(s, plan, columns, total, budget, lek, stored, drawn, script))
    ensures !(budget > 0 && total > 0) ==> whole == LoopRun(items, sizes, calls, lek, stored, drawn, script, budget, false)
    ensures budget > 0 && total > 0 ==>
              var lp := if total < budget then -1 else budget;
              var g := PageStep(s, plan, columns, lp, lek, stored, drawn, script);
              (g.rows.Thrown? ==> whole == LoopRun(items, sizes, calls + [g.call], lek, g.stored, g.drawn, Rest(script), lp, true)) &&
              (g.rows.Done? && !HasCursor(g.stored) ==>
                 whole == LoopRun(items + g.rows.value, sizes + [|g.rows.value|], calls + [g.call], g.stored, g.stored,
                                  g.drawn, Rest(script), lp - |g.rows.value|, false)) &&
              (g.rows.Done? && HasCursor(g.stored) ==>
                 LoopAfter(whole, items + g.rows.value, sizes + [|g.rows.value|], calls + [g.call],
                           PageLoop(s, plan, columns, total, lp - |g.rows.value|, g.stored, g.stored, g.drawn, Rest(script))))
  {
    if budget > 0 && total > 0 {
      var lp := if total < budget then -1 else budget;
      var g := PageStep(s, plan, columns, lp, lek, stored, drawn, script);
      if g.rows.Done? && HasCursor(g.stored) {
        var page := g.rows.value;
        var rest := PageLoop(s, plan, columns, total, lp - |page|, g.stored, g.stored, g.drawn, Rest(script));
        AppendAssoc(items, page, rest.items);
        AppendAssoc(sizes, [|page|], rest.sizes);
        AppendAssoc(calls, [g.call], rest.calls);
      }
    }
  }

  /** The turn of paginate's loop that reads a page with a cursor leaves the rest of the loop
      to come from the state after it. */
  lemma LoopAfterNext(s: Schema, plan: PlanFn, columns: seq<string>, total: nat, budget: int,
                      lek: Option<Cursor>, stored: Option<Cursor>, drawn: nat, script: seq<Reply>,
                      whole: LoopRun, items: seq<Row>, sizes: seq<nat>, calls: seq<Call>,
                      items': seq<Row>, sizes': seq<nat>, calls': seq<Call>, budget': int,
                      lek': Option<Cursor>, stored': Option<Cursor>, drawn': nat, script': seq<Reply>)
    requires LoopAfter(whole, items, sizes, calls, PageLoop(s, plan, columns, total, budget, lek, stored, drawn, script))
    requires budget > 0 && total > 0
    requires var lp := if total < budget then -1 else budget;
             var g := PageStep(s, plan, columns, lp, lek, stored, drawn, script);
             g.rows.Done? && HasCursor(g.stored) &&
             items' == items + g.rows.value && sizes' == sizes + [|g.rows.value|] && calls' == calls + [g.call] &&
             budget' == lp - |g.rows.value| && lek' == g.stored && stored' == g.stored && drawn' == g.drawn &&
             script' == Rest(script)
    ensures LoopAfter(whole, items', sizes', calls', PageLoop(s, plan, columns, total, budget', lek', stored', drawn', script'))
  {
    LoopAfterStep(s, plan, columns, total, budget, lek, stored, drawn, script, whole, items, sizes, calls);
  }

  /** The array paginate returns. */
  datatype PageResult = PageResult(total: nat, totalPage: int, lastEvaluatedKey: string, items: seq<Row>)

  datatype Pagination = Pagination(result: Outcome<PageResult>, calls: seq<Call>, stored: Option<Cursor>, drawn: nat, script: seq<Reply>)

  /** What paginate does: totalCount, the page loop from the decoded token, then the result;
      a limit of 0 divides by zero once the pages are read. `encode` is json_encode. */
  function PaginateRun(s: Schema, plan: PlanFn, columns: seq<string>, limit: int, token: Option<Cursor>,
                       encode: Cursor -> string, stored: Option<Cursor>, drawn: nat, script: seq<Reply>): Pagination
  {
    var t := CountStep(s, plan, drawn, script);
    if t.count.Thrown? then Pagination(Thrown, [t.call], stored, t.drawn, Rest(script))
    else
      var total := t.count.value;
      var r := PageLoop(s, plan, columns, total, limit, token, stored, t.drawn, Rest(script));
      var calls := [t.call] + r.calls;
      if r.failed || limit == 0 then Pagination(Thrown, calls, r.stored, r.drawn, r.script)
      else
        var key := if HasCursor(r.lek) then encode(r.lek.value) else "";
        Pagination(Done(PageResult(total, CeilDiv(total, limit), key, r.items)), calls, r.stored, r.drawn, r.script)
  }

  // ----- Single calls -----

  /** delete, increment and decrement return whether the response's status code is 200. */
  function StatusOk(r: Reply): Outcome<bool> {
    match r
    case Failure => Thrown
    case Answer(_, _, _, _, status) => Done(status == 200)
  }

  function BatchCalls(bs: seq<BatchWriteRequest>): (r: seq<Call>)
    ensures |r| == |bs| && forall i :: 0 <= i < |bs| ==> r[i] == BatchWriteCall(bs[i])
  {
    seq(|bs|, i requires 0 <= i < |bs| => BatchWriteCall(bs[i]))
  }

  /** The replies left after n calls. */
  function Skip(script: seq<Reply>, n: nat): seq<Reply> {
    if n == 0 then script else Rest(Skip(script, n - 1))
  }

  /** The model a builder works for: its attribute array. */
  class Model {
    var attributes: Row

    constructor (attributes: Row)
      ensures this.attributes == attributes
    {
      this.attributes := attributes;
    }
  }

  class QueryBuilder {
    const schema: Schema
    const uniq: Uniq
    const model: Model
    const client: Client

    var where: seq<Entry>
    var orderBy: string
    var indexName: string
    var lastEvaluatedKey: Option<Cursor>
    /** The uniqid() tokens drawn so far. */
    var drawn: nat

    /** The builder's invariant: the collaborators are as the builder assumes and `$where` is a
        PHP array (no key twice). */
    predicate Valid()
      reads this
    {
      schema.Valid() && WellFormed(where)
    }

    /** The query criteria the planner reads. */
    function Crit(): Criteria
      reads this
    {
      Criteria(where, indexName, orderBy)
    }

    /** newQuery() of the model: a fresh builder, with where('deleted_at', null) on a
        soft-deleting model. */
    constructor (schema: Schema, uniq: Uniq, model: Model, client: Client)
      requires schema.Valid()
      ensures this.schema == schema && this.uniq == uniq && this.model == model && this.client == client
      ensures where == DefaultWhere(schema) && orderBy == "" && indexName == ""
      ensures lastEvaluatedKey == None && drawn == 0
      ensures Valid()
    {
      this.schema := schema;
      this.uniq := uniq;
      this.model := model;
      this.client := client;
      where := DefaultWhere(schema);
      orderBy := "";
      indexName := "";
      lastEvaluatedKey := None;
      drawn := 0;
      new;
      DefaultWhereWellFormed(schema);
    }

    // ----- Conditions -----

    /** where($column, $operator, $value, $boolean) called with `argc` arguments; `error` is the
        exception raised, if any. */
    method Where(column: ColumnArg, operator: Value, value: Value, boolean: string, argc: nat) returns (error: Option<Error>)
      requires Valid()
      modifies this
      ensures Valid()
      ensures var a := AddWhere(schema, old(where), column, operator, value, boolean, argc);
              where == a.where && error == a.error
      ensures orderBy == old(orderBy) && indexName == old(indexName)
      ensures lastEvaluatedKey == old(lastEvaluatedKey) && drawn == old(drawn)
    {
      AddWhereWellFormed(schema, where, column, operator, value, boolean, argc);
      var a := AddWhere(schema, where, column, operator, value, boolean, argc);
      where := a.where;
      error := a.error;
    }

    /** orWhere: where with boolean 'OR'. */
    method OrWhere(column: ColumnArg, operator: Value, value: Value) returns (error: Option<Error>)
      requires Valid()
      modifies this
      ensures Valid()
      ensures var a := AddWhere(schema, old(where), column, operator, value, "OR", 4);
              where == a.where && error == a.error
      ensures orderBy == old(orderBy) && indexName == old(indexName)
      ensures lastEvaluatedKey == old(lastEvaluatedKey) && drawn == old(drawn)
    {
      error := Where(column, operator, value, "OR", 4);
    }

    /** withTrashed: drops the deleted_at condition, wherever it stands. */
    method WithTrashed()
      requires Valid()
      modifies this
      ensures Valid()
      ensures where == Forget(old(where), Column(DELETED_AT))
      ensures orderBy == old(orderBy) && indexName == old(indexName)
      ensures lastEvaluatedKey == old(lastEvaluatedKey) && drawn == old(drawn)
    {
      ForgetWellFormed(where, Column(DELETED_AT));
      where := Forget(where, Column(DELETED_AT));
    }

    /** onlyTrashed: where('deleted_at', '>', 1). */
    method OnlyTrashed()
      requires Valid()
      modifies this
      ensures Valid()
      ensures where == AddNamed(schema, old(where), DELETED_AT, VStr(">"), VInt(1), "AND", 3).where
      ensures orderBy == old(orderBy) && indexName == old(indexName)
      ensures lastEvaluatedKey == old(lastEvaluatedKey) && drawn == old(drawn)
    {
      var _ := Where(Named(DELETED_AT), VStr(">"), VInt(1), "AND", 3);
    }

    method OrderBy(direction: string)
      modifies this
      ensures orderBy == direction
      ensures where == old(where) && indexName == old(indexName)
      ensures lastEvaluatedKey == old(lastEvaluatedKey) && drawn == old(drawn)
    {
      orderBy := direction;
    }

    method UseIndex(name: string)
      modifies this
      ensures indexName == name
      ensures where == old(where) && orderBy == old(orderBy)
      ensures lastEvaluatedKey == old(lastEvaluatedKey) && drawn == old(drawn)
    {
      indexName := name;
    }

    // ----- Reading pages -----

    /** getAll($columns, $limit, false, $cursor): one scan or query. When it raises, the stored
        cursor has already taken the argument. */
    method GetAll(columns: seq<string>, limit: int, cursor: Option<Cursor>) returns (rows: Outcome<seq<Row>>)
      requires Valid()
      modifies this, client
      ensures Valid() && where == old(where) && orderBy == old(orderBy) && indexName == old(indexName)
      ensures var g := PageStep(schema, PlanWith(schema, old(Crit()), uniq), columns, limit, cursor, old(lastEvaluatedKey), old(drawn), old(client.script));
              rows == g.rows && client.sent == old(client.sent) + [g.call] &&
              lastEvaluatedKey == g.stored && drawn == g.drawn
      ensures client.script == Rest(old(client.script))
    {
      var query := BaseRequest(schema.table);
      if limit > -1 {
        query := query.(limit := Some(limit));
      }
      if HasCursor(cursor) {
        lastEvaluatedKey := cursor;
      }
      if columns != [] {
        query := query.(projection := Some(Implode(", ", columns)));
      }
      if HasCursor(lastEvaluatedKey) {
        query := query.(exclusiveStartKey := lastEvaluatedKey);
      }
      var op, d;
      op, query, d := AddConditionInQuery(schema, Criteria(where, indexName, orderBy), uniq, query, drawn);
      drawn := d;
      var reply := client.Send(ReadCall(op, query));
      match reply
      case Failure =>
        rows := Thrown;
      case Answer(items, lek, _, _, _) =>
        lastEvaluatedKey := lek;
        rows := Done(Rows(schema, items));
    }

    /** chunk($size, $callback): pages of `size` from the stored cursor until a page comes without
        a cursor; `pages` are the collections the callback receives, in order, and `failed` says
        that a call raised after them. */
    method Chunk(size: int) returns (pages: seq<seq<Row>>, failed: bool)
      requires Valid()
      modifies this, client
      ensures Valid() && where == old(where) && orderBy == old(orderBy) && indexName == old(indexName)
      ensures var r := ChunkRun(schema, PlanWith(schema, old(Crit()), uniq), size, old(lastEvaluatedKey), old(drawn), old(client.script));
              pages == r.pages && failed == r.failed && client.sent == old(client.sent) + r.calls &&
              lastEvaluatedKey == r.stored && drawn == r.drawn && client.script == r.script
    {
      pages := [];
      failed := false;
      ghost var calls: seq<Call> := [];
      ghost var r0 := ChunkRun(schema, PlanWith(schema, Crit(), uniq), size, lastEvaluatedKey, drawn, client.script);
      while true
        invariant Valid() && where == old(where) && orderBy == old(orderBy) && indexName == old(indexName)
        invariant client.sent == old(client.sent) + calls
        invariant ChunkAfter(r0, pages, calls, ChunkRun(schema, PlanWith(schema, Crit(), uniq), size, lastEvaluatedKey, drawn, client.script))
        decreases |client.script|
      {
        var results;
        results, pages, calls := ChunkTurn(size, pages, r0, calls, old(client.sent));
        if results.Thrown? {
          failed := true;
          return;
        }
        if !HasCursor(lastEvaluatedKey) {
          return;
        }
      }
    }

    /** One turn of chunk's loop from a state where `pages` and `calls` are done and the rest of
        the run `r0` is still to come: a page of `size` from the stored cursor, handed on. */
    method ChunkTurn(size: int, pages: seq<seq<Row>>, ghost r0: Run, ghost calls: seq<Call>, ghost base: seq<Call>)
      returns (results: Outcome<seq<Row>>, pages': seq<seq<Row>>, ghost calls': seq<Call>)
      requires Valid() && client.sent == base + calls
      requires ChunkAfter(r0, pages, calls, ChunkRun(schema, PlanWith(schema, Crit(), uniq), size, lastEvaluatedKey, drawn, client.script))
      modifies this, client
      ensures Valid() && where == old(where) && orderBy == old(orderBy) && indexName == old(indexName)
      ensures client.sent == base + calls'
      ensures results.Thrown? ==> r0 == Run(pages', calls', lastEvaluatedKey, drawn, client.script, true)
      ensures results.Done? && !HasCursor(lastEvaluatedKey) ==>
                r0 == Run(pages', calls', lastEvaluatedKey, drawn, client.script, false)
      ensures results.Done? && HasCursor(lastEvaluatedKey) ==>
                |client.script| < |old(client.script)| &&
                ChunkAfter(r0, pages', calls', ChunkRun(schema, PlanWith(schema, Crit(), uniq), size, lastEvaluatedKey, drawn, client.script))
    {
      ghost var plan := PlanWith(schema, Crit(), uniq);
      ghost var g := PageStep(schema, plan, [], size, None, lastEvaluatedKey, drawn, client.script);
      ChunkAfterStep(schema, plan, size, lastEvaluatedKey, drawn, client.script, r0, pages, calls);
      ghost var script0 := client.script;
      results := GetAll([], size, None);
      assert results == g.rows && lastEvaluatedKey == g.stored && drawn == g.drawn && client.script == Rest(script0);
      calls' := calls + [g.call];
      AppendAssoc(base, calls, [g.call]);
      pages' := pages;
      if results.Done? {
        pages' := pages + [results.value];
      }
    }

    /** totalCount(): a COUNT read under the current conditions. */
    method TotalCount() returns (count: Outcome<nat>)
      requires Valid()
      modifies this, client
      ensures Valid() && where == old(where) && orderBy == old(orderBy) && indexName == old(indexName)
      ensures var t := CountStep(schema, PlanWith(schema, old(Crit()), uniq), old(drawn), old(client.script));
              count == t.count && client.sent == old(client.sent) + [t.call] && drawn == t.drawn
      ensures lastEvaluatedKey == old(lastEvaluatedKey) && client.script == Rest(old(client.script))
    {
      var query := BaseRequest(schema.table).(select := Some("COUNT"), returnConsumedCapacity := Some("TOTAL"));
      var op, d;
      op, query, d := AddConditionInQuery(schema, Criteria(where, indexName, orderBy), uniq, query, drawn);
      drawn := d;
      var reply := client.Send(ReadCall(op, query));
      match reply
      case Failure =>
        count := Thrown;
      case Answer(_, _, n, _, _) =>
        count := Done(if n.Some? then n.value else 0);
    }

    /** paginate($columns, $limit, $token), the token given as json_decode has read it and
        `encode` standing for json_encode. */
    method Paginate(columns: seq<string>, limit: int, token: Option<Cursor>, encode: Cursor -> string)
      returns (result: Outcome<PageResult>)
      requires Valid()
      modifies this, client
      ensures Valid() && where == old(where) && orderBy == old(orderBy) && indexName == old(indexName)
      ensures var p := PaginateRun(schema, PlanWith(schema, old(Crit()), uniq), columns, limit, token, encode,
                                   old(lastEvaluatedKey), old(drawn), old(client.script));
              result == p.result && client.sent == old(client.sent) + p.calls &&
              lastEvaluatedKey == p.stored && drawn == p.drawn && client.script == p.script
    {
      ghost var plan := PlanWith(schema, Crit(), uniq);
      ghost var t := CountStep(schema, plan, drawn, client.script);
      ghost var sent := client.sent;
      var totalCount := TotalCount();
      if totalCount.Thrown? {
        result := Thrown;
        return;
      }
      var total := totalCount.value;
      ghost var r := PageLoop(schema, plan, columns, total, limit, token, lastEvaluatedKey, drawn, client.script);
      var results, lek, failed := ReadPages(columns, total, limit, token);
      AppendAssoc(sent, [t.call], r.calls);
      if failed {
        result := Thrown;
        return;
      }
      if limit == 0 {
        result := Thrown;
        return;
      }
      var key := if HasCursor(lek) then encode(lek.value) else "";
      result := Done(PageResult(total, CeilDiv(total, limit), key, results));
    }

    /** The page loop of paginate: while pages are wanted and there are items, read a page (all
        that is left of the total when fewer than the limit remain) and go on from its
        LastEvaluatedKey. `failed` says the loop ended by an exception. */
    method ReadPages(columns: seq<string>, total: nat, limit: int, token: Option<Cursor>)
      returns (results: seq<Row>, lek: Option<Cursor>, failed: bool)
      requires Valid()
      modifies this, client
      ensures Valid() && where == old(where) && orderBy == old(orderBy) && indexName == old(indexName)
      ensures var r := PageLoop(schema, PlanWith(schema, old(Crit()), uniq), columns, total, limit, token,
                                old(lastEvaluatedKey), old(drawn), old(client.script));
              results == r.items && lek == r.lek && failed == r.failed &&
              client.sent == old(client.sent) + r.calls &&
              lastEvaluatedKey == r.stored && drawn == r.drawn && client.script == r.script
    {
      var limitProcess := limit;
      lek := token;
      results := [];
      failed := false;
      ghost var sizes: seq<nat> := [];
      ghost var calls: seq<Call> := [];
      ghost var r0 := PageLoop(schema, PlanWith(schema, Crit(), uniq), columns, total, limit, token, lastEvaluatedKey, drawn, client.script);
      while limitProcess > 0 && total > 0
        invariant Valid() && where == old(where) && orderBy == old(orderBy) && indexName == old(indexName)
        invariant client.sent == old(client.sent) + calls
        invariant LoopAfter(r0, results, sizes, calls, PageLoop(schema, PlanWith(schema, Crit(), uniq), columns, total, limitProcess,
                                                                lek, lastEvaluatedKey, drawn, client.script))
        decreases |client.script|
      {
        var items;
        items, results, limitProcess, sizes, calls := PageTurn(columns, total, limitProcess, lek, results, r0, sizes, calls, old(client.sent));
        if items.Thrown? {
          failed := true;
          return;
        }
        lek := lastEvaluatedKey;
        if !HasCursor(lek) {
          return;
        }
      }
      LoopAfterStep(schema, PlanWith(schema, Crit(), uniq), columns, total, limitProcess, lek, lastEvaluatedKey, drawn, client.script,
                    r0, results, sizes, calls);
    }

    /** One turn of paginate's loop, under its guard, from a state where `results`, `sizes` and
        `calls` are done and the rest of the loop `r0` is still to come: the page read with the
        budget (all that is left when the total is below it), merged and subtracted from the
        budget when it is not empty. */
    method PageTurn(columns: seq<string>, total: nat, limitProcess: int, lek: Option<Cursor>, results: seq<Row>,
                    ghost r0: LoopRun, ghost sizes: seq<nat>, ghost calls: seq<Call>, ghost base: seq<Call>)
      returns (items: Outcome<seq<Row>>, results': seq<Row>, limitProcess': int, ghost sizes': seq<nat>, ghost calls': seq<Call>)
      requires Valid() && limitProcess > 0 && total > 0 && client.sent == base + calls
      requires LoopAfter(r0, results, sizes, calls, PageLoop(schema, PlanWith(schema, Crit(), uniq), columns, total, limitProcess,
                                                             lek, lastEvaluatedKey, drawn, client.script))
      modifies this, client
      ensures Valid() && where == old(where) && orderBy == old(orderBy) && indexName == old(indexName)
      ensures client.sent == base + calls'
      ensures items.Thrown? ==>
                r0 == LoopRun(results', sizes', calls', lek, lastEvaluatedKey, drawn, client.script, limitProcess', true)
      ensures items.Done? && !HasCursor(lastEvaluatedKey) ==>
                r0 == LoopRun(results', sizes', calls', lastEvaluatedKey, lastEvaluatedKey, drawn, client.script, limitProcess', false)
      ensures items.Done? && HasCursor(lastEvaluatedKey) ==>
                |client.script| < |old(client.script)| &&
                LoopAfter(r0, results', sizes', calls', PageLoop(schema, PlanWith(schema, Crit(), uniq), columns, total, limitProcess',
                                                                 lastEvaluatedKey, lastEvaluatedKey, drawn, client.script))
    {
      ghost var plan := PlanWith(schema, Crit(), uniq);
      LoopAfterStep(schema, plan, columns, total, limitProcess, lek, lastEvaluatedKey, drawn, client.script, r0, results, sizes, calls);
      ghost var stored0, drawn0, script0 := lastEvaluatedKey, drawn, client.script;
      limitProcess' := if total < limitProcess then -1 else limitProcess;
      ghost var g := PageStep(schema, plan, columns, limitProcess', lek, lastEvaluatedKey, drawn, client.script);
      ghost var lp := limitProcess';
      items := GetAll(columns, limitProcess', lek);
      assert items == g.rows && lastEvaluatedKey == g.stored && drawn == g.drawn && client.script == Rest(script0);
      calls' := calls + [g.call];
      AppendAssoc(base, calls, [g.call]);
      results' := results;
      sizes' := sizes;
      if items.Thrown? {
        return;
      }
      if |items.value| > 0 {
        results' := results + items.value;
        limitProcess' := limitProcess' - |items.value|;
      }
      assert results' == results + items.value && limitProcess' == lp - |items.value|;
      sizes' := sizes + [|items.value|];
      if HasCursor(lastEvaluatedKey) {
        LoopAfterNext(schema, plan, columns, total, limitProcess, lek, stored0, drawn0, script0, r0, results, sizes, calls,
                      results', sizes', calls', limitProcess', lastEvaluatedKey, lastEvaluatedKey, drawn, client.script);
      }
    }

    // ----- Single items -----

    /** find($id, $columns, $withTrashed): `found` says whether the model is returned (true) or
        null (false); the model's attributes then hold the id and what was read. */
    method Find(id: FindId, columns: seq<string>, withTrashed: bool) returns (found: Outcome<bool>)
      modifies model, client
      ensures var attrs := SetId(schema, old(model.attributes), id);
              client.sent == old(client.sent) + [GetItemCall(FindRequest(schema, attrs, columns))] &&
              client.script == Rest(old(client.script))
      ensures var attrs := SetId(schema, old(model.attributes), id);
              var reply := Next(old(client.script));
              if reply.Failure? then found == Thrown && model.attributes == attrs
              else
                var r := FindResult(schema, reply.item, columns, withTrashed);
                found == Done(r.Some?) && model.attributes == (if r.Some? then attrs + r.value else attrs)
    {
      model.attributes := SetId(schema, model.attributes, id);
      var key := DynamoDbKey(schema, model.attributes);
      var query := GetItemRequest(true, schema.table, key, None);
      if columns != [] {
        query := query.(attributesToGet := Some(columns));
      }
      var reply := client.Send(GetItemCall(query));
      if reply.Failure? {
        found := Thrown;
        return;
      }
      var item := reply.item;
      if item.None? || |item.value| == 0 {
        found := Done(false);
        return;
      }
      var row := UnmarshalItem(schema, item.value);
      if !withTrashed && DELETED_AT in row && row[DELETED_AT] != VNull && Truthful(row[DELETED_AT]) {
        found := Done(false);
        return;
      }
      if columns != [] {
        row := map k | k in row && k in columns :: row[k];
      }
      model.attributes := model.attributes + row;
      found := Done(true);
    }

    /** delete(): the model's item, by key. */
    method Delete() returns (ok: Outcome<bool>)
      modifies client
      ensures client.sent == old(client.sent) + [DeleteItemCall(DeleteByKey(schema, model.attributes))]
      ensures client.script == Rest(old(client.script))
      ensures ok == StatusOk(Next(old(client.script)))
    {
      var key := DynamoDbKey(schema, model.attributes);
      var reply := client.Send(DeleteItemCall(DeleteItemRequest(schema.table, key)));
      ok := StatusOk(reply);
    }

    /** increment($column, $amount). */
    method Increment(column: string, amount: int) returns (ok: Outcome<bool>)
      modifies client
      ensures client.sent == old(client.sent) + [UpdateItemCall(IncrementRequest(schema, model.attributes, column, amount))]
      ensures client.script == Rest(old(client.script))
      ensures ok == StatusOk(Next(old(client.script)))
    {
      var key := DynamoDbKey(schema, model.attributes);
      var query := UpdateItemRequest(schema.table, key, "ADD " + column + " :num", map[":num" := N(IntString(amount))], "NONE");
      var reply := client.Send(UpdateItemCall(query));
      ok := StatusOk(reply);
    }

    /** decrement($column, $amount). */
    method Decrement(column: string, amount: int) returns (ok: Outcome<bool>)
      modifies client
      ensures client.sent == old(client.sent) + [UpdateItemCall(DecrementRequest(schema, model.attributes, column, amount))]
      ensures client.script == Rest(old(client.script))
      ensures ok == StatusOk(Next(old(client.script)))
    {
      var key := DynamoDbKey(schema, model.attributes);
      var query := UpdateItemRequest(schema.table, key, "ADD " + column + " :num", map[":num" := N(IntString(-amount))], "NONE");
      var reply := client.Send(UpdateItemCall(query));
      ok := StatusOk(reply);
    }

    /** save($options): puts the model's attributes; false when the call raises. */
    method Save(ignoreUpdateAt: bool) returns (saved: bool)
      modifies client
      ensures client.sent == old(client.sent) + [PutItemCall(SaveRequest(schema, model.attributes, ignoreUpdateAt))]
      ensures client.script == Rest(old(client.script))
      ensures saved <==> Next(old(client.script)).Answer?
    {
      var attributes := model.attributes - {OLD_UPDATED_AT};
      if ignoreUpdateAt {
        if Attribute(attributes, UPDATED_AT) != VNull && Attribute(attributes, OLD_UPDATED_AT) != VNull {
          attributes := attributes[UPDATED_AT := Attribute(attributes, OLD_UPDATED_AT)];
        }
      }
      var reply := client.Send(PutItemCall(PutItemRequest(schema.table, MarshalItem(schema, attributes))));
      saved := reply.Answer?;
    }

    /** insert($values, $withId, $withTimestamp) at time `now`: fills the model with each value in
        turn and puts every item in one batch; false when the call raises. */
    method Insert(values: seq<Row>, withId: bool, withTimestamp: bool, now: int) returns (inserted: bool)
      modifies this, model, client
      ensures where == old(where) && orderBy == old(orderBy) && indexName == old(indexName)
      ensures lastEvaluatedKey == old(lastEvaluatedKey)
      ensures model.attributes == FillAll(old(model.attributes), values)
      ensures drawn == old(drawn) + (if withId then |values| else 0)
      ensures var reqs := InsertRequests(schema, old(model.attributes), values, withId, Timestamps(withTimestamp, now), uniq, old(drawn));
              client.sent == old(client.sent) + [BatchWriteCall(BatchWriteRequest(schema.table, reqs))]
      ensures client.script == Rest(old(client.script))
      ensures inserted <==> Next(old(client.script)).Answer?
    {
      var timestamp := if withTimestamp then map[CREATED_AT := N(IntString(now)), UPDATED_AT := N(IntString(now))] else map[];
      assert timestamp == Timestamps(withTimestamp, now);
      var itemPutRequest := FillRequests(values, withId, timestamp);
      var reply := client.Send(BatchWriteCall(BatchWriteRequest(schema.table, itemPutRequest)));
      inserted := reply.Answer?;
    }

    /** insert's loop: fills the model with each value in turn and builds a put request of the
        filled attributes, with a fresh id when `withId` and the timestamp fields. */
    method FillRequests(values: seq<Row>, withId: bool, timestamp: Item) returns (itemPutRequest: seq<WriteRequest>)
      modifies this, model
      ensures where == old(where) && orderBy == old(orderBy) && indexName == old(indexName)
      ensures lastEvaluatedKey == old(lastEvaluatedKey)
      ensures model.attributes == FillAll(old(model.attributes), values)
      ensures drawn == old(drawn) + (if withId then |values| else 0)
      ensures itemPutRequest == InsertRequests(schema, old(model.attributes), values, withId, timestamp, uniq, old(drawn))
    {
      itemPutRequest := [];
      ghost var attrs0, drawn0 := model.attributes, drawn;
      var i := 0;
      while i < |values|
        invariant 0 <= i <= |values|
        invariant where == old(where) && orderBy == old(orderBy) && indexName == old(indexName)
        invariant lastEvaluatedKey == old(lastEvaluatedKey)
        invariant model.attributes == FillAll(attrs0, values[..i])
        invariant drawn == drawn0 + (if withId then i else 0)
        invariant itemPutRequest == InsertRequests(schema, attrs0, values[..i], withId, timestamp, uniq, drawn0)
      {
        InsertRequestsSnoc(schema, attrs0, values, i, withId, timestamp, uniq, drawn0);
        model.attributes := model.attributes + values[i];
        var id: Item := map[];
        if withId {
          id := map[ID := S(uniq(drawn))];
          drawn := drawn + 1;
        }
        assert id == IdField(withId, uniq, IdToken(withId, drawn0, i));
        var item := InsertItem(schema, model.attributes, id, timestamp);
        itemPutRequest := itemPutRequest + [PutRequest(item)];
        i := i + 1;
      }
      assert values[..|values|] == values;
    }

    /** deleteAll() over `rows`, the models get() returns. A soft-deleting model deletes each model
        on its own and answers false; otherwise the keys go out in batches of 25, a failing batch
        is passed over, and the answer is whether there were rows. */
    method DeleteAll(rows: seq<Row>) returns (deleted: bool)
      requires schema.Valid()
      modifies client
      ensures deleted <==> !schema.softDelete && |rows| > 0
      ensures client.sent == old(client.sent) + (if schema.softDelete then [] else BatchCalls(DeleteBatches(schema, rows)))
      ensures client.script == Skip(old(client.script), if schema.softDelete then 0 else |DeleteBatches(schema, rows)|)
    {
      if schema.softDelete {
        deleted := false;
        return;
      }
      var keys := DeleteKeyRows(schema, rows);
      if |rows| == 0 {
        deleted := false;
        return;
      }
      var chunks := ArrayChunk(keys, BATCH_SIZE);
      ghost var bs := ChunkBatches(schema, keys);
      var c := 0;
      while c < |chunks|
        invariant 0 <= c <= |chunks| && |bs| == |chunks|
        invariant client.sent == old(client.sent) + BatchCalls(bs[..c])
        invariant client.script == Skip(old(client.script), c)
      {
        var batch := DeleteBatchOf(chunks[c]);
        assert batch == bs[c];
        assert bs[..c + 1] == bs[..c] + [bs[c]];
        var _ := client.Send(BatchWriteCall(batch));
        c := c + 1;
      }
      assert bs[..c] == bs;
      deleted := true;
    }

    /** The batchWriteItem request for one chunk of keys: a DeleteRequest per key, in order. */
    method DeleteBatchOf(chunk: seq<Row>) returns (batch: BatchWriteRequest)
      ensures batch == DeleteBatch(schema, chunk)
    {
      var deleteRequests: seq<WriteRequest> := [];
      var j := 0;
      while j < |chunk|
        invariant 0 <= j <= |chunk|
        invariant |deleteRequests| == j
        invariant forall k :: 0 <= k < j ==> deleteRequests[k] == DeleteRequest(MarshalItem(schema, chunk[k]))
      {
        deleteRequests := deleteRequests + [DeleteRequest(MarshalItem(schema, chunk[j]))];
        j := j + 1;
      }
      batch := BatchWriteRequest(schema.table, deleteRequests);
    }
  }
}
