/** What the expression compiler guarantees (src/DynamoDbQueryBuilder.php:437-553). */
module CompilerProps {
  import opened Php
  import opened Dynamo
  import opened Conditions
  import opened Compiler

  /** uniqid() never repeats a token within one compilation. */
  ghost predicate Injective(uniq: Uniq) {
    forall a: nat, b: nat :: a != b ==> uniq(a) != uniq(b)
  }

  predicate Distinct(ps: seq<string>) {
    forall i, j :: 0 <= i < j < |ps| ==> ps[i] != ps[j]
  }

  lemma PrefixCancel(pre: string, x: string, y: string)
    requires pre + x == pre + y
    ensures x == y
  {
    assert x == (pre + x)[|pre|..];
    assert y == (pre + y)[|pre|..];
  }

  /** With distinct tokens, the placeholders of one list are pairwise distinct. */
  lemma PlaceholdersDistinct(k: string, uniq: Uniq, from: nat, n: nat)
    requires Injective(uniq)
    ensures Distinct(Placeholders(k, uniq, from, n))
  {
    var ps := Placeholders(k, uniq, from, n);
    forall i, j | 0 <= i < j < n
      ensures ps[i] != ps[j]
    {
      if ps[i] == ps[j] {
        PrefixCancel(":" + k + "_", uniq(from + i), uniq(from + j));
        assert false;
      }
    }
  }

  /** Registration adds exactly the placeholders to the keys. */
  lemma {:induction false} RegisterKeys(vals: map<string, AttrValue>, ps: seq<string>, vs: seq<AttrValue>)
    requires |ps| == |vs|
    ensures RegisterAll(vals, ps, vs).Keys == vals.Keys + set p | p in ps
    decreases |ps|
  {
    if ps != [] {
      var n := |ps| - 1;
      RegisterKeys(vals, ps[..n], vs[..n]);
      assert ps == ps[..n] + [ps[n]];
      assert (set p | p in ps) == (set p | p in ps[..n]) + {ps[n]};
    }
  }

  /** Registering distinct placeholders: each holds its own value. */
  lemma {:induction false} RegisterValues(vals: map<string, AttrValue>, ps: seq<string>, vs: seq<AttrValue>)
    requires |ps| == |vs| && Distinct(ps)
    ensures forall i :: 0 <= i < |ps| ==> ps[i] in RegisterAll(vals, ps, vs) && RegisterAll(vals, ps, vs)[ps[i]] == vs[i]
    decreases |ps|
  {
    if ps != [] {
      var n := |ps| - 1;
      assert Distinct(ps[..n]);
      RegisterValues(vals, ps[..n], vs[..n]);
      forall i | 0 <= i < n
        ensures ps[i] != ps[n] && ps[..n][i] == ps[i] && vs[..n][i] == vs[i]
      {
      }
    }
  }

  /** Registration leaves every other key as it was. */
  lemma {:induction false} RegisterOthers(vals: map<string, AttrValue>, ps: seq<string>, vs: seq<AttrValue>)
    requires |ps| == |vs|
    ensures forall key :: key in vals && key !in ps ==> key in RegisterAll(vals, ps, vs) && RegisterAll(vals, ps, vs)[key] == vals[key]
    decreases |ps|
  {
    if ps != [] {
      var n := |ps| - 1;
      RegisterOthers(vals, ps[..n], vs[..n]);
      assert forall key :: key !in ps ==> key !in ps[..n] && key != ps[n];
    }
  }

  /** At most IN_LIMIT values: one clause with one placeholder per value, each value registered
      under its own placeholder, and the column's name registered. */
  lemma InSingleClause(uniq: Uniq, k: string, vs: seq<AttrValue>, negated: bool, acc: Acc)
    requires Injective(uniq) && |vs| <= IN_LIMIT
    ensures var ps := Placeholders(k, uniq, acc.drawn, |vs|);
      var (x, acc') := InExpr(uniq, k, vs, negated, acc);
      x == (if negated then "NOT (#" + k + " IN (" else "#" + k + " IN (") + Implode(",", ps) + (if negated then "))" else ")") &&
      |ps| == |vs| && Distinct(ps) &&
      (forall i :: 0 <= i < |vs| ==> ps[i] in acc'.values && acc'.values[ps[i]] == vs[i]) &&
      (forall key :: key in acc.values && key !in ps ==> key in acc'.values && acc'.values[key] == acc.values[key]) &&
      acc'.names == acc.names["#" + k := k] && acc'.drawn == acc.drawn + |vs|
  {
    var ps := Placeholders(k, uniq, acc.drawn, |vs|);
    PlaceholdersDistinct(k, uniq, acc.drawn, |vs|);
    RegisterValues(acc.values, ps, vs);
    RegisterOthers(acc.values, ps, vs);
  }

  /** Above IN_LIMIT values the placeholders are split into ceil(n / 99) consecutive chunks of
      at most 99 (all but the last exactly 99) that together are the placeholder list. */
  lemma InChunkShape(k: string, uniq: Uniq, from: nat, n: nat)
    ensures var cs := ArrayChunk(Placeholders(k, uniq, from, n), IN_CHUNK);
      |cs| == CeilDiv(n, IN_CHUNK) && Flatten(cs) == Placeholders(k, uniq, from, n) &&
      (forall c :: 0 <= c < |cs| ==> 0 < |cs[c]| <= IN_CHUNK) &&
      (forall c :: 0 <= c < |cs| - 1 ==> |cs[c]| == IN_CHUNK)
  {
    var ps := Placeholders(k, uniq, from, n);
    var cs := ArrayChunk(ps, IN_CHUNK);
    ArrayChunkCount(ps, IN_CHUNK);
    ArrayChunkFlatten(ps, IN_CHUNK);
    forall c | 0 <= c < |cs|
      ensures 0 < |cs[c]| <= IN_CHUNK && (c < |cs| - 1 ==> |cs[c]| == IN_CHUNK)
    {
      ArrayChunkSizes(ps, IN_CHUNK, c);
    }
  }

  /** Above IN_LIMIT values: one clause per chunk, joined by OR for in and AND for not_in, the
      whole wrapped in parentheses, and one token drawn per value. */
  lemma InChunkedText(uniq: Uniq, k: string, vs: seq<AttrValue>, negated: bool, acc: Acc)
    requires |vs| > IN_LIMIT
    ensures var cs := ArrayChunk(Placeholders(k, uniq, acc.drawn, |vs|), IN_CHUNK);
      var (x, acc') := InExpr(uniq, k, vs, negated, acc);
      x == "(" + Implode(if negated then " AND " else " OR ", Clauses(Shape(k, negated), cs)) + ")" &&
      (forall c :: 0 <= c < |cs| ==>
         Clauses(Shape(k, negated), cs)[c] == (if negated then "NOT (#" + k + " IN (" else "#" + k + " IN (") + Implode(",", cs[c]) + (if negated then "))" else ")")) &&
      acc'.names == acc.names["#" + k := k] && acc'.drawn == acc.drawn + |vs|
  {
    var sh := Shape(k, negated);
    var cs := ArrayChunk(Placeholders(k, uniq, acc.drawn, |vs|), IN_CHUNK);
    assert sh.sep == (if negated then " AND " else " OR ");
    assert forall c :: 0 <= c < |cs| ==> Clauses(sh, cs)[c] == Clause(sh, cs[c]);
  }

  /** The value at position c * 99 + j is registered under placeholder j of chunk c. */
  predicate ChunksRegistered(values: map<string, AttrValue>, cs: seq<seq<string>>, vs: seq<AttrValue>) {
    forall c, j :: 0 <= c < |cs| && 0 <= j < |cs[c]| ==>
      c * IN_CHUNK + j < |vs| && cs[c][j] in values && values[cs[c][j]] == vs[c * IN_CHUNK + j]
  }

  /** Above IN_LIMIT values, every value is registered under its placeholder in its chunk. */
  lemma InChunkedValues(uniq: Uniq, k: string, vs: seq<AttrValue>, negated: bool, acc: Acc)
    requires Injective(uniq) && |vs| > IN_LIMIT
    ensures ChunksRegistered(InExpr(uniq, k, vs, negated, acc).1.values, ArrayChunk(Placeholders(k, uniq, acc.drawn, |vs|), IN_CHUNK), vs)
  {
    var ps := Placeholders(k, uniq, acc.drawn, |vs|);
    var cs := ArrayChunk(ps, IN_CHUNK);
    PlaceholdersDistinct(k, uniq, acc.drawn, |vs|);
    RegisterValues(acc.values, ps, vs);
    var values := InExpr(uniq, k, vs, negated, acc).1.values;
    assert values == RegisterAll(acc.values, ps, vs);
    forall c, j | 0 <= c < |cs| && 0 <= j < |cs[c]|
      ensures c * IN_CHUNK + j < |vs| && cs[c][j] in values && values[cs[c][j]] == vs[c * IN_CHUNK + j]
    {
      ArrayChunkIndex(ps, IN_CHUNK, c, j);
      var i := c * IN_CHUNK + j;
      assert cs[c][j] == ps[i];
      assert ps[i] in values && values[ps[i]] == vs[i];
    }
  }

  /** 250 values give three clauses of 99, 99 and 52 placeholders. */
  lemma InChunked250(uniq: Uniq, k: string, vs: seq<AttrValue>, acc: Acc)
    requires |vs| == 250
    ensures var cs := ArrayChunk(Placeholders(k, uniq, acc.drawn, |vs|), IN_CHUNK);
      |cs| == 3 && |cs[0]| == 99 && |cs[1]| == 99 && |cs[2]| == 52
  {
    var ps := Placeholders(k, uniq, acc.drawn, |vs|);
    ArrayChunkCount(ps, IN_CHUNK);
    CeilDivUnique(250, IN_CHUNK, 3);
    ArrayChunkSizes(ps, IN_CHUNK, 0);
    ArrayChunkSizes(ps, IN_CHUNK, 1);
    ArrayChunkAt(ps, IN_CHUNK, 2);
  }

  /** contains, begins_with, ne and the default case: one value placeholder `:k` holding the first
      stored value and the name `#k`; attribute_exists and attribute_not_exists: the name only. */
  lemma SingleOperatorCodegen(cat: Catalog, uniq: Uniq, k: string, vs: seq<AttrValue>, op: Op, acc: Acc)
    requires op != In && op != NotIn
    ensures var (x, acc') := Expr(cat, uniq, k, vs, op, acc);
      acc'.names == acc.names["#" + k := k] && acc'.drawn == acc.drawn &&
      (op in {AttributeExists, AttributeNotExists} ==> acc'.values == acc.values) &&
      (op !in {AttributeExists, AttributeNotExists} ==> acc'.values == acc.values[":" + k := First(vs)]) &&
      (op == Contains ==> x == "contains(#" + k + ", :" + k + ")") &&
      (op == BeginsWith ==> x == "begins_with(#" + k + ", :" + k + ")") &&
      (op == Ne ==> x == "#" + k + " <> :" + k) &&
      (op == AttributeExists ==> x == "attribute_exists(#" + k + ")") &&
      (op == AttributeNotExists ==> x == "attribute_not_exists(#" + k + ")") &&
      (op !in {Contains, BeginsWith, Ne, AttributeExists, AttributeNotExists} ==> x == "#" + k + " " + SymbolOf(cat, op) + " :" + k)
  {
  }

  /** between is compiled by the default case: the first value against the operator's symbol. */
  lemma BetweenUsesFirstValue(cat: Catalog, uniq: Uniq, k: string, vs: seq<AttrValue>, acc: Acc)
    ensures var (x, acc') := Expr(cat, uniq, k, vs, Between, acc);
      x == "#" + k + " " + SymbolOf(cat, Between) + " :" + k && acc'.values == acc.values[":" + k := First(vs)]
  {
  }

  /** No condition compiles to a falsy string. */
  lemma ExprTruthy(cat: Catalog, uniq: Uniq, k: string, vs: seq<AttrValue>, op: Op, acc: Acc)
    ensures |Expr(cat, uniq, k, vs, op, acc).0| >= 2
    ensures Truthy(Expr(cat, uniq, k, vs, op, acc).0)
  {
  }

  lemma WalkCons(cat: Catalog, uniq: Uniq, scope: seq<Entry>, e: Entry, rest: seq<Entry>, f: Frame)
    ensures Walk(cat, uniq, scope, [e] + rest, f) == Walk(cat, uniq, scope, rest, Step(cat, uniq, scope, f, e))
  {
    assert ([e] + rest)[1..] == rest;
  }

  lemma WalkOne(cat: Catalog, uniq: Uniq, scope: seq<Entry>, e: Entry, f: Frame)
    ensures Walk(cat, uniq, scope, [e], f) == Step(cat, uniq, scope, f, e)
  {
    assert [e][1..] == [];
  }

  /** The loop reads its scope only for joiner markers. */
  lemma {:induction false} WalkSameMarkers(cat: Catalog, uniq: Uniq, s1: seq<Entry>, s2: seq<Entry>, items: seq<Entry>, f: Frame)
    requires forall m :: Lookup(s1, Marker(m)) == Lookup(s2, Marker(m))
    ensures Walk(cat, uniq, s1, items, f) == Walk(cat, uniq, s2, items, f)
    decreases |items|
  {
    if items != [] {
      assert GroupJoiner(s1, f.last) == GroupJoiner(s2, f.last);
      assert Step(cat, uniq, s1, f, items[0]) == Step(cat, uniq, s2, f, items[0]);
      WalkSameMarkers(cat, uniq, s1, s2, items[1..], Step(cat, uniq, s1, f, items[0]));
    }
  }

  /** The first condition's joiner never reaches the output. */
  lemma FirstJoinerIgnored(cat: Catalog, uniq: Uniq, filter: string, c: string, vs: seq<AttrValue>, op: Op, j1: string, j2: string,
                           rest: seq<Entry>, joiner: Option<string>, acc: Acc)
    ensures Write(cat, uniq, filter, [Cond(c, vs, op, j1)] + rest, joiner, acc) == Write(cat, uniq, filter, [Cond(c, vs, op, j2)] + rest, joiner, acc)
  {
    var s1, s2 := [Cond(c, vs, op, j1)] + rest, [Cond(c, vs, op, j2)] + rest;
    forall m
      ensures Lookup(s1, Marker(m)) == Lookup(s2, Marker(m))
    {
      LookupCons(Cond(c, vs, op, j1), rest, Marker(m));
      LookupCons(Cond(c, vs, op, j2), rest, Marker(m));
    }
    var f0 := Frame("", "", acc);
    WalkCons(cat, uniq, s1, Cond(c, vs, op, j1), rest, f0);
    WalkCons(cat, uniq, s2, Cond(c, vs, op, j2), rest, f0);
    assert Step(cat, uniq, s1, f0, s1[0]) == Step(cat, uniq, s2, f0, s2[0]);
    WalkSameMarkers(cat, uniq, s1, s2, rest, Step(cat, uniq, s1, f0, s1[0]));
  }

  /** A level of plain conditions, compiled in insertion order: the first one's text, then
      `" " + joiner + " " + text` for each later one, joined by that later one's joiner. */
  function JoinConds(cat: Catalog, uniq: Uniq, conds: seq<Entry>, text: string, acc: Acc): (string, Acc)
    requires forall i :: 0 <= i < |conds| ==> conds[i].Cond?
    decreases |conds|
  {
    if conds == [] then (text, acc)
    else
      var e := conds[0];
      var (x, acc1) := Expr(cat, uniq, e.column, e.values, e.op, acc);
      JoinConds(cat, uniq, conds[1..], if text == "" then x else text + " " + e.joiner + " " + x, acc1)
  }

  /** The loop over plain conditions, started from an empty or truthy expression, is the join. */
  lemma {:induction false} WalkConds(cat: Catalog, uniq: Uniq, scope: seq<Entry>, conds: seq<Entry>, f: Frame)
    requires forall i :: 0 <= i < |conds| ==> conds[i].Cond?
    requires f.exprs == "" || Truthy(f.exprs)
    ensures var w := Walk(cat, uniq, scope, conds, f);
      (w.exprs, w.acc) == JoinConds(cat, uniq, conds, f.exprs, f.acc)
    decreases |conds|
  {
    if conds != [] {
      var e := conds[0];
      ExprTruthy(cat, uniq, e.column, e.values, e.op, f.acc);
      var (x, acc1) := Expr(cat, uniq, e.column, e.values, e.op, f.acc);
      var f1 := Step(cat, uniq, scope, f, e);
      assert f1.acc == acc1;
      assert f1.exprs == if f.exprs == "" then x else f.exprs + " " + e.joiner + " " + x;
      assert |f1.exprs| >= 2;
      assert Walk(cat, uniq, scope, conds, f) == Walk(cat, uniq, scope, conds[1..], f1);
      WalkConds(cat, uniq, scope, conds[1..], f1);
    }
  }

  /** Any number of conditions on one level render in insertion order, each joined to those
      before it by its own joiner; the first one's joiner is not used. */
  lemma LevelOfConditions(cat: Catalog, uniq: Uniq, conds: seq<Entry>, acc: Acc)
    requires forall i :: 0 <= i < |conds| ==> conds[i].Cond?
    ensures Write(cat, uniq, "", conds, None, acc) == JoinConds(cat, uniq, conds, "", acc)
  {
    WalkConds(cat, uniq, conds, conds, Frame("", "", acc));
  }

  /** Two conditions on one level render in insertion order, joined by the second one's joiner. */
  lemma TwoConditions(cat: Catalog, uniq: Uniq, a: string, va: seq<AttrValue>, oa: Op, ja: string,
                      b: string, vb: seq<AttrValue>, ob: Op, jb: string, acc: Acc)
    ensures var (xa, acc1) := Expr(cat, uniq, a, va, oa, acc);
      var (xb, acc2) := Expr(cat, uniq, b, vb, ob, acc1);
      Write(cat, uniq, "", [Cond(a, va, oa, ja), Cond(b, vb, ob, jb)], None, acc) == (xa + " " + jb + " " + xb, acc2)
  {
    var w := [Cond(a, va, oa, ja), Cond(b, vb, ob, jb)];
    var (xa, acc1) := Expr(cat, uniq, a, va, oa, acc);
    var (xb, acc2) := Expr(cat, uniq, b, vb, ob, acc1);
    LevelOfConditions(cat, uniq, w, acc);
    ExprTruthy(cat, uniq, a, va, oa, acc);
    assert JoinConds(cat, uniq, w, "", acc) == JoinConds(cat, uniq, w[1..], xa, acc1);
    assert JoinConds(cat, uniq, w[1..], xa, acc1) == JoinConds(cat, uniq, w[1..][1..], xa + " " + jb + " " + xb, acc2);
    assert w[1..][1..] == [];
  }

  /** After a falsy accumulator, a nested group renders as `<joiner> (<its conditions>)`. */
  lemma GroupStep(cat: Catalog, uniq: Uniq, scope: seq<Entry>, f: Frame, n: nat, body: seq<Entry>)
    ensures var (inner, acc') := Write(cat, uniq, "", body, None, f.acc);
      Step(cat, uniq, scope, f, Group(n, body)) == Frame(f.exprs + GroupJoiner(scope, f.last) + " (" + inner + ")", f.last, acc')
  {
    var jn := GroupJoiner(scope, f.last);
    assert |jn| >= 1 && jn[0] == ' ';
    assert (f.exprs + jn)[|f.exprs|] == ' ';
    assert Truthy(f.exprs + jn);
  }

  /** A group rendered right after a condition is joined to it by the joiner recorded under
      'conditional_operator_<that column>'. */
  lemma GroupAfterCondition(cat: Catalog, uniq: Uniq, a: string, va: seq<AttrValue>, oa: Op, ja: string, j: string,
                            n: nat, body: seq<Entry>, acc: Acc)
    requires a != ""
    ensures var (xa, acc1) := Expr(cat, uniq, a, va, oa, acc);
      var (inner, acc2) := Write(cat, uniq, "", body, None, acc1);
      Write(cat, uniq, "", [Cond(a, va, oa, ja), JoinerMark(a, j), Group(n, body)], None, acc) == (xa + " " + j + " (" + inner + ")", acc2)
  {
    var w := [Cond(a, va, oa, ja), JoinerMark(a, j), Group(n, body)];
    var (xa, acc1) := Expr(cat, uniq, a, va, oa, acc);
    var f0 := Frame("", "", acc);
    var f1 := Step(cat, uniq, w, f0, w[0]);
    assert f1 == Frame(xa, a, acc1);
    assert w == [w[0]] + ([w[1]] + [w[2]]);
    WalkCons(cat, uniq, w, w[0], [w[1]] + [w[2]], f0);
    WalkCons(cat, uniq, w, w[1], [w[2]], f1);
    WalkOne(cat, uniq, w, w[2], f1);
    LookupCons(w[0], [w[1]] + [w[2]], Marker(a));
    LookupCons(w[1], [w[2]], Marker(a));
    assert GroupJoiner(w, a) == " " + j;
    GroupStep(cat, uniq, w, f1, n, body);
    var (inner, acc2) := Write(cat, uniq, "", body, None, acc1);
    assert Step(cat, uniq, w, f1, w[1]) == f1;
    assert Walk(cat, uniq, w, w, f0) == Step(cat, uniq, w, f1, w[2]);
    assert Step(cat, uniq, w, f1, w[2]) == Frame(xa + " " + j + " (" + inner + ")", a, acc2);
    assert !Truthy("");
  }

  /** A group stored first renders with a leading joiner: ' AND (...)' for an AND group. */
  lemma LeadingGroupJoiner(cat: Catalog, uniq: Uniq, j: string, n: nat, body: seq<Entry>, acc: Acc)
    ensures var (inner, acc') := Write(cat, uniq, "", body, None, acc);
      Write(cat, uniq, "", [JoinerMark("", j), Group(n, body)], None, acc) == (" " + j + " (" + inner + ")", acc')
  {
    var w := [JoinerMark("", j), Group(n, body)];
    var f0 := Frame("", "", acc);
    assert w == [w[0]] + [w[1]];
    WalkCons(cat, uniq, w, w[0], [w[1]], f0);
    WalkOne(cat, uniq, w, w[1], f0);
    LookupCons(w[0], [w[1]], Marker(""));
    assert GroupJoiner(w, "") == " " + j;
    GroupStep(cat, uniq, w, f0, n, body);
    var (inner, acc') := Write(cat, uniq, "", body, None, acc);
    assert Step(cat, uniq, w, f0, w[0]) == f0;
    assert Walk(cat, uniq, w, w, f0) == Step(cat, uniq, w, f0, w[1]);
    assert Step(cat, uniq, w, f0, w[1]) == Frame(" " + j + " (" + inner + ")", "", acc');
    assert !Truthy("");
  }

  /** A closure passed as the very first where renders as ' <boolean> (<its conditions>)'. */
  lemma FirstClauseIsClosure(s: Schema, uniq: Uniq, calls: seq<BuilderCall>, operator: Value, value: Value, boolean: string, argc: nat, acc: Acc)
    requires s.Valid() && RunCalls(s, DefaultWhere(s), calls).error.None?
    ensures var w := AddWhere(s, [], Closure(calls), operator, value, boolean, argc).where;
      var body := Forget(RunCalls(s, DefaultWhere(s), calls).where, Column(DELETED_AT));
      Write(s.operators, uniq, "", w, None, acc).0 == " " + boolean + " (" + Write(s.operators, uniq, "", body, None, acc).0 + ")"
  {
    var body := Forget(RunCalls(s, DefaultWhere(s), calls).where, Column(DELETED_AT));
    var mark := JoinerMark("", boolean);
    assert LastKeyText([]) == "";
    assert Put([], mark) == [mark];
    assert [mark][..0] == [];
    assert NextIndex([mark]) == 0;
    assert AddWhere(s, [], Closure(calls), operator, value, boolean, argc).where == [mark, Group(0, body)];
    LeadingGroupJoiner(s.operators, uniq, boolean, 0, body, acc);
  }

  /** The same column on two levels shares the single-value placeholder `:k`: the inner
      condition's value is the one left in ExpressionAttributeValues. */
  lemma SameColumnTwoLevels(cat: Catalog, uniq: Uniq, a: string, v1: seq<AttrValue>, v2: seq<AttrValue>, j: string, n: nat, acc: Acc)
    requires a != ""
    ensures var w := [Cond(a, v1, Eq, "AND"), JoinerMark(a, j), Group(n, [Cond(a, v2, Eq, "AND")])];
      var values := Write(cat, uniq, "", w, None, acc).1.values;
      ":" + a in values && values[":" + a] == First(v2)
  {
    var (xa, acc1) := Expr(cat, uniq, a, v1, Eq, acc);
    var body := [Cond(a, v2, Eq, "AND")];
    GroupAfterCondition(cat, uniq, a, v1, Eq, "AND", j, n, body, acc);
    WalkOne(cat, uniq, body, body[0], Frame("", "", acc1));
    var w := [Cond(a, v1, Eq, "AND"), JoinerMark(a, j), Group(n, body)];
    assert Write(cat, uniq, "", w, None, acc).1 == Write(cat, uniq, "", body, None, acc1).1;
    assert Write(cat, uniq, "", body, None, acc1).1.values == acc1.values[":" + a := First(v2)];
  }

  // ----- What a whole compilation registers -----

  /** The columns of all conditions, at every nesting level. */
  function ColumnsOf(items: seq<Entry>): set<string>
    decreases items, 1
  {
    if items == [] then {} else EntryColumns(items[0]) + ColumnsOf(items[1..])
  }

  function EntryColumns(e: Entry): set<string>
    decreases e, 0
  {
    match e
    case Cond(c, _, _, _) => {c}
    case JoinerMark(_, _) => {}
    case Group(_, body) => ColumnsOf(body)
  }

  /** The number of IN / NOT IN values, at every nesting level. */
  function InValues(items: seq<Entry>): nat
    decreases items, 1
  {
    if items == [] then 0 else EntryInValues(items[0]) + InValues(items[1..])
  }

  function EntryInValues(e: Entry): nat
    decreases e, 0
  {
    match e
    case Cond(_, vs, op, _) => if op == In || op == NotIn then |vs| else 0
    case JoinerMark(_, _) => 0
    case Group(_, body) => InValues(body)
  }

  /** Every name key `#k` maps to `k`. */
  predicate NamesConsistent(names: map<string, string>) {
    forall n :: n in names ==> n == "#" + names[n]
  }

  /** What every compiled piece keeps: name maps stay consistent, no name or value is removed,
      and exactly one uniqid() is drawn per IN / NOT IN value. */
  predicate Keeps(a: Acc, b: Acc) {
    (NamesConsistent(a.names) ==> NamesConsistent(b.names)) &&
    a.names.Keys <= b.names.Keys && a.values.Keys <= b.values.Keys
  }

  lemma ExprAcc(cat: Catalog, uniq: Uniq, k: string, vs: seq<AttrValue>, op: Op, acc: Acc)
    ensures var acc' := Expr(cat, uniq, k, vs, op, acc).1;
      Keeps(acc, acc') && "#" + k in acc'.names &&
      acc'.drawn == acc.drawn + (if op == In || op == NotIn then |vs| else 0)
  {
    if op == In || op == NotIn {
      RegisterKeys(acc.values, Placeholders(k, uniq, acc.drawn, |vs|), vs);
    }
  }

  /** Over a whole condition tree: every column's name `#c` is registered, names stay
      consistent, nothing registered is removed, and one token is drawn per IN / NOT IN value. */
  lemma {:induction false} WalkAcc(cat: Catalog, uniq: Uniq, scope: seq<Entry>, items: seq<Entry>, f: Frame)
    ensures var r := Walk(cat, uniq, scope, items, f).acc;
      Keeps(f.acc, r) && (forall c :: c in ColumnsOf(items) ==> "#" + c in r.names) &&
      r.drawn == f.acc.drawn + InValues(items)
    decreases items, 1
  {
    if items != [] {
      var f1 := Step(cat, uniq, scope, f, items[0]);
      StepAcc(cat, uniq, scope, f, items[0]);
      WalkAcc(cat, uniq, scope, items[1..], f1);
    }
  }

  lemma {:induction false} StepAcc(cat: Catalog, uniq: Uniq, scope: seq<Entry>, f: Frame, e: Entry)
    ensures var r := Step(cat, uniq, scope, f, e).acc;
      Keeps(f.acc, r) && (forall c :: c in EntryColumns(e) ==> "#" + c in r.names) &&
      r.drawn == f.acc.drawn + EntryInValues(e)
    decreases e, 0
  {
    match e
    case Cond(c, vs, op, j) => ExprAcc(cat, uniq, c, vs, op, f.acc);
    case JoinerMark(_, _) =>
    case Group(_, body) => WriteAcc(cat, uniq, f.exprs, body, Some(GroupJoiner(scope, f.last)), f.acc);
  }

  lemma {:induction false} WriteAcc(cat: Catalog, uniq: Uniq, filter: string, scope: seq<Entry>, joiner: Option<string>, acc: Acc)
    ensures var r := Write(cat, uniq, filter, scope, joiner, acc).1;
      Keeps(acc, r) && (forall c :: c in ColumnsOf(scope) ==> "#" + c in r.names) &&
      r.drawn == acc.drawn + InValues(scope)
    decreases scope, 2
  {
    WalkAcc(cat, uniq, scope, scope, Frame("", "", acc));
  }

  /** Compiling from empty maps registers `#c -> c` for every column of the tree. */
  lemma NamesOfEveryColumn(cat: Catalog, uniq: Uniq, where: seq<Entry>, c: string)
    requires c in ColumnsOf(where)
    ensures var names := Write(cat, uniq, "", where, None, Acc(map[], map[], 0)).1.names;
      "#" + c in names && names["#" + c] == c
  {
    WriteAcc(cat, uniq, "", where, None, Acc(map[], map[], 0));
    var names := Write(cat, uniq, "", where, None, Acc(map[], map[], 0)).1.names;
    PrefixCancel("#", names["#" + c], c);
  }
}
