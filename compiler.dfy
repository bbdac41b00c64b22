/** The expression compiler: getExpression and writeQuery
    (src/DynamoDbQueryBuilder.php:437-553).

    writeQuery walks one level of the condition array in insertion order, appending each
    condition's expression to a string accumulator, and recurses into each nested group; the
    attribute-name and attribute-value maps and the uniqid() supply are threaded through every
    call, as the by-reference arguments are in the source. Each operation is given twice: as a
    function that specifies it, and as a method with the source's loops, proved equal to it. */
module Compiler {
  import opened Php
  import opened Dynamo
  import opened Conditions

  /** The uniqid() supply: the n-th value drawn in one compilation. */
  type Uniq = nat -> string

  /** The accumulators passed by reference: ExpressionAttributeNames, ExpressionAttributeValues
      and the number of uniqid() values drawn. */
  datatype Acc = Acc(names: map<string, string>, values: map<string, AttrValue>, drawn: nat)

  /** An IN / NOT IN list is split only above IN_LIMIT values, into chunks of IN_CHUNK. */
  const IN_LIMIT: nat := 100
  const IN_CHUNK: nat := 99

  /** `$value['AttributeValueList'][0]`, PHP null for an empty list. */
  function First(vs: seq<AttrValue>): AttrValue {
    if vs == [] then Missing else vs[0]
  }

  function Placeholder(k: string, uniq: Uniq, n: nat): string {
    ":" + k + "_" + uniq(n)
  }

  /** The placeholders of `n` consecutive values, drawing tokens `from`, `from + 1`, ... */
  function Placeholders(k: string, uniq: Uniq, from: nat, n: nat): seq<string> {
    seq(n, i requires 0 <= i < n => Placeholder(k, uniq, from + i))
  }

  /** Assigning `vals[ps[i]] = vs[i]` for i = 0, 1, ... in turn. */
  function RegisterAll(vals: map<string, AttrValue>, ps: seq<string>, vs: seq<AttrValue>): map<string, AttrValue>
    requires |ps| == |vs|
    decreases |ps|
  {
    if ps == [] then vals
    else RegisterAll(vals, ps[..|ps| - 1], vs[..|vs| - 1])[ps[|ps| - 1] := vs[|vs| - 1]]
  }

  /** The fixed text of one IN / NOT IN clause and the word joining chunks. */
  datatype InShape = InShape(open: string, close: string, sep: string)

  function Shape(k: string, negated: bool): InShape {
    if negated then InShape("NOT (#" + k + " IN (", "))", " AND ")
    else InShape("#" + k + " IN (", ")", " OR ")
  }

  function Clause(sh: InShape, ps: seq<string>): string {
    sh.open + Implode(",", ps) + sh.close
  }

  function Clauses(sh: InShape, chunks: seq<seq<string>>): (r: seq<string>)
    ensures |r| == |chunks|
  {
    seq(|chunks|, i requires 0 <= i < |chunks| => Clause(sh, chunks[i]))
  }

  /** The text of an IN / NOT IN condition over its placeholders. */
  function InText(sh: InShape, ps: seq<string>): string {
    if |ps| > IN_LIMIT then "(" + Implode(sh.sep, Clauses(sh, ArrayChunk(ps, IN_CHUNK))) + ")"
    else Clause(sh, ps)
  }

  function InExpr(uniq: Uniq, k: string, vs: seq<AttrValue>, negated: bool, acc: Acc): (string, Acc) {
    var ps := Placeholders(k, uniq, acc.drawn, |vs|);
    (InText(Shape(k, negated), ps), Acc(acc.names["#" + k := k], RegisterAll(acc.values, ps, vs), acc.drawn + |vs|))
  }

  /** A condition with the one value placeholder `:k`. */
  function Single(k: string, text: string, vs: seq<AttrValue>, acc: Acc): (string, Acc) {
    (text, Acc(acc.names["#" + k := k], acc.values[":" + k := First(vs)], acc.drawn))
  }

  function NameOnly(k: string, text: string, acc: Acc): (string, Acc) {
    (text, acc.(names := acc.names["#" + k := k]))
  }

  /** getExpression for the condition on column `k`. */
  function Expr(cat: Catalog, uniq: Uniq, k: string, vs: seq<AttrValue>, op: Op, acc: Acc): (string, Acc) {
    match op
    case In => InExpr(uniq, k, vs, false, acc)
    case NotIn => InExpr(uniq, k, vs, true, acc)
    case Contains => Single(k, "contains(#" + k + ", :" + k + ")", vs, acc)
    case BeginsWith => Single(k, "begins_with(#" + k + ", :" + k + ")", vs, acc)
    case Ne => Single(k, "#" + k + " <> :" + k, vs, acc)
    case AttributeExists => NameOnly(k, "attribute_exists(#" + k + ")", acc)
    case AttributeNotExists => NameOnly(k, "attribute_not_exists(#" + k + ")", acc)
    case _ => Single(k, "#" + k + " " + SymbolOf(cat, op) + " :" + k, vs, acc)
  }

  /** The state of one writeQuery loop: `$expressions`, `$lastColumn` ("" for null, which the
      source's string concatenation treats alike) and the accumulators. */
  datatype Frame = Frame(exprs: string, last: string, acc: Acc)

  /** The joiner of a nested group: the 'conditional_operator_<last column>' entry, else AND. */
  function GroupJoiner(scope: seq<Entry>, last: string): string {
    match Lookup(scope, Marker(last))
    case Some(JoinerMark(_, j)) => " " + j
    case _ => " AND"
  }

  /** One iteration of writeQuery's loop over `scope`. */
  function Step(cat: Catalog, uniq: Uniq, scope: seq<Entry>, f: Frame, e: Entry): Frame
    decreases e, 0
  {
    match e
    case Cond(c, vs, op, j) =>
      var (x, acc) := Expr(cat, uniq, c, vs, op, f.acc);
      Frame(if Truthy(f.exprs) then f.exprs + " " + j + " " + x else f.exprs + x, c, acc)
    case JoinerMark(_, _) => f
    case Group(_, body) =>
      var (x, acc) := Write(cat, uniq, f.exprs, body, Some(GroupJoiner(scope, f.last)), f.acc);
      Frame(x, f.last, acc)
  }

  /** The loop over the remaining `items` of `scope`. */
  function Walk(cat: Catalog, uniq: Uniq, scope: seq<Entry>, items: seq<Entry>, f: Frame): Frame
    decreases items, 1
  {
    if items == [] then f else Walk(cat, uniq, scope, items[1..], Step(cat, uniq, scope, f, items[0]))
  }

  /** writeQuery($filter, ..., $scope, $joiner): the new `$filterExpression` and accumulators. */
  function Write(cat: Catalog, uniq: Uniq, filter: string, scope: seq<Entry>, joiner: Option<string>, acc: Acc): (string, Acc)
    decreases scope, 2
  {
    var start := if joiner.Some? then filter + joiner.value else filter;
    var f := Walk(cat, uniq, scope, scope, Frame("", "", acc));
    (if Truthy(start) then start + " (" + f.exprs + ")" else f.exprs, f.acc)
  }

  // ----- The source's loops -----

  lemma RegisterSnoc(vals: map<string, AttrValue>, ps: seq<string>, vs: seq<AttrValue>, p: string, v: AttrValue)
    requires |ps| == |vs|
    ensures RegisterAll(vals, ps + [p], vs + [v]) == RegisterAll(vals, ps, vs)[p := v]
  {
    assert (ps + [p])[..|ps|] == ps;
    assert (vs + [v])[..|vs|] == vs;
  }

  /** The inner foreach of an IN / NOT IN clause: one uniqid() and one value per element. */
  method DrawPlaceholders(uniq: Uniq, k: string, vs: seq<AttrValue>, values: map<string, AttrValue>, drawn: nat)
    returns (ps: seq<string>, values': map<string, AttrValue>, drawn': nat)
    ensures ps == Placeholders(k, uniq, drawn, |vs|)
    ensures values' == RegisterAll(values, ps, vs)
    ensures drawn' == drawn + |vs|
  {
    ps, values', drawn' := [], values, drawn;
    var i := 0;
    while i < |vs|
      invariant 0 <= i <= |vs|
      invariant drawn' == drawn + i
      invariant ps == Placeholders(k, uniq, drawn, i)
      invariant values' == RegisterAll(values, ps, vs[..i])
    {
      var p := Placeholder(k, uniq, drawn');
      RegisterSnoc(values, ps, vs[..i], p, vs[i]);
      assert vs[..i + 1] == vs[..i] + [vs[i]];
      ps := ps + [p];
      values' := values'[p := vs[i]];
      drawn' := drawn' + 1;
      i := i + 1;
    }
    assert vs[..i] == vs;
  }

  lemma {:induction false} RegisterAppend(vals: map<string, AttrValue>, a: seq<string>, x: seq<AttrValue>, b: seq<string>, y: seq<AttrValue>)
    requires |a| == |x| && |b| == |y|
    ensures RegisterAll(RegisterAll(vals, a, x), b, y) == RegisterAll(vals, a + b, x + y)
    decreases |b|
  {
    if b == [] {
      assert a + b == a && x + y == x;
    } else {
      var n := |b| - 1;
      RegisterAppend(vals, a, x, b[..n], y[..n]);
      assert (a + b)[..|a| + n] == a + b[..n];
      assert (x + y)[..|x| + n] == x + y[..n];
      var ab, xy := a + b, x + y;
      assert ab[..|ab| - 1] == a + b[..n] && xy[..|xy| - 1] == x + y[..n];
      assert ab[|ab| - 1] == b[n] && xy[|xy| - 1] == y[n];
      assert RegisterAll(vals, ab, xy) == RegisterAll(vals, ab[..|ab| - 1], xy[..|xy| - 1])[ab[|ab| - 1] := xy[|xy| - 1]];
      var r := RegisterAll(vals, a, x);
      assert RegisterAll(r, b, y) == RegisterAll(r, b[..n], y[..n])[b[n] := y[n]];
    }
  }

  lemma PlaceholdersAppend(k: string, uniq: Uniq, from: nat, n: nat, m: nat)
    ensures Placeholders(k, uniq, from, n) + Placeholders(k, uniq, from + n, m) == Placeholders(k, uniq, from, n + m)
  {
  }

  /** Chunk `c` of the values and chunk `c` of their placeholders cover the same positions. */
  lemma ChunkPositions(k: string, uniq: Uniq, from: nat, vs: seq<AttrValue>, c: nat)
    requires c < |ArrayChunk(vs, IN_CHUNK)|
    ensures var ps := Placeholders(k, uniq, from, |vs|);
      var lo := c * IN_CHUNK;
      var hi := if (c + 1) * IN_CHUNK <= |vs| then (c + 1) * IN_CHUNK else |vs|;
      lo < hi <= |vs| &&
      c < |ArrayChunk(ps, IN_CHUNK)| &&
      ArrayChunk(vs, IN_CHUNK)[c] == vs[lo..hi] &&
      ArrayChunk(ps, IN_CHUNK)[c] == ps[lo..hi] == Placeholders(k, uniq, from + lo, hi - lo) &&
      (c + 1 == |ArrayChunk(vs, IN_CHUNK)| <==> hi == |vs|)
  {
    var ps := Placeholders(k, uniq, from, |vs|);
    ArrayChunkAt(vs, IN_CHUNK, c);
    ArrayChunkCount(vs, IN_CHUNK);
    ArrayChunkCount(ps, IN_CHUNK);
    ArrayChunkAt(ps, IN_CHUNK, c);
    var n := |ArrayChunk(vs, IN_CHUNK)|;
    assert (c + 1) * IN_CHUNK == c * IN_CHUNK + IN_CHUNK;
    if c + 1 < n {
      MulLe(c + 1, n - 1, IN_CHUNK);
    } else {
      assert (n - 1) * IN_CHUNK < |vs|;
    }
  }

  /** What one pass of the chunk loop adds: the clause of chunk `c` and its registrations. */
  lemma ChunkStep(k: string, uniq: Uniq, from: nat, vs: seq<AttrValue>, vals: map<string, AttrValue>, c: nat, done: nat, ps: seq<string>)
    requires c < |ArrayChunk(vs, IN_CHUNK)| && done == c * IN_CHUNK
    requires ps == Placeholders(k, uniq, from + done, |ArrayChunk(vs, IN_CHUNK)[c]|)
    ensures var all := Placeholders(k, uniq, from, |vs|);
      var hi := done + |ps|;
      hi <= |vs| &&
      (c + 1 < |ArrayChunk(vs, IN_CHUNK)| ==> hi == (c + 1) * IN_CHUNK) &&
      (c + 1 == |ArrayChunk(vs, IN_CHUNK)| ==> hi == |vs|) &&
      RegisterAll(RegisterAll(vals, all[..done], vs[..done]), ps, ArrayChunk(vs, IN_CHUNK)[c]) == RegisterAll(vals, all[..hi], vs[..hi]) &&
      |ArrayChunk(all, IN_CHUNK)| == |ArrayChunk(vs, IN_CHUNK)| &&
      ArrayChunk(all, IN_CHUNK)[..c + 1] == ArrayChunk(all, IN_CHUNK)[..c] + [ps]
  {
    var all := Placeholders(k, uniq, from, |vs|);
    ChunkPositions(k, uniq, from, vs, c);
    var end := if (c + 1) * IN_CHUNK <= |vs| then (c + 1) * IN_CHUNK else |vs|;
    assert |ArrayChunk(vs, IN_CHUNK)[c]| == end - done;
    var hi := done + |ps|;
    assert hi == end && ps == all[done..hi];
    ChunkRegisters(vals, all, vs, done, hi, ps, ArrayChunk(vs, IN_CHUNK)[c]);
    ArrayChunkCount(vs, IN_CHUNK);
    ArrayChunkCount(all, IN_CHUNK);
    var cs := ArrayChunk(all, IN_CHUNK);
    assert cs[..c + 1] == cs[..c] + [cs[c]];
  }

  lemma ChunkRegisters(vals: map<string, AttrValue>, all: seq<string>, vs: seq<AttrValue>, done: nat, hi: nat, ps: seq<string>, chunk: seq<AttrValue>)
    requires |all| == |vs| && done <= hi <= |vs|
    requires ps == all[done..hi] && chunk == vs[done..hi]
    ensures RegisterAll(RegisterAll(vals, all[..done], vs[..done]), ps, chunk) == RegisterAll(vals, all[..hi], vs[..hi])
  {
    RegisterAppend(vals, all[..done], vs[..done], ps, chunk);
    assert all[..done] + ps == all[..hi];
    assert vs[..done] + chunk == vs[..hi];
  }

  /** The foreach over array_chunk($list, 99) of an IN / NOT IN list above IN_LIMIT values. */
  method ChunkedClauses(uniq: Uniq, k: string, vs: seq<AttrValue>, sh: InShape, acc: Acc)
    returns (parts: seq<string>, values: map<string, AttrValue>, drawn: nat)
    ensures var all := Placeholders(k, uniq, acc.drawn, |vs|);
      parts == Clauses(sh, ArrayChunk(all, IN_CHUNK)) &&
      values == RegisterAll(acc.values, all, vs) && drawn == acc.drawn + |vs|
  {
    ghost var all := Placeholders(k, uniq, acc.drawn, |vs|);
    var chunks := ArrayChunk(vs, IN_CHUNK);
    ArrayChunkCount(vs, IN_CHUNK);
    ArrayChunkCount(all, IN_CHUNK);
    parts, values, drawn := [], acc.values, acc.drawn;
    var c := 0;
    ghost var done := 0;
    while c < |chunks|
      invariant 0 <= c <= |chunks| && 0 <= done <= |vs|
      invariant c < |chunks| ==> done == c * IN_CHUNK
      invariant c == |chunks| ==> done == |vs|
      invariant drawn == acc.drawn + done
      invariant values == RegisterAll(acc.values, all[..done], vs[..done])
      invariant parts == Clauses(sh, ArrayChunk(all, IN_CHUNK)[..c])
    {
      var ps, values', drawn' := DrawPlaceholders(uniq, k, chunks[c], values, drawn);
      ChunkStep(k, uniq, acc.drawn, vs, acc.values, c, done, ps);
      parts := parts + [Clause(sh, ps)];
      values, drawn := values', drawn';
      c := c + 1;
      done := done + |ps|;
    }
    assert ArrayChunk(all, IN_CHUNK)[..c] == ArrayChunk(all, IN_CHUNK);
    assert all[..done] == all && vs[..done] == vs;
  }

  /** The IN / NOT IN branch of getExpression. */
  method InExpression(uniq: Uniq, k: string, vs: seq<AttrValue>, negated: bool, acc: Acc) returns (x: string, acc': Acc)
    ensures (x, acc') == InExpr(uniq, k, vs, negated, acc)
  {
    var sh := Shape(k, negated);
    var values, drawn;
    if |vs| > IN_LIMIT {
      var parts;
      parts, values, drawn := ChunkedClauses(uniq, k, vs, sh, acc);
      x := "(" + Implode(sh.sep, parts) + ")";
    } else {
      var ps;
      ps, values, drawn := DrawPlaceholders(uniq, k, vs, acc.values, acc.drawn);
      x := Clause(sh, ps);
    }
    acc' := Acc(acc.names["#" + k := k], values, drawn);
  }

  /** getExpression: its switch on the lower-cased operator name. */
  method GetExpression(cat: Catalog, uniq: Uniq, k: string, vs: seq<AttrValue>, op: Op, acc: Acc) returns (x: string, acc': Acc)
    ensures (x, acc') == Expr(cat, uniq, k, vs, op, acc)
  {
    match op
    case In => x, acc' := InExpression(uniq, k, vs, false, acc);
    case NotIn => x, acc' := InExpression(uniq, k, vs, true, acc);
    case Contains => x, acc' := Single(k, "contains(#" + k + ", :" + k + ")", vs, acc).0, Single(k, "contains(#" + k + ", :" + k + ")", vs, acc).1;
    case BeginsWith => x, acc' := Single(k, "begins_with(#" + k + ", :" + k + ")", vs, acc).0, Single(k, "begins_with(#" + k + ", :" + k + ")", vs, acc).1;
    case Ne => x, acc' := Single(k, "#" + k + " <> :" + k, vs, acc).0, Single(k, "#" + k + " <> :" + k, vs, acc).1;
    case AttributeExists => x, acc' := "attribute_exists(#" + k + ")", acc.(names := acc.names["#" + k := k]);
    case AttributeNotExists => x, acc' := "attribute_not_exists(#" + k + ")", acc.(names := acc.names["#" + k := k]);
    case _ =>
      x := "#" + k + " " + SymbolOf(cat, op) + " :" + k;
      acc' := Acc(acc.names["#" + k := k], acc.values[":" + k := First(vs)], acc.drawn);
  }

  /** writeQuery: the loop over one level, recursing into nested groups. */
  method WriteQuery(cat: Catalog, uniq: Uniq, filter: string, scope: seq<Entry>, joiner: Option<string>, acc: Acc)
    returns (filter': string, acc': Acc)
    ensures (filter', acc') == Write(cat, uniq, filter, scope, joiner, acc)
    decreases scope
  {
    var expressions := "";
    var start := filter;
    if joiner.Some? {
      start := start + joiner.value;
    }
    var lastColumn := "";
    var a := acc;
    var i := 0;
    while i < |scope|
      invariant 0 <= i <= |scope|
      invariant Walk(cat, uniq, scope, scope[i..], Frame(expressions, lastColumn, a)) == Walk(cat, uniq, scope, scope, Frame("", "", acc))
    {
      var e := scope[i];
      assert scope[i..] == [e] + scope[i + 1..];
      match e {
        case Cond(c, vs, op, j) =>
          lastColumn := c;
          var x;
          x, a := GetExpression(cat, uniq, c, vs, op, a);
          if Truthy(expressions) {
            expressions := expressions + " " + j + " " + x;
          } else {
            expressions := expressions + x;
          }
        case JoinerMark(_, _) =>
        case Group(_, body) =>
          var jn := GroupJoiner(scope, lastColumn);
          expressions, a := WriteQuery(cat, uniq, expressions, body, Some(jn), a);
      }
      i := i + 1;
    }
    filter' := if Truthy(start) then start + " (" + expressions + ")" else expressions;
    acc' := a;
  }
}
