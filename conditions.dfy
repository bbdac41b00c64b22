/** The builder's `$where` array and what `where`, `orWhere`, `withTrashed` and `onlyTrashed` do
    to it (src/DynamoDbQueryBuilder.php:42-126, 808-820).

    `$where` is an ordered PHP array with three kinds of keys: a column name holding a condition
    record, a 'conditional_operator_<last key>' string key holding the joiner of the nested group
    that follows it, and an integer key holding the condition array of a nested group. */
module Conditions {
  import opened Php
  import opened Dynamo

  /** Exceptions `where` can raise: NotSupportedException for a Closure value, and PHP's
      "Illegal offset type" for an empty array used as the column. */
  datatype Error = NotSupported | IllegalOffset

  datatype Key = Column(name: string) | Marker(suffix: string) | Index(n: nat)

  /** One entry of `$where`. */
  datatype Entry =
    | Cond(column: string, values: seq<AttrValue>, op: Op, joiner: string)
    | JoinerMark(suffix: string, joiner: string)
    | Group(index: nat, body: seq<Entry>)

  function KeyOf(e: Entry): Key {
    match e
    case Cond(c, _, _, _) => Column(c)
    case JoinerMark(x, _) => Marker(x)
    case Group(i, _) => Index(i)
  }

  const MARKER_PREFIX: string := "conditional_operator_"
  const DELETED_AT: string := "deleted_at"
  const EMPTY_IN_SENTINEL: AttrValue := S("NULL_DEFINE_IS_NULL")

  /** The key as the PHP string it is compared as. */
  function KeyText(k: Key): string {
    match k
    case Column(c) => c
    case Marker(x) => MARKER_PREFIX + x
    case Index(i) => NatString(i)
  }

  /** A PHP array never holds a key twice. */
  predicate UniqueKeys(w: seq<Entry>) {
    forall i, j :: 0 <= i < j < |w| ==> KeyOf(w[i]) != KeyOf(w[j])
  }

  /** Unique keys at every nesting level. */
  predicate WellFormed(w: seq<Entry>)
    decreases w
  {
    UniqueKeys(w) && forall i :: 0 <= i < |w| ==> (w[i].Group? ==> WellFormed(w[i].body))
  }

  /** Position of the entry stored under `k`. */
  function IndexOf(w: seq<Entry>, k: Key): (r: Option<nat>)
    ensures r.Some? ==> r.value < |w| && KeyOf(w[r.value]) == k
    ensures r.Some? ==> forall j :: 0 <= j < r.value ==> KeyOf(w[j]) != k
    ensures r.None? ==> forall j :: 0 <= j < |w| ==> KeyOf(w[j]) != k
    decreases |w|
  {
    if w == [] then None
    else if KeyOf(w[0]) == k then Some(0)
    else match IndexOf(w[1..], k)
      case None => None
      case Some(p) => Some(p + 1)
  }

  /** `$where[k]`, or null. */
  function Lookup(w: seq<Entry>, k: Key): Option<Entry> {
    match IndexOf(w, k)
    case None => None
    case Some(p) => Some(w[p])
  }

  /** `$where[key] = $entry`: an existing key keeps its position, a new one is appended. */
  function Put(w: seq<Entry>, e: Entry): seq<Entry> {
    match IndexOf(w, KeyOf(e))
    case Some(p) => w[p := e]
    case None => w + [e]
  }

  /** unset($where[k]). */
  function Forget(w: seq<Entry>, k: Key): (r: seq<Entry>)
    ensures |r| <= |w|
    decreases |w|
  {
    if w == [] then []
    else (if KeyOf(w[0]) == k then [] else [w[0]]) + Forget(w[1..], k)
  }

  /** The text of array_last(array_keys($where)); "" (PHP null) for an empty array. */
  function LastKeyText(w: seq<Entry>): string {
    if w == [] then "" else KeyText(KeyOf(w[|w| - 1]))
  }

  /** The key `$where[] = ...` uses: one more than the largest integer key, or 0. */
  function NextIndex(w: seq<Entry>): (n: nat)
    ensures forall i :: 0 <= i < |w| ==> w[i].Group? ==> w[i].index < n
    decreases |w|
  {
    if w == [] then 0
    else
      var n := NextIndex(w[..|w| - 1]);
      assert forall i :: 0 <= i < |w| - 1 ==> w[..|w| - 1][i] == w[i];
      if w[|w| - 1].Group? && w[|w| - 1].index + 1 > n then w[|w| - 1].index + 1 else n
  }

  /** The column argument of `where`: a name, an array of column => value pairs, or a Closure,
      given here as the builder calls its body makes. */
  datatype ColumnArg =
    | Named(name: string)
    | Pairs(pairs: seq<(string, Value)>)
    | Closure(calls: seq<BuilderCall>)

  /** A call a Closure makes on the nested builder it receives. `argc` is func_num_args(). */
  datatype BuilderCall =
    | WhereCall(column: ColumnArg, operator: Value, value: Value, boolean: string, argc: nat)
    | OrWhereCall(column: ColumnArg, operator: Value, value: Value)
    | WithTrashedCall
    | OnlyTrashedCall

  /** The outcome of a builder call: the new `$where`, and the exception raised, if any. */
  datatype Applied = Applied(where: seq<Entry>, error: Option<Error>)

  /** Argument shorthands: with two arguments the second is the value of an equality; an operator
      the catalog does not know becomes the value of an equality. Returns (operator, value). */
  function Shorthand(cat: Catalog, operator: Value, value: Value, argc: nat): (string, Value) {
    var (o, v) := if argc == 2 then (VStr("="), operator) else (operator, value);
    if IsValidOperator(cat, o) then (o.s, v) else ("=", o)
  }

  /** The AttributeValueList stored for a (lower-cased) operator and value. */
  function ValueList(s: Schema, sym: string, v: Value): seq<AttrValue> {
    if (sym == "in" || sym == "not_in") && v.VList? then
      if v.items == [] then [EMPTY_IN_SENTINEL]
      else seq(|v.items|, i requires 0 <= i < |v.items| => s.marshal(v.items[i]))
    else if sym == "between" then
      match s.marshal(v)
      case L(items) => items
      case _ => []
    else [s.marshal(v)]
  }

  lemma LowerEquals()
    ensures Lower("=") == "="
  {
  }

  /** `where` with a column name. */
  function AddNamed(s: Schema, w: seq<Entry>, column: string, operator: Value, value: Value, boolean: string, argc: nat): Applied
    requires s.Valid()
  {
    var (sym, v) := Shorthand(s.operators, operator, value, argc);
    LowerEquals();
    if v.VClosure? then Applied(w, Some(NotSupported))
    else Applied(Put(w, Cond(column, ValueList(s, Lower(sym), v), DynamoDbOperator(s.operators, sym), boolean)), None)
  }

  /** The `$where` a fresh builder from `newQuery()` starts with: `where('deleted_at', null)` on
      a soft-deleting model (src/DynamoDbModel.php:225-227). */
  function DefaultWhere(s: Schema): seq<Entry>
    requires s.Valid()
  {
    if s.softDelete then AddNamed(s, [], DELETED_AT, VNull, VNull, "AND", 2).where else []
  }

  /** `where($column, $operator, $value, $boolean)` called with `argc` arguments. */
  function AddWhere(s: Schema, w: seq<Entry>, column: ColumnArg, operator: Value, value: Value, boolean: string, argc: nat): Applied
    requires s.Valid()
    decreases column
  {
    match column
    case Named(c) => AddNamed(s, w, c, operator, value, boolean, argc)
    case Pairs(ps) =>
      if |ps| > 0 then AddNamed(s, w, ps[0].0, VStr("="), ps[0].1, "AND", 3)
      else
        var (_, v) := Shorthand(s.operators, operator, value, argc);
        Applied(w, Some(if v.VClosure? then NotSupported else IllegalOffset))
    case Closure(calls) =>
      var marked := Put(w, JoinerMark(LastKeyText(w), boolean));
      var inner := RunCalls(s, DefaultWhere(s), calls);
      if inner.error.Some? then Applied(marked, inner.error)
      else Applied(marked + [Group(NextIndex(marked), Forget(inner.where, Column(DELETED_AT)))], None)
  }

  /** One call of a Closure body. */
  function ApplyCall(s: Schema, w: seq<Entry>, call: BuilderCall): Applied
    requires s.Valid()
    decreases call
  {
    match call
    case WhereCall(c, o, v, b, n) => AddWhere(s, w, c, o, v, b, n)
    case OrWhereCall(c, o, v) => AddWhere(s, w, c, o, v, "OR", 4)
    case WithTrashedCall => Applied(Forget(w, Column(DELETED_AT)), None)
    case OnlyTrashedCall => AddNamed(s, w, DELETED_AT, VStr(">"), VInt(1), "AND", 3)
  }

  /** A Closure body's calls in order; an exception ends the body. */
  function RunCalls(s: Schema, w: seq<Entry>, calls: seq<BuilderCall>): Applied
    requires s.Valid()
    decreases calls
  {
    if calls == [] then Applied(w, None)
    else
      var a := ApplyCall(s, w, calls[0]);
      if a.error.Some? then a else RunCalls(s, a.where, calls[1..])
  }

  // ----- The array operations -----

  lemma LookupCons(e: Entry, t: seq<Entry>, k: Key)
    ensures Lookup([e] + t, k) == if KeyOf(e) == k then Some(e) else Lookup(t, k)
  {
    assert ([e] + t)[1..] == t;
  }

  /** With unique keys, the entry at position `p` is the one found under its key. */
  lemma IndexOfUnique(w: seq<Entry>, p: nat)
    requires UniqueKeys(w) && p < |w|
    ensures IndexOf(w, KeyOf(w[p])) == Some(p)
  {
  }

  /** Storing an entry: it is found under its key, every other key reads as before, an existing
      key keeps its position, a new key goes to the end, and keys stay unique. */
  lemma PutSpec(w: seq<Entry>, e: Entry)
    requires UniqueKeys(w)
    ensures UniqueKeys(Put(w, e))
    ensures Lookup(Put(w, e), KeyOf(e)) == Some(e)
    ensures forall k :: k != KeyOf(e) ==> Lookup(Put(w, e), k) == Lookup(w, k)
    ensures IndexOf(w, KeyOf(e)).Some? ==> |Put(w, e)| == |w| && IndexOf(Put(w, e), KeyOf(e)) == IndexOf(w, KeyOf(e))
    ensures IndexOf(w, KeyOf(e)).None? ==> |Put(w, e)| == |w| + 1 && IndexOf(Put(w, e), KeyOf(e)) == Some(|w|)
  {
    var r := Put(w, e);
    var p := if IndexOf(w, KeyOf(e)).Some? then IndexOf(w, KeyOf(e)).value else |w|;
    assert |r| == (if p < |w| then |w| else |w| + 1);
    assert r[p] == e;
    assert forall j :: 0 <= j < |r| && j != p ==> r[j] == w[j];
    assert UniqueKeys(r);
    IndexOfUnique(r, p);
    forall k | k != KeyOf(e)
      ensures Lookup(r, k) == Lookup(w, k)
    {
      match IndexOf(w, k)
      case Some(q) =>
        IndexOfUnique(w, q);
        IndexOfUnique(r, q);
      case None =>
        assert forall j :: 0 <= j < |r| ==> KeyOf(r[j]) != k;
    }
  }

  /** The entries Forget keeps are entries of the original array. */
  lemma {:induction false} ForgetKeeps(w: seq<Entry>, k: Key)
    ensures forall i :: 0 <= i < |Forget(w, k)| ==> Forget(w, k)[i] in w && KeyOf(Forget(w, k)[i]) != k
    decreases |w|
  {
    if w != [] {
      ForgetKeeps(w[1..], k);
      var h := if KeyOf(w[0]) == k then [] else [w[0]];
      assert Forget(w, k) == h + Forget(w[1..], k);
      forall i | 0 <= i < |Forget(w, k)|
        ensures Forget(w, k)[i] in w && KeyOf(Forget(w, k)[i]) != k
      {
        if i >= |h| {
          assert Forget(w, k)[i] == Forget(w[1..], k)[i - |h|];
          assert Forget(w[1..], k)[i - |h|] in w[1..];
        }
      }
    }
  }

  /** unset: the key is gone and every other key reads as before. */
  lemma {:induction false} ForgetSpec(w: seq<Entry>, k: Key)
    ensures Lookup(Forget(w, k), k) == None
    ensures forall k' :: k' != k ==> Lookup(Forget(w, k), k') == Lookup(w, k')
    decreases |w|
  {
    if w != [] {
      ForgetSpec(w[1..], k);
      var t := Forget(w[1..], k);
      assert w == [w[0]] + w[1..];
      if KeyOf(w[0]) == k {
        assert Forget(w, k) == t;
        forall k' | k' != k
          ensures Lookup(Forget(w, k), k') == Lookup(w, k')
        {
          LookupCons(w[0], w[1..], k');
        }
      } else {
        assert Forget(w, k) == [w[0]] + t;
        LookupCons(w[0], t, k);
        forall k' | k' != k
          ensures Lookup(Forget(w, k), k') == Lookup(w, k')
        {
          LookupCons(w[0], t, k');
          LookupCons(w[0], w[1..], k');
        }
      }
    }
  }

  /** unset keeps the keys unique. */
  lemma {:induction false} ForgetUnique(w: seq<Entry>, k: Key)
    requires UniqueKeys(w)
    ensures UniqueKeys(Forget(w, k))
    decreases |w|
  {
    if w != [] {
      ForgetUnique(w[1..], k);
      var t := Forget(w[1..], k);
      if KeyOf(w[0]) != k {
        assert Forget(w, k) == [w[0]] + t;
        ForgetKeeps(w[1..], k);
        forall j | 0 <= j < |t|
          ensures KeyOf(t[j]) != KeyOf(w[0])
        {
          assert t[j] in w[1..];
        }
        var r := [w[0]] + t;
        assert forall i :: 0 < i < |r| ==> r[i] == t[i - 1];
      }
    }
  }

  /** withTrashed twice is withTrashed once. */
  lemma {:induction false} ForgetIdempotent(w: seq<Entry>, k: Key)
    ensures Forget(Forget(w, k), k) == Forget(w, k)
    decreases |w|
  {
    if w != [] {
      ForgetIdempotent(w[1..], k);
      var t := Forget(w[1..], k);
      ForgetKeeps(w[1..], k);
      if KeyOf(w[0]) != k {
        var r := [w[0]] + t;
        assert Forget(w, k) == r;
        assert r[0] == w[0] && r[1..] == t;
        assert Forget(r, k) == [w[0]] + Forget(t, k);
      } else {
        assert Forget(w, k) == t;
      }
    }
  }

  lemma {:induction false} ForgetWellFormed(w: seq<Entry>, k: Key)
    requires WellFormed(w)
    ensures WellFormed(Forget(w, k))
  {
    ForgetUnique(w, k);
    ForgetKeeps(w, k);
  }

  lemma PutWellFormed(w: seq<Entry>, e: Entry)
    requires WellFormed(w) && (e.Group? ==> WellFormed(e.body))
    ensures WellFormed(Put(w, e))
  {
    PutSpec(w, e);
  }

  /** A group appended under NextIndex takes a key no entry holds. */
  lemma AppendGroupWellFormed(w: seq<Entry>, body: seq<Entry>)
    requires WellFormed(w) && WellFormed(body)
    ensures WellFormed(w + [Group(NextIndex(w), body)])
  {
    var r := w + [Group(NextIndex(w), body)];
    assert forall i :: 0 <= i < |w| ==> r[i] == w[i];
  }

  // ----- where and the trashed toggles -----

  /** Two arguments mean equality with the second argument as the value. */
  lemma ShorthandTwoArgs(cat: Catalog, operator: Value, value: Value)
    requires Resolve(cat, "=").Some?
    ensures Shorthand(cat, operator, value, 2) == ("=", operator)
  {
    LowerEquals();
  }

  /** With any other argument count, a known operator is kept with its value, and an unknown one
      becomes the value of an equality. */
  lemma ShorthandOperator(cat: Catalog, operator: Value, value: Value, argc: nat)
    requires argc != 2
    ensures IsValidOperator(cat, operator) ==> Shorthand(cat, operator, value, argc) == (operator.s, value)
    ensures !IsValidOperator(cat, operator) ==> Shorthand(cat, operator, value, argc) == ("=", operator)
  {
  }

  /** between unwraps one level: whatever value the Marshaler turns into a list, a PHP array
      among them, stores that list's elements, not a single list value. */
  lemma BetweenUnwrapsList(s: Schema, v: Value)
    requires s.marshal(v).L?
    ensures ValueList(s, "between", v) == s.marshal(v).items
  {
  }

  /** An in/not_in condition never stores an empty value list: an empty array stores the
      sentinel, so the compiled IN list always has a placeholder. */
  lemma InListNeverEmpty(s: Schema, sym: string, v: Value)
    requires sym == "in" || sym == "not_in"
    ensures |ValueList(s, sym, v)| >= 1
    ensures v.VList? && v.items == [] ==> ValueList(s, sym, v) == [EMPTY_IN_SENTINEL]
    ensures v.VList? ==> |ValueList(s, sym, v)| == if v.items == [] then 1 else |v.items|
  {
  }

  /** A where on a column stores one condition under that column (replacing an earlier one in
      place) and nothing else, unless the value is a Closure, which is refused. */
  lemma AddNamedSpec(s: Schema, w: seq<Entry>, column: string, operator: Value, value: Value, boolean: string, argc: nat)
    requires s.Valid() && UniqueKeys(w)
    ensures var (sym, v) := Shorthand(s.operators, operator, value, argc);
      var r := AddNamed(s, w, column, operator, value, boolean, argc);
      IsValidOperator(s.operators, VStr(sym)) &&
      (v.VClosure? ==> r == Applied(w, Some(NotSupported))) &&
      (!v.VClosure? ==>
        r.error == None && UniqueKeys(r.where) &&
        Lookup(r.where, Column(column)) == Some(Cond(column, ValueList(s, Lower(sym), v), DynamoDbOperator(s.operators, sym), boolean)) &&
        (forall k :: k != Column(column) ==> Lookup(r.where, k) == Lookup(w, k)) &&
        (Lookup(w, Column(column)).Some? ==> |r.where| == |w| && IndexOf(r.where, Column(column)) == IndexOf(w, Column(column))))
  {
    var (sym, v) := Shorthand(s.operators, operator, value, argc);
    LowerEquals();
    PutSpec(w, Cond(column, ValueList(s, Lower(sym), v), DynamoDbOperator(s.operators, sym), boolean));
  }

  /** An array column applies its first pair as an equality joined by AND, whatever the other
      arguments and the other pairs. */
  lemma PairsFirstOnly(s: Schema, w: seq<Entry>, ps: seq<(string, Value)>, operator: Value, value: Value, boolean: string, argc: nat)
    requires s.Valid() && |ps| > 0
    ensures AddWhere(s, w, Pairs(ps), operator, value, boolean, argc) == AddWhere(s, w, Named(ps[0].0), VStr("="), ps[0].1, "AND", 3)
  {
  }

  /** An empty array column raises and leaves the conditions alone. */
  lemma EmptyPairsRaise(s: Schema, w: seq<Entry>, operator: Value, value: Value, boolean: string, argc: nat)
    requires s.Valid()
    ensures AddWhere(s, w, Pairs([]), operator, value, boolean, argc).where == w
    ensures AddWhere(s, w, Pairs([]), operator, value, boolean, argc).error.Some?
  {
  }

  /** orWhere is where with joiner OR and all four arguments, so the two-argument shorthand never
      applies to it. */
  lemma OrWhereSpec(s: Schema, w: seq<Entry>, column: ColumnArg, operator: Value, value: Value)
    requires s.Valid()
    ensures ApplyCall(s, w, OrWhereCall(column, operator, value)) == AddWhere(s, w, column, operator, value, "OR", 4)
    ensures Shorthand(s.operators, operator, value, 4) != Shorthand(s.operators, operator, value, 2) ==>
      !IsValidOperator(s.operators, operator) || operator != VStr("=") || value != operator
  {
  }

  /** A fresh builder of a soft-deleting model holds exactly the condition deleted_at = null. */
  lemma DefaultWhereSpec(s: Schema)
    requires s.Valid()
    ensures !s.softDelete ==> DefaultWhere(s) == []
    ensures s.softDelete ==> DefaultWhere(s) == [Cond(DELETED_AT, [s.marshal(VNull)], DynamoDbOperator(s.operators, "="), "AND")]
  {
    LowerEquals();
    assert Lower("=") != "in" && Lower("=") != "not_in" && Lower("=") != "between";
  }

  /** Appending finds an earlier entry first, and the new one only under a key not yet there. */
  lemma {:induction false} LookupSnoc(w: seq<Entry>, e: Entry, k: Key)
    ensures Lookup(w + [e], k) == if Lookup(w, k).Some? then Lookup(w, k) else if KeyOf(e) == k then Some(e) else None
    decreases |w|
  {
    if w == [] {
      LookupCons(e, [], k);
    } else {
      LookupSnoc(w[1..], e, k);
      assert w + [e] == [w[0]] + (w[1..] + [e]);
      LookupCons(w[0], w[1..] + [e], k);
      assert w == [w[0]] + w[1..];
      LookupCons(w[0], w[1..], k);
    }
  }

  /** A Closure column first records its joiner under 'conditional_operator_<last key>',
      replacing an earlier marker of that name in place; when the closure raises, nothing else
      is recorded. */
  lemma ClosureMarks(s: Schema, w: seq<Entry>, calls: seq<BuilderCall>, operator: Value, value: Value, boolean: string, argc: nat)
    requires s.Valid() && UniqueKeys(w)
    ensures var r := AddWhere(s, w, Closure(calls), operator, value, boolean, argc);
      var marker := Marker(LastKeyText(w));
      r.error == RunCalls(s, DefaultWhere(s), calls).error &&
      Lookup(r.where, marker) == Some(JoinerMark(LastKeyText(w), boolean)) &&
      forall k :: k != marker && !k.Index? ==> Lookup(r.where, k) == Lookup(w, k)
  {
    var mark := JoinerMark(LastKeyText(w), boolean);
    var marked := Put(w, mark);
    PutSpec(w, mark);
    var inner := RunCalls(s, DefaultWhere(s), calls);
    if inner.error.None? {
      var g := Group(NextIndex(marked), Forget(inner.where, Column(DELETED_AT)));
      forall k: Key | !k.Index?
        ensures Lookup(marked + [g], k) == Lookup(marked, k)
      {
        LookupSnoc(marked, g, k);
      }
    }
  }

  /** When the closure completes, its conditions, without any deleted_at condition, are appended
      as one group under an integer key larger than every earlier one. */
  lemma ClosureAppendsGroup(s: Schema, w: seq<Entry>, calls: seq<BuilderCall>, operator: Value, value: Value, boolean: string, argc: nat)
    requires s.Valid()
    requires RunCalls(s, DefaultWhere(s), calls).error.None?
    ensures var r := AddWhere(s, w, Closure(calls), operator, value, boolean, argc).where;
      var inner := RunCalls(s, DefaultWhere(s), calls).where;
      var marked := Put(w, JoinerMark(LastKeyText(w), boolean));
      r[..|r| - 1] == marked &&
      var g := r[|r| - 1];
      g.Group? && Lookup(g.body, Column(DELETED_AT)) == None &&
      (forall k :: k != Column(DELETED_AT) ==> Lookup(g.body, k) == Lookup(inner, k)) &&
      forall i :: 0 <= i < |marked| ==> marked[i].Group? ==> marked[i].index < g.index
  {
    var inner := RunCalls(s, DefaultWhere(s), calls).where;
    ForgetSpec(inner, Column(DELETED_AT));
    var marked := Put(w, JoinerMark(LastKeyText(w), boolean));
    assert (marked + [Group(NextIndex(marked), Forget(inner, Column(DELETED_AT)))])[..|marked|] == marked;
  }

  /** Every builder call keeps the keys unique at every nesting level. */
  lemma {:induction false} AddWhereWellFormed(s: Schema, w: seq<Entry>, column: ColumnArg, operator: Value, value: Value, boolean: string, argc: nat)
    requires s.Valid() && WellFormed(w)
    ensures WellFormed(AddWhere(s, w, column, operator, value, boolean, argc).where)
    decreases column
  {
    match column
    case Named(c) => AddNamedSpec(s, w, c, operator, value, boolean, argc);
    case Pairs(ps) =>
      if |ps| > 0 {
        AddNamedSpec(s, w, ps[0].0, VStr("="), ps[0].1, "AND", 3);
      }
    case Closure(calls) =>
      var marked := Put(w, JoinerMark(LastKeyText(w), boolean));
      PutWellFormed(w, JoinerMark(LastKeyText(w), boolean));
      DefaultWhereWellFormed(s);
      RunCallsWellFormed(s, DefaultWhere(s), calls);
      var inner := RunCalls(s, DefaultWhere(s), calls);
      if inner.error.None? {
        ForgetWellFormed(inner.where, Column(DELETED_AT));
        AppendGroupWellFormed(marked, Forget(inner.where, Column(DELETED_AT)));
      }
  }

  lemma {:induction false} ApplyCallWellFormed(s: Schema, w: seq<Entry>, call: BuilderCall)
    requires s.Valid() && WellFormed(w)
    ensures WellFormed(ApplyCall(s, w, call).where)
    decreases call
  {
    match call
    case WhereCall(c, o, v, b, n) => AddWhereWellFormed(s, w, c, o, v, b, n);
    case OrWhereCall(c, o, v) => AddWhereWellFormed(s, w, c, o, v, "OR", 4);
    case WithTrashedCall => ForgetWellFormed(w, Column(DELETED_AT));
    case OnlyTrashedCall => AddNamedSpec(s, w, DELETED_AT, VStr(">"), VInt(1), "AND", 3);
  }

  lemma {:induction false} RunCallsWellFormed(s: Schema, w: seq<Entry>, calls: seq<BuilderCall>)
    requires s.Valid() && WellFormed(w)
    ensures WellFormed(RunCalls(s, w, calls).where)
    decreases calls
  {
    if calls != [] {
      ApplyCallWellFormed(s, w, calls[0]);
      var a := ApplyCall(s, w, calls[0]);
      if a.error.None? {
        RunCallsWellFormed(s, a.where, calls[1..]);
      }
    }
  }

  lemma DefaultWhereWellFormed(s: Schema)
    requires s.Valid()
    ensures WellFormed(DefaultWhere(s))
  {
    if s.softDelete {
      AddNamedSpec(s, [], DELETED_AT, VNull, VNull, "AND", 2);
    }
  }

  /** withTrashed after onlyTrashed leaves no deleted_at condition and every other condition as
      it was before onlyTrashed. */
  lemma OnlyThenWithTrashed(s: Schema, w: seq<Entry>)
    requires s.Valid() && UniqueKeys(w)
    ensures var r := ApplyCall(s, ApplyCall(s, w, OnlyTrashedCall).where, WithTrashedCall).where;
      Lookup(r, Column(DELETED_AT)) == None &&
      forall k :: k != Column(DELETED_AT) ==> Lookup(r, k) == Lookup(w, k)
  {
    AddNamedSpec(s, w, DELETED_AT, VStr(">"), VInt(1), "AND", 3);
    ForgetSpec(ApplyCall(s, w, OnlyTrashedCall).where, Column(DELETED_AT));
  }

  /** withTrashed is idempotent. */
  lemma WithTrashedIdempotent(s: Schema, w: seq<Entry>)
    requires s.Valid()
    ensures var once := ApplyCall(s, w, WithTrashedCall).where;
      ApplyCall(s, once, WithTrashedCall).where == once
  {
    ForgetIdempotent(w, Column(DELETED_AT));
  }
}
