/** The access-path planner: conditionsContainIndexKey, checkValidQueryDynamoDbOperator,
    addConditionInQuery and the unused conditionsContainKey
    (src/DynamoDbQueryBuilder.php:389-435, 555-642).

    The planner picks Query on a secondary index or Scan, moves the index's key conditions into
    KeyConditions when their operators allow it, and compiles what is left of `$where` into the
    FilterExpression with writeQuery. */
module Planner {
  import opened Php
  import opened Dynamo
  import opened Conditions
  import opened Compiler

  /** The builder fields the planner reads: `$where`, `$indexName` and `$orderBy`
      ("" for PHP null, which the source's truthiness tests treat alike). */
  datatype Criteria = Criteria(where: seq<Entry>, indexName: string, orderBy: string)

  /** The planner's outcome: the operation, the filled request and the uniqid() count. */
  datatype Planned = Planned(kind: OpKind, request: ReadRequest, drawn: nat)

  // ----- Matching where keys against key attributes -----

  /** count(array_intersect(array_keys($where), $keys)): the where entries whose key, compared
      as a string, is one of `keys`. */
  function CountIn(w: seq<Entry>, keys: seq<string>): (n: nat)
    ensures n <= |w|
  {
    if w == [] then 0 else (if KeyText(KeyOf(w[0])) in keys then 1 else 0) + CountIn(w[1..], keys)
  }

  /** The source's test that the conditions mention every one of `keys`. */
  predicate Covers(w: seq<Entry>, keys: seq<string>) {
    CountIn(w, keys) == |keys|
  }

  /** The where keys as strings. */
  function Texts(w: seq<Entry>): set<string> {
    set i | 0 <= i < |w| :: KeyText(KeyOf(w[i]))
  }

  /** No two where keys compare equal as strings (PHP would have merged them into one key). */
  predicate UniqueTexts(w: seq<Entry>) {
    forall i, j :: 0 <= i < j < |w| ==> KeyText(KeyOf(w[i])) != KeyText(KeyOf(w[j]))
  }

  predicate DistinctKeys(keys: seq<string>) {
    forall i, j :: 0 <= i < j < |keys| ==> keys[i] != keys[j]
  }

  // ----- conditionsContainIndexKey -----

  /** The catalog entry named `name`: array_key_exists / `$indexKeys[$name]`. */
  function NamedIndex(indexes: seq<IndexDef>, name: string): (r: Option<IndexDef>)
    ensures r.Some? ==> r.value in indexes && r.value.name == name
    ensures r.None? ==> forall i :: 0 <= i < |indexes| ==> indexes[i].name != name
  {
    if indexes == [] then None
    else if indexes[0].name == name then Some(indexes[0])
    else NamedIndex(indexes[1..], name)
  }

  /** The first catalog entry, in declaration order, whose key attributes all have conditions. */
  function FirstCovered(w: seq<Entry>, indexes: seq<IndexDef>): (r: Option<IndexDef>)
    ensures r.Some? ==> exists i :: 0 <= i < |indexes| && indexes[i] == r.value && Covers(w, IndexKeys(r.value)) &&
                          forall j :: 0 <= j < i ==> !Covers(w, IndexKeys(indexes[j]))
    ensures r.None? ==> forall i :: 0 <= i < |indexes| ==> !Covers(w, IndexKeys(indexes[i]))
  {
    if indexes == [] then None
    else if Covers(w, IndexKeys(indexes[0])) then Some(indexes[0])
    else
      var r := FirstCovered(w, indexes[1..]);
      assert forall i :: 1 <= i < |indexes| ==> indexes[i] == indexes[1..][i - 1];
      r
  }

  /** conditionsContainIndexKey($indexName): nothing for an empty `$where`; else the named index
      when it is in the catalog, else the first index whose keys the conditions cover. */
  function ContainIndexKey(s: Schema, w: seq<Entry>, indexName: string): (r: Option<IndexDef>)
    ensures w == [] ==> r.None?
    ensures r.Some? ==> r.value in s.indexes
    ensures w != [] && Truthy(indexName) && (exists i :: 0 <= i < |s.indexes| && s.indexes[i].name == indexName) ==>
              r.Some? && r.value.name == indexName
    ensures w != [] && !(Truthy(indexName) && exists i :: 0 <= i < |s.indexes| && s.indexes[i].name == indexName) ==>
              (r.Some? <==> exists i :: 0 <= i < |s.indexes| && Covers(w, IndexKeys(s.indexes[i])))
    ensures r.Some? && r.value.name != indexName ==>
              Covers(w, IndexKeys(r.value)) &&
              exists i :: 0 <= i < |s.indexes| && s.indexes[i] == r.value &&
                forall j :: 0 <= j < i ==> !Covers(w, IndexKeys(s.indexes[j]))
  {
    if w == [] then None
    else if Truthy(indexName) && NamedIndex(s.indexes, indexName).Some? then NamedIndex(s.indexes, indexName)
    else FirstCovered(w, s.indexes)
  }

  // ----- checkValidQueryDynamoDbOperator -----

  /** array_except($where[$attr], 'ConditionalOperator'): the condition on `attr` as a
      KeyConditions entry. */
  function KeyEntry(w: seq<Entry>, attr: string): (r: Option<KeyCondition>)
    ensures r.Some? <==> Lookup(w, Column(attr)).Some?
    ensures r.Some? ==> Lookup(w, Column(attr)).value.Cond? &&
                        r.value == KeyCondition(Lookup(w, Column(attr)).value.values, Lookup(w, Column(attr)).value.op)
  {
    match Lookup(w, Column(attr))
    case Some(Cond(_, vs, op, _)) => Some(KeyCondition(vs, op))
    case Some(_) => assert false; None
    case None => None
  }

  /** array_get($where, "attr.ComparisonOperator"): null when there is no condition on `attr`. */
  function KeyOp(w: seq<Entry>, attr: string): Option<Op> {
    match KeyEntry(w, attr)
    case Some(kc) => Some(kc.op)
    case None => None
  }

  /** checkValidQueryDynamoDbOperator($keysInfo, hash or range): the condition on the key may go
      into KeyConditions; an index without a range key never has a valid range condition. */
  predicate CheckValid(w: seq<Entry>, ix: IndexDef, isRange: bool) {
    if !isRange then KeyEligible(KeyOp(w, ix.hash), false)
    else ix.range.Some? && KeyEligible(KeyOp(w, ix.range.value), true)
  }

  // ----- addConditionInQuery -----

  /** Attribute `a` enters KeyConditions: it is the index's hash or range key and its
      condition passes checkValidQueryDynamoDbOperator. */
  predicate KeyAdded(w: seq<Entry>, ix: IndexDef, a: string) {
    (a == ix.hash && CheckValid(w, ix, false)) || (ix.range.Some? && a == ix.range.value && CheckValid(w, ix, true))
  }

  /** The Query part of addConditionInQuery once index `ix` is chosen: IndexName, the eligible
      key conditions, and ScanIndexForward when a range condition was added and an order is set. */
  function WithKeyConditions(w: seq<Entry>, ix: IndexDef, orderBy: string, req: ReadRequest): (r: ReadRequest)
    ensures r.indexName == Some(ix.name)
    ensures forall a :: a in r.keyConditions <==> a in req.keyConditions || KeyAdded(w, ix, a)
    ensures forall a :: KeyAdded(w, ix, a) ==>
              KeyEntry(w, a).Some? && a in r.keyConditions && r.keyConditions[a] == KeyEntry(w, a).value
    ensures forall a :: a in req.keyConditions && !KeyAdded(w, ix, a) ==>
              a in r.keyConditions && r.keyConditions[a] == req.keyConditions[a]
    ensures r.scanIndexForward == if CheckValid(w, ix, true) && Truthy(orderBy)
                                  then Some(Lower(orderBy) != "desc") else req.scanIndexForward
    ensures r == req.(indexName := r.indexName, keyConditions := r.keyConditions, scanIndexForward := r.scanIndexForward)
  {
    var r0 := req.(indexName := Some(ix.name));
    var r1 := if CheckValid(w, ix, false)
              then r0.(keyConditions := r0.keyConditions[ix.hash := KeyEntry(w, ix.hash).value]) else r0;
    if CheckValid(w, ix, true) then
      var r2 := r1.(keyConditions := r1.keyConditions[ix.range.value := KeyEntry(w, ix.range.value).value]);
      if Truthy(orderBy) then r2.(scanIndexForward := Some(Lower(orderBy) != "desc")) else r2
    else r1
  }

  /** array_except($where, array_values($keysInfo)): the conditions left for the filter. */
  function FilterScope(w: seq<Entry>, ix: IndexDef): seq<Entry> {
    var v := Forget(w, Column(ix.hash));
    if ix.range.Some? then Forget(v, Column(ix.range.value)) else v
  }

  /** FilterExpression and ExpressionAttributeNames when the compiled filter is truthy;
      ExpressionAttributeValues when the values map is not empty. */
  function WithFilter(req: ReadRequest, filter: string, acc: Acc): (r: ReadRequest)
    ensures r.filterExpression == if Truthy(filter) then Some(filter) else req.filterExpression
    ensures r.attributeNames == if Truthy(filter) then Some(acc.names) else req.attributeNames
    ensures r.attributeValues == if |acc.values| > 0 then Some(acc.values) else req.attributeValues
    ensures r == req.(filterExpression := r.filterExpression, attributeNames := r.attributeNames, attributeValues := r.attributeValues)
  {
    var r1 := if Truthy(filter) then req.(filterExpression := Some(filter), attributeNames := Some(acc.names)) else req;
    if |acc.values| > 0 then r1.(attributeValues := Some(acc.values)) else r1
  }

  /** addConditionInQuery(&$query): the operation and the completed request. */
  function Plan(s: Schema, c: Criteria, uniq: Uniq, req: ReadRequest, drawn: nat): (p: Planned)
    ensures c.where == [] ==> p == Planned(Scan, req, drawn)
    ensures p.request == req.(indexName := p.request.indexName, keyConditions := p.request.keyConditions,
                              scanIndexForward := p.request.scanIndexForward, filterExpression := p.request.filterExpression,
                              attributeNames := p.request.attributeNames, attributeValues := p.request.attributeValues)
  {
    if c.where == [] then Planned(Scan, req, drawn)
    else
      var ix := ContainIndexKey(s, c.where, c.indexName);
      var r := if ix.Some? then WithKeyConditions(c.where, ix.value, c.orderBy, req) else req;
      var scope := if ix.Some? then FilterScope(c.where, ix.value) else c.where;
      var (filter, acc) := Write(s.operators, uniq, "", scope, None, Acc(map[], map[], drawn));
      Planned(if ix.Some? then Query else Scan, WithFilter(r, filter, acc), acc.drawn)
  }

  /** The conditions Plan compiles into the filter. */
  function PlanScope(s: Schema, c: Criteria): seq<Entry> {
    var ix := ContainIndexKey(s, c.where, c.indexName);
    if ix.Some? then FilterScope(c.where, ix.value) else c.where
  }

  /** addConditionInQuery, filling the request as the source does. */
  method AddConditionInQuery(s: Schema, c: Criteria, uniq: Uniq, req: ReadRequest, drawn: nat)
    returns (op: OpKind, query: ReadRequest, drawn': nat)
    ensures Planned(op, query, drawn') == Plan(s, c, uniq, req, drawn)
  {
    op := Scan;
    query := req;
    drawn' := drawn;
    if c.where != [] {
      var where := c.where;
      var index := ContainIndexKey(s, c.where, c.indexName);
      if index.Some? {
        var ix := index.value;
        op := Query;
        query := query.(indexName := Some(ix.name));
        if CheckValid(c.where, ix, false) {
          query := query.(keyConditions := query.keyConditions[ix.hash := KeyEntry(c.where, ix.hash).value]);
        }
        if CheckValid(c.where, ix, true) {
          query := query.(keyConditions := query.keyConditions[ix.range.value := KeyEntry(c.where, ix.range.value).value]);
          if Truthy(c.orderBy) {
            query := query.(scanIndexForward := Some(Lower(c.orderBy) != "desc"));
          }
        }
        where := FilterScope(c.where, ix);
      }
      var filterExpression, acc := WriteQuery(s.operators, uniq, "", where, None, Acc(map[], map[], drawn));
      if Truthy(filterExpression) {
        query := query.(filterExpression := Some(filterExpression), attributeNames := Some(acc.names));
      }
      if |acc.values| > 0 {
        query := query.(attributeValues := Some(acc.values));
      }
      drawn' := acc.drawn;
    }
  }

  // ----- conditionsContainKey -----

  /** conditionsContainKey(), which no other method calls: when the conditions mention every
      primary key attribute, the first value of each key's condition, unmarshaled. */
  function ConditionsContainKey(s: Schema, w: seq<Entry>): (r: Option<Row>)
    ensures r.Some? <==> w != [] && Covers(w, s.PrimaryKeys())
    ensures r.Some? ==> r.value.Keys == set k | k in s.PrimaryKeys()
    ensures r.Some? ==> forall k :: k in s.PrimaryKeys() && KeyEntry(w, k).Some? && KeyEntry(w, k).value.values != [] ==>
              r.value[k] == s.unmarshal(KeyEntry(w, k).value.values[0])
  {
    if w == [] || !Covers(w, s.PrimaryKeys()) then None
    else Some(map k | k in s.PrimaryKeys() :: KeyValue(s, w, k))
  }

  /** unmarshalItem($where[$key]['AttributeValueList'])[0], PHP null for an empty list. */
  function KeyValue(s: Schema, w: seq<Entry>, k: string): Value {
    match KeyEntry(w, k)
    case Some(kc) => if kc.values == [] then VNull else s.unmarshal(kc.values[0])
    case None => VNull
  }
}
