/** The data the query builder works on: PHP values from its callers, DynamoDB's marshaled
    attribute values, the comparison-operator catalog, the model's table description, and the
    request and reply records exchanged with the DynamoDB client. */
module Dynamo {
  import opened Php

  /** A PHP value handed to the builder (a where value, a model attribute, a plucked key). */
  datatype Value = VNull | VBool(b: bool) | VInt(i: int) | VStr(s: string) | VList(items: seq<Value>) | VClosure

  /** DynamoDB's wire encoding of an attribute value, with the type tags the SDK's Marshaler uses.
      `Missing` stands for the PHP null read from a value list that has no first element. */
  datatype AttrValue =
    | S(s: string)
    | N(n: string)
    | BOOL(b: bool)
    | NULL
    | L(items: seq<AttrValue>)
    | M(fields: map<string, AttrValue>)
    | Missing

  /** A marshaled item or key, and the store's continuation record (LastEvaluatedKey). */
  type Item = map<string, AttrValue>
  type Cursor = map<string, AttrValue>

  /** An attribute array of a model (unmarshaled). */
  type Row = map<string, Value>

  /** The canonical DynamoDB comparison operators the catalog maps symbols to. */
  datatype Op =
    | Eq | Ne | Lt | Le | Gt | Ge | In | NotIn | Between | BeginsWith | Contains | NotContains
    | AttributeExists | AttributeNotExists | IsNull | NotNull

  /** The operator's canonical name, as stored under 'ComparisonOperator'. */
  function Name(op: Op): string {
    match op
    case Eq => "EQ"
    case Ne => "NE"
    case Lt => "LT"
    case Le => "LE"
    case Gt => "GT"
    case Ge => "GE"
    case In => "IN"
    case NotIn => "NOT_IN"
    case Between => "BETWEEN"
    case BeginsWith => "BEGINS_WITH"
    case Contains => "CONTAINS"
    case NotContains => "NOT_CONTAINS"
    case AttributeExists => "ATTRIBUTE_EXISTS"
    case AttributeNotExists => "ATTRIBUTE_NOT_EXISTS"
    case IsNull => "NULL"
    case NotNull => "NOT_NULL"
  }

  /** The operator catalog (getOperatorMapping): lower-case symbols in declaration order. */
  type Catalog = seq<(string, Op)>

  /** The first catalog entry for `sym`, if any. */
  function Resolve(cat: Catalog, sym: string): (r: Option<Op>)
    ensures r.Some? <==> exists i :: 0 <= i < |cat| && cat[i].0 == sym
    ensures r.Some? ==> exists i :: 0 <= i < |cat| && cat[i] == (sym, r.value)
    decreases |cat|
  {
    if cat == [] then None
    else if cat[0].0 == sym then Some(cat[0].1)
    else Resolve(cat[1..], sym)
  }

  /** ComparisonOperator::isValidOperator: a string whose lower-case form is a catalog symbol. */
  predicate IsValidOperator(cat: Catalog, v: Value) {
    v.VStr? && Resolve(cat, Lower(v.s)).Some?
  }

  /** ComparisonOperator::getDynamoDbOperator, defined on valid symbols. */
  function DynamoDbOperator(cat: Catalog, sym: string): Op
    requires Resolve(cat, Lower(sym)).Some?
  {
    Resolve(cat, Lower(sym)).value
  }

  /** array_flip(getOperatorMapping())[name]: the last symbol mapped to `op`, or "" (PHP null)
      when no symbol maps to it. */
  function SymbolOf(cat: Catalog, op: Op): (sym: string)
    ensures sym != "" ==> exists i :: 0 <= i < |cat| && cat[i] == (sym, op)
    ensures (exists i :: 0 <= i < |cat| && cat[i].1 == op) ==>
      exists i :: 0 <= i < |cat| && cat[i] == (sym, op) && forall j :: i < j < |cat| ==> cat[j].1 != op
    ensures (forall i :: 0 <= i < |cat| ==> cat[i].1 != op) ==> sym == ""
    decreases |cat|
  {
    if cat == [] then ""
    else if cat[|cat| - 1].1 == op then cat[|cat| - 1].0
    else
      var init := cat[..|cat| - 1];
      assert forall i :: 0 <= i < |init| ==> init[i] == cat[i];
      SymbolOf(init, op)
  }

  /** ComparisonOperator::isValidQueryDynamoDbOperator: which operators a key condition accepts,
      on the partition (hash) key and on the sort (range) key; an absent condition is not valid. */
  predicate KeyEligible(op: Option<Op>, isRange: bool) {
    op.Some? &&
    if isRange then op.value in {Eq, Le, Lt, Ge, Gt, BeginsWith, Between} else op.value == Eq
  }

  /** One secondary index of the catalog: its name and its key attributes. */
  datatype IndexDef = IndexDef(name: string, hash: string, range: Option<string>)

  /** array_values($keysInfo): the index's key attributes, hash first. */
  function IndexKeys(ix: IndexDef): seq<string> {
    [ix.hash] + (if ix.range.Some? then [ix.range.value] else [])
  }

  /** What the builder reads from its model: table name, key name, composite key (empty, or
      [hash, range]), index catalog in declaration order, soft-delete flag, the operator catalog
      and the Marshaler's encoding and decoding of one value. */
  datatype Schema = Schema(
    table: string,
    keyName: string,
    compositeKey: seq<string>,
    indexes: seq<IndexDef>,
    softDelete: bool,
    operators: Catalog,
    marshal: Value -> AttrValue,
    unmarshal: AttrValue -> Value)
  {
    /** The facts about the collaborators the builder relies on: '=' is a catalog symbol (the
        builder stores getDynamoDbOperator('=') for every shorthand), a composite key has
        exactly two attributes, and the index catalog, a PHP array keyed by index name, holds
        each name once. */
    predicate Valid() {
      Resolve(operators, "=").Some? && |compositeKey| in {0, 2} &&
      forall i, j :: 0 <= i < j < |indexes| ==> indexes[i].name != indexes[j].name
    }

    predicate HasCompositeKey() {
      |compositeKey| > 0
    }

    /** The primary key attributes: the composite key, or the key name. */
    function PrimaryKeys(): seq<string> {
      if HasCompositeKey() then compositeKey else [keyName]
    }
  }

  /** PHP truthiness of an unmarshaled value. */
  predicate Truthful(v: Value) {
    match v
    case VNull => false
    case VBool(b) => b
    case VInt(i) => i != 0
    case VStr(t) => Truthy(t)
    case VList(items) => items != []
    case VClosure => true
  }

  /** $model->getAttribute($name), PHP null when unset. */
  function Attribute(attrs: Row, name: string): Value {
    if name in attrs then attrs[name] else VNull
  }

  /** unmarshalItem over a marshaled item. */
  function UnmarshalItem(s: Schema, item: Item): (r: Row)
    ensures r.Keys == item.Keys
    ensures forall k :: k in item ==> r[k] == s.unmarshal(item[k])
  {
    map k | k in item :: s.unmarshal(item[k])
  }

  /** marshalItem over an attribute array. */
  function MarshalItem(s: Schema, attrs: Row): Item {
    map k | k in attrs :: s.marshal(attrs[k])
  }

  /** A KeyConditions entry: the where entry without its ConditionalOperator. */
  datatype KeyCondition = KeyCondition(values: seq<AttrValue>, op: Op)

  /** A Query or Scan request record. */
  datatype ReadRequest = ReadRequest(
    table: string,
    select: Option<string>,
    returnConsumedCapacity: Option<string>,
    limit: Option<int>,
    projection: Option<string>,
    exclusiveStartKey: Option<Cursor>,
    indexName: Option<string>,
    keyConditions: map<string, KeyCondition>,
    scanIndexForward: Option<bool>,
    filterExpression: Option<string>,
    attributeNames: Option<map<string, string>>,
    attributeValues: Option<map<string, AttrValue>>)

  /** A request record with only its TableName. */
  function BaseRequest(table: string): ReadRequest {
    ReadRequest(table, None, None, None, None, None, None, map[], None, None, None, None)
  }

  datatype OpKind = Query | Scan

  datatype GetItemRequest = GetItemRequest(consistentRead: bool, table: string, key: Item, attributesToGet: Option<seq<string>>)
  datatype DeleteItemRequest = DeleteItemRequest(table: string, key: Item)
  datatype UpdateItemRequest = UpdateItemRequest(
    table: string, key: Item, updateExpression: string, attributeValues: map<string, AttrValue>, returnValues: string)
  datatype PutItemRequest = PutItemRequest(table: string, item: Item)
  datatype WriteRequest = PutRequest(item: Item) | DeleteRequest(key: Item)
  datatype BatchWriteRequest = BatchWriteRequest(table: string, requests: seq<WriteRequest>)

  /** A call made on the DynamoDB client. */
  datatype Call =
    | ReadCall(kind: OpKind, request: ReadRequest)
    | GetItemCall(get: GetItemRequest)
    | DeleteItemCall(delete: DeleteItemRequest)
    | UpdateItemCall(update: UpdateItemRequest)
    | PutItemCall(put: PutItemRequest)
    | BatchWriteCall(batch: BatchWriteRequest)

  /** The client's answer to one call, as the fields of the SDK result the builder reads
      ({Items, LastEvaluatedKey?, Count?} of a page, Item of a GetItem, the HTTP status code of
      the response metadata), or a failure (the client raising a DynamoDbException). */
  datatype Reply =
    | Answer(items: seq<Item>, lastEvaluatedKey: Option<Cursor>, count: Option<nat>, item: Option<Item>, status: nat)
    | Failure

  /** PHP's empty() on a stored cursor: null and the empty array are both empty. */
  predicate HasCursor(c: Option<Cursor>) {
    c.Some? && |c.value| > 0
  }
}
