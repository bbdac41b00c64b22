/** The requests the builder shapes from its model's attributes: the item key
    (getDynamoDbKey, src/DynamoDbQueryBuilder.php:644-675), and the records of find, delete,
    increment, decrement, save, insert and deleteAll (:147-288, 755-806, 822-865), together with
    what find keeps of the item it reads. */
module Requests {
  import opened Php
  import opened Dynamo
  import opened Conditions
  import opened Compiler

  // ----- getDynamoDbKey -----

  /** getSpecificDynamoDbKey($name, $value). */
  function SpecificKey(s: Schema, name: string, v: Value): Item {
    map[name := s.marshal(v)]
  }

  /** The loop of getDynamoDbKey over composite key attributes, merging one key at a time. */
  function MergeKeys(s: Schema, attrs: Row, keys: seq<string>): (r: Item)
    ensures r.Keys == set k | k in keys
    ensures forall k :: k in keys ==> r[k] == s.marshal(Attribute(attrs, k))
    decreases |keys|
  {
    if keys == [] then map[]
    else
      var last := keys[|keys| - 1];
      var r := MergeKeys(s, attrs, keys[..|keys| - 1]) + SpecificKey(s, last, Attribute(attrs, last));
      assert keys == keys[..|keys| - 1] + [last];
      r
  }

  /** getDynamoDbKey(): every primary key attribute, and only those, with its marshaled value. */
  function DynamoDbKey(s: Schema, attrs: Row): (r: Item)
    ensures r.Keys == set k | k in s.PrimaryKeys()
    ensures forall k :: k in s.PrimaryKeys() ==> r[k] == s.marshal(Attribute(attrs, k))
  {
    if !s.HasCompositeKey() then SpecificKey(s, s.keyName, Attribute(attrs, s.keyName))
    else MergeKeys(s, attrs, s.compositeKey)
  }

  // ----- setId (src/DynamoDbModel.php:256-269) -----

  /** The `$id` argument of find: a scalar key value, or an array of attribute => value. */
  datatype FindId = Scalar(v: Value) | Fields(pairs: seq<(string, Value)>)

  /** The value the last pair naming `k` gives, if any. */
  function LastValue(ps: seq<(string, Value)>, k: string): Option<Value>
    decreases |ps|
  {
    if ps == [] then None
    else if ps[|ps| - 1].0 == k then Some(ps[|ps| - 1].1)
    else LastValue(ps[..|ps| - 1], k)
  }

  /** setAttribute for each pair in turn: the last pair naming an attribute decides its value. */
  function SetFields(attrs: Row, ps: seq<(string, Value)>): (r: Row)
    ensures forall k :: Attribute(r, k) == match LastValue(ps, k) case Some(v) => v case None => Attribute(attrs, k)
    decreases |ps|
  {
    if ps == [] then attrs
    else SetFields(attrs, ps[..|ps| - 1])[ps[|ps| - 1].0 := ps[|ps| - 1].1]
  }

  /** setId($id): a scalar goes under the key name; an array's entries, a list's under their
      positions, are set one by one. */
  function SetId(s: Schema, attrs: Row, id: FindId): Row {
    match id
    case Scalar(VList(items)) => SetFields(attrs, seq(|items|, i requires 0 <= i < |items| => (NatString(i), items[i])))
    case Scalar(v) => attrs[s.keyName := v]
    case Fields(ps) => SetFields(attrs, ps)
  }

  /** find by a scalar id reads the item whose key attribute holds that id. */
  lemma FindScalarKey(s: Schema, attrs: Row, v: Value)
    requires !s.HasCompositeKey() && !v.VList?
    ensures DynamoDbKey(s, SetId(s, attrs, Scalar(v))) == map[s.keyName := s.marshal(v)]
  {
    var r := DynamoDbKey(s, SetId(s, attrs, Scalar(v)));
    assert r.Keys == {s.keyName};
  }

  /** find by an array of attributes reads the item whose key attributes hold the values the
      array gives them last. */
  lemma FindFieldsKey(s: Schema, attrs: Row, ps: seq<(string, Value)>)
    requires forall k :: k in s.PrimaryKeys() ==> LastValue(ps, k).Some?
    ensures var r := DynamoDbKey(s, SetId(s, attrs, Fields(ps)));
            r.Keys == (set k | k in s.PrimaryKeys()) &&
            forall k :: k in s.PrimaryKeys() ==> r[k] == s.marshal(LastValue(ps, k).value)
  {
    var a := SetFields(attrs, ps);
    forall k | k in s.PrimaryKeys()
      ensures Attribute(a, k) == LastValue(ps, k).value
    {
    }
  }

  // ----- find -----

  /** The GetItem request of find: a consistent read of the key, with AttributesToGet when
      columns are given. */
  function FindRequest(s: Schema, attrs: Row, columns: seq<string>): (r: GetItemRequest)
    ensures r.consistentRead && r.table == s.table && r.key == DynamoDbKey(s, attrs)
    ensures r.attributesToGet.Some? <==> columns != []
    ensures r.attributesToGet.Some? ==> r.attributesToGet.value == columns
  {
    GetItemRequest(true, s.table, DynamoDbKey(s, attrs), if columns == [] then None else Some(columns))
  }

  /** What find keeps of the item read: nothing for a missing or empty item or, unless trashed
      rows are wanted, for an item whose deleted_at is set and truthy; otherwise the item
      unmarshaled, cut down to the requested columns when there are any. */
  function FindResult(s: Schema, item: Option<Item>, columns: seq<string>, withTrashed: bool): (r: Option<Row>)
    ensures r.None? <==> item.None? || |item.value| == 0 ||
                         (!withTrashed && DELETED_AT in item.value && Truthful(s.unmarshal(item.value[DELETED_AT])))
    ensures r.Some? ==> forall k :: k in r.value <==> k in item.value && (columns == [] || k in columns)
    ensures r.Some? ==> forall k :: k in r.value ==> r.value[k] == s.unmarshal(item.value[k])
  {
    if item.None? || |item.value| == 0 then None
    else
      var row := UnmarshalItem(s, item.value);
      if !withTrashed && DELETED_AT in row && row[DELETED_AT] != VNull && Truthful(row[DELETED_AT]) then None
      else if columns == [] then Some(row)
      else Some(map k | k in row && k in columns :: row[k])
  }

  // ----- delete, increment, decrement -----

  /** The DeleteItem request of delete: the model's item key. */
  function DeleteByKey(s: Schema, attrs: Row): (r: DeleteItemRequest)
    ensures r.table == s.table && r.key == DynamoDbKey(s, attrs)
  {
    DeleteItemRequest(s.table, DynamoDbKey(s, attrs))
  }

  const AMOUNT_PLACEHOLDER: string := ":num"

  /** increment($column, $amount): an ADD of the amount, written as a decimal numeral, to the
      column of the model's item. */
  function IncrementRequest(s: Schema, attrs: Row, column: string, amount: int): (r: UpdateItemRequest)
    ensures r.table == s.table && r.key == DynamoDbKey(s, attrs) && r.returnValues == "NONE"
    ensures r.updateExpression == "ADD " + column + " " + AMOUNT_PLACEHOLDER
    ensures r.attributeValues.Keys == {AMOUNT_PLACEHOLDER} && r.attributeValues[AMOUNT_PLACEHOLDER].N?
    ensures ParseInt(r.attributeValues[AMOUNT_PLACEHOLDER].n) == amount
  {
    IntStringRoundTrip(amount);
    UpdateItemRequest(s.table, DynamoDbKey(s, attrs), "ADD " + column + " :num", map[":num" := N(IntString(amount))], "NONE")
  }

  /** decrement($column, $amount): the same ADD, of the negated amount. */
  function DecrementRequest(s: Schema, attrs: Row, column: string, amount: int): (r: UpdateItemRequest)
    ensures r.table == s.table && r.key == DynamoDbKey(s, attrs) && r.returnValues == "NONE"
    ensures r.updateExpression == "ADD " + column + " " + AMOUNT_PLACEHOLDER
    ensures r.attributeValues.Keys == {AMOUNT_PLACEHOLDER} && r.attributeValues[AMOUNT_PLACEHOLDER].N?
    ensures ParseInt(r.attributeValues[AMOUNT_PLACEHOLDER].n) == -amount
  {
    IntStringRoundTrip(-amount);
    UpdateItemRequest(s.table, DynamoDbKey(s, attrs), "ADD " + column + " :num", map[":num" := N(IntString(-amount))], "NONE")
  }

  /** Decrementing by n is incrementing by -n. */
  lemma DecrementIsNegatedIncrement(s: Schema, attrs: Row, column: string, amount: int)
    ensures DecrementRequest(s, attrs, column, amount) == IncrementRequest(s, attrs, column, -amount)
  {
  }

  // ----- save -----

  const OLD_UPDATED_AT: string := "old_updated_at"
  const UPDATED_AT: string := "updated_at"
  const CREATED_AT: string := "created_at"
  const ID: string := "id"

  /** The attributes save writes, following the source's order: old_updated_at is removed first,
      so the ignore_update_at branch, which needs it, never applies. */
  function SaveAttributes(attrs: Row, ignoreUpdateAt: bool): (r: Row)
    ensures r == attrs - {OLD_UPDATED_AT}
  {
    var a := attrs - {OLD_UPDATED_AT};
    if ignoreUpdateAt && Attribute(a, UPDATED_AT) != VNull && Attribute(a, OLD_UPDATED_AT) != VNull
    then a[UPDATED_AT := Attribute(a, OLD_UPDATED_AT)]
    else a
  }

  /** The PutItem request of save: whatever the option, every attribute but old_updated_at. */
  function SaveRequest(s: Schema, attrs: Row, ignoreUpdateAt: bool): (r: PutItemRequest)
    ensures r.table == s.table
    ensures r.item.Keys == attrs.Keys - {OLD_UPDATED_AT}
    ensures forall k :: k in r.item ==> r.item[k] == s.marshal(attrs[k])
  {
    PutItemRequest(s.table, MarshalItem(s, SaveAttributes(attrs, ignoreUpdateAt)))
  }

  // ----- insert -----

  /** The created_at / updated_at pair, both the numeral of `now` (time()). */
  function Timestamps(withTimestamp: bool, now: int): Item {
    if withTimestamp then map[CREATED_AT := N(IntString(now)), UPDATED_AT := N(IntString(now))] else map[]
  }

  /** The generated id, drawing uniqid() token `n`. */
  function IdField(withId: bool, uniq: Uniq, n: nat): Item {
    if withId then map[ID := S(uniq(n))] else map[]
  }

  /** array_merge($id, marshalItem($attributes), $timestamp): later arrays win, so attributes
      override the generated id and the timestamps override attributes. */
  function InsertItem(s: Schema, attrs: Row, id: Item, ts: Item): Item {
    id + MarshalItem(s, attrs) + ts
  }

  /** The item holds exactly the keys of the three arrays; a timestamp field beats an attribute
      of the same name, and an attribute beats the generated id. */
  lemma InsertItemSpec(s: Schema, attrs: Row, id: Item, ts: Item)
    ensures var r := InsertItem(s, attrs, id, ts);
            r.Keys == id.Keys + attrs.Keys + ts.Keys &&
            (forall k :: k in ts ==> r[k] == ts[k]) &&
            (forall k :: k in attrs && k !in ts ==> r[k] == s.marshal(attrs[k])) &&
            (forall k :: k in id && k !in attrs && k !in ts ==> r[k] == id[k])
  {
  }

  /** The model's attributes after fill($v) for each of `vs` in turn. */
  function FillAll(attrs: Row, vs: seq<Row>): Row
    decreases |vs|
  {
    if vs == [] then attrs else FillAll(attrs, vs[..|vs| - 1]) + vs[|vs| - 1]
  }

  /** The uniqid() token the i-th inserted item draws: one per item with generated ids. */
  function IdToken(withId: bool, drawn: nat, i: nat): nat {
    if withId then drawn + i else drawn
  }

  /** The PutRequests insert sends in its single batch: item i carries everything filled in by
      the first i + 1 values. */
  function InsertRequests(s: Schema, attrs: Row, vs: seq<Row>, withId: bool, ts: Item, uniq: Uniq, drawn: nat): (r: seq<WriteRequest>)
    ensures |r| == |vs|
  {
    seq(|vs|, i requires 0 <= i < |vs| =>
      PutRequest(InsertItem(s, FillAll(attrs, vs[..i + 1]), IdField(withId, uniq, IdToken(withId, drawn, i)), ts)))
  }

  /** Inserting one more value adds one item at the end, built from the model filled once more. */
  lemma InsertRequestsSnoc(s: Schema, attrs: Row, vs: seq<Row>, i: nat, withId: bool, ts: Item, uniq: Uniq, drawn: nat)
    requires i < |vs|
    ensures FillAll(attrs, vs[..i + 1]) == FillAll(attrs, vs[..i]) + vs[i]
    ensures InsertRequests(s, attrs, vs[..i + 1], withId, ts, uniq, drawn) ==
            InsertRequests(s, attrs, vs[..i], withId, ts, uniq, drawn) +
            [PutRequest(InsertItem(s, FillAll(attrs, vs[..i]) + vs[i], IdField(withId, uniq, IdToken(withId, drawn, i)), ts))]
  {
    var a := InsertRequests(s, attrs, vs[..i + 1], withId, ts, uniq, drawn);
    var b := InsertRequests(s, attrs, vs[..i], withId, ts, uniq, drawn);
    forall j | 0 <= j < i
      ensures a[j] == b[j]
    {
      assert vs[..i + 1][..j + 1] == vs[..i][..j + 1];
    }
    assert vs[..i + 1][..i + 1] == vs[..i + 1];
    assert vs[..i + 1][..i] == vs[..i];
    assert FillAll(attrs, vs[..i + 1]) == FillAll(attrs, vs[..i]) + vs[i];
    var last := PutRequest(InsertItem(s, FillAll(attrs, vs[..i]) + vs[i], IdField(withId, uniq, IdToken(withId, drawn, i)), ts));
    assert a[i] == last;
    assert a == b + [last];
  }

  /** One model is filled over and over: an attribute given for one row and not for the next is
      written into the next row's item too. */
  lemma InsertCarriesOver(s: Schema, attrs: Row, vs: seq<Row>, withId: bool, ts: Item, uniq: Uniq, drawn: nat, i: nat, k: string)
    requires i + 1 < |vs| && k in vs[i] && k !in vs[i + 1] && k !in ts
    ensures var item := InsertRequests(s, attrs, vs, withId, ts, uniq, drawn)[i + 1].item;
            k in item && item[k] == s.marshal(vs[i][k])
  {
    assert vs[..i + 2][..i + 1] == vs[..i + 1];
    assert vs[..i + 1][..i] == vs[..i];
    var before := FillAll(attrs, vs[..i + 1]);
    var after := FillAll(attrs, vs[..i + 2]);
    assert before == FillAll(attrs, vs[..i]) + vs[i];
    assert after == before + vs[i + 1];
    assert k in after && after[k] == vs[i][k];
  }

  // ----- deleteAll -----

  const BATCH_SIZE: nat := 25

  /** pluck('id'): each row's id, in row order. */
  function PluckIds(rows: seq<Row>): (r: seq<Value>)
    ensures |r| == |rows| && forall i :: 0 <= i < |rows| ==> r[i] == Attribute(rows[i], ID)
  {
    seq(|rows|, i requires 0 <= i < |rows| => Attribute(rows[i], ID))
  }

  /** Position of the pair keyed `k`. */
  function PairIndex(ps: seq<(Value, Value)>, k: Value): (r: Option<nat>)
    ensures r.Some? ==> r.value < |ps| && ps[r.value].0 == k && forall j :: 0 <= j < r.value ==> ps[j].0 != k
    ensures r.None? ==> forall j :: 0 <= j < |ps| ==> ps[j].0 != k
    decreases |ps|
  {
    if ps == [] then None
    else if ps[0].0 == k then Some(0)
    else match PairIndex(ps[1..], k)
      case None => None
      case Some(p) => Some(p + 1)
  }

  predicate UniquePairKeys(ps: seq<(Value, Value)>) {
    forall i, j :: 0 <= i < j < |ps| ==> ps[i].0 != ps[j].0
  }

  /** `$array[$k]` on an array of pairs, null when absent. */
  function PairValue(ps: seq<(Value, Value)>, k: Value): Option<Value> {
    match PairIndex(ps, k)
    case Some(p) => Some(ps[p].1)
    case None => None
  }

  /** `$array[$k] = $v`: an existing key keeps its position, a new one is appended. */
  function PutPair(ps: seq<(Value, Value)>, k: Value, v: Value): seq<(Value, Value)> {
    match PairIndex(ps, k)
    case Some(p) => ps[p := (k, v)]
    case None => ps + [(k, v)]
  }

  lemma PutPairSpec(ps: seq<(Value, Value)>, k: Value, v: Value)
    ensures forall x :: PairValue(PutPair(ps, k, v), x) == if x == k then Some(v) else PairValue(ps, x)
    ensures UniquePairKeys(ps) ==> UniquePairKeys(PutPair(ps, k, v))
    ensures |PutPair(ps, k, v)| == |ps| + (if PairIndex(ps, k).Some? then 0 else 1)
  {
    var r := PutPair(ps, k, v);
    var p := if PairIndex(ps, k).Some? then PairIndex(ps, k).value else |ps|;
    assert r[p] == (k, v) && forall j :: 0 <= j < |r| && j != p ==> r[j] == ps[j];
    forall x
      ensures PairValue(r, x) == if x == k then Some(v) else PairValue(ps, x)
    {
      if x == k {
        assert PairIndex(r, x) == Some(p) by { PairIndexFirst(r, x, p); }
      } else {
        match PairIndex(ps, x)
        case Some(q) => PairIndexFirst(r, x, q);
        case None =>
      }
    }
  }

  /** The first position holding key `k` is the one PairIndex finds. */
  lemma {:induction false} PairIndexFirst(ps: seq<(Value, Value)>, k: Value, p: nat)
    requires p < |ps| && ps[p].0 == k && forall j :: 0 <= j < p ==> ps[j].0 != k
    ensures PairIndex(ps, k) == Some(p)
    decreases p
  {
    if p > 0 {
      PairIndexFirst(ps[1..], k, p - 1);
    }
  }

  const PHP_INT_MIN: int := -0x8000_0000_0000_0000
  const PHP_INT_MAX: int := 0x7FFF_FFFF_FFFF_FFFF

  /** A string PHP reads as an integer array key: the canonical decimal numeral of a 64-bit
      integer (no sign but a leading minus, no leading zero, no "-0"). */
  predicate IntegerKey(t: string) {
    IntString(ParseInt(t)) == t && PHP_INT_MIN <= ParseInt(t) <= PHP_INT_MAX
  }

  /** The key PHP stores when a value is used as an array key: null becomes "", a boolean 0 or 1,
      an integer numeral the integer; other strings and integers stay as they are. */
  function ArrayKey(v: Value): Value {
    match v
    case VNull => VStr("")
    case VBool(b) => VInt(if b then 1 else 0)
    case VStr(t) => if IntegerKey(t) then VInt(ParseInt(t)) else v
    case _ => v
  }

  /** Storing a key twice coerces it once. */
  lemma ArrayKeyIdempotent(v: Value)
    ensures ArrayKey(ArrayKey(v)) == ArrayKey(v)
  {
  }

  /** The numeral of a 64-bit integer is stored as that integer, so it meets the integer itself. */
  lemma NumeralKey(n: int)
    requires PHP_INT_MIN <= n <= PHP_INT_MAX
    ensures ArrayKey(VStr(IntString(n))) == VInt(n) == ArrayKey(VInt(n))
  {
    IntStringRoundTrip(n);
  }

  /** pluck($hash, $range): the array range value => hash value, built row by row, each range
      value stored as the array key PHP makes of it. */
  function PluckKeyed(rows: seq<Row>, hash: string, range: string): seq<(Value, Value)>
    decreases |rows|
  {
    if rows == [] then []
    else
      var row := rows[|rows| - 1];
      PutPair(PluckKeyed(rows[..|rows| - 1], hash, range), ArrayKey(Attribute(row, range)), Attribute(row, hash))
  }

  /** The last row whose range value is stored under key `x`. */
  function LastWith(rows: seq<Row>, range: string, x: Value): (r: Option<nat>)
    ensures r.Some? ==> r.value < |rows| && ArrayKey(Attribute(rows[r.value], range)) == x &&
                        forall i :: r.value < i < |rows| ==> ArrayKey(Attribute(rows[i], range)) != x
    ensures r.None? ==> forall i :: 0 <= i < |rows| ==> ArrayKey(Attribute(rows[i], range)) != x
    decreases |rows|
  {
    if rows == [] then None
    else if ArrayKey(Attribute(rows[|rows| - 1], range)) == x then Some(|rows| - 1)
    else
      var r := LastWith(rows[..|rows| - 1], range, x);
      assert forall i :: 0 <= i < |rows| - 1 ==> rows[..|rows| - 1][i] == rows[i];
      r
  }

  /** Plucking keyed by the range attribute: every array key is there once, and holds the hash
      value of the last row whose range value becomes that key; rows whose range values become
      the same key collapse. */
  lemma {:induction false} PluckKeyedSpec(rows: seq<Row>, hash: string, range: string)
    ensures UniquePairKeys(PluckKeyed(rows, hash, range))
    ensures |PluckKeyed(rows, hash, range)| <= |rows|
    ensures forall x :: PairValue(PluckKeyed(rows, hash, range), x) ==
              match LastWith(rows, range, x) case Some(i) => Some(Attribute(rows[i], hash)) case None => None
    decreases |rows|
  {
    if rows != [] {
      var init := rows[..|rows| - 1];
      var row := rows[|rows| - 1];
      PluckKeyedSpec(init, hash, range);
      PutPairSpec(PluckKeyed(init, hash, range), ArrayKey(Attribute(row, range)), Attribute(row, hash));
      forall x
        ensures PairValue(PluckKeyed(rows, hash, range), x) ==
                match LastWith(rows, range, x) case Some(i) => Some(Attribute(rows[i], hash)) case None => None
      {
        if ArrayKey(Attribute(row, range)) != x {
          assert LastWith(rows, range, x) == LastWith(init, range, x);
          match LastWith(init, range, x)
          case Some(i) => assert rows[i] == init[i];
          case None =>
        }
      }
    }
  }

  /** Two rows whose range values become the same array key give one key to delete. */
  lemma PluckKeyedCollapses(a: Row, b: Row, hash: string, range: string)
    requires ArrayKey(Attribute(a, range)) == ArrayKey(Attribute(b, range))
    ensures PluckKeyed([a, b], hash, range) == [(ArrayKey(Attribute(a, range)), Attribute(b, hash))]
  {
    assert [a, b][..1] == [a];
    assert [a][..0] == [];
    assert PluckKeyed([a], hash, range) == [(ArrayKey(Attribute(a, range)), Attribute(a, hash))];
  }

  /** A range value "7" and a range value 7 give one key, the integer 7, so the key deleted
      is marshaled from an integer. */
  lemma PluckNumeralCollapses(a: Row, b: Row, hash: string, range: string)
    requires Attribute(a, range) == VStr("7") && Attribute(b, range) == VInt(7)
    ensures PluckKeyed([a, b], hash, range) == [(VInt(7), Attribute(b, hash))]
  {
    NumeralKey(7);
    assert IntString(7) == "7";
    PluckKeyedCollapses(a, b, hash, range);
  }

  /** The key arrays a hard deleteAll deletes, before marshaling: [range => rk, hash => hk] for
      each plucked pair with a composite key, else ['id' => id] for each row. */
  function DeleteKeyRows(s: Schema, rows: seq<Row>): seq<Row>
    requires s.Valid()
  {
    if s.HasCompositeKey() then
      var ps := PluckKeyed(rows, s.compositeKey[0], s.compositeKey[1]);
      seq(|ps|, j requires 0 <= j < |ps| => map[s.compositeKey[1] := ps[j].0, s.compositeKey[0] := ps[j].1])
    else
      var ids := PluckIds(rows);
      seq(|ids|, j requires 0 <= j < |ids| => map[ID := ids[j]])
  }

  /** One batch: a DeleteRequest per key array of the chunk, marshaled. */
  function DeleteBatch(s: Schema, chunk: seq<Row>): (b: BatchWriteRequest)
    ensures b.table == s.table && |b.requests| == |chunk|
    ensures forall j :: 0 <= j < |chunk| ==> b.requests[j] == DeleteRequest(MarshalItem(s, chunk[j]))
  {
    BatchWriteRequest(s.table, seq(|chunk|, j requires 0 <= j < |chunk| => DeleteRequest(MarshalItem(s, chunk[j]))))
  }

  /** One batch per chunk of BATCH_SIZE key arrays, in order. */
  function ChunkBatches(s: Schema, keys: seq<Row>): seq<BatchWriteRequest> {
    var chunks := ArrayChunk(keys, BATCH_SIZE);
    seq(|chunks|, c requires 0 <= c < |chunks| => DeleteBatch(s, chunks[c]))
  }

  /** The batchWriteItem requests of a hard deleteAll: none without matched rows, else one per
      chunk of BATCH_SIZE keys. */
  function DeleteBatches(s: Schema, rows: seq<Row>): seq<BatchWriteRequest>
    requires s.Valid()
  {
    if |rows| == 0 then [] else ChunkBatches(s, DeleteKeyRows(s, rows))
  }

  /** Chunked batches go against the model's table, ceil(n / 25) of them, each of 25 keys but
      the last, which holds the rest. */
  lemma ChunkBatchesSpec(s: Schema, keys: seq<Row>)
    ensures var bs := ChunkBatches(s, keys);
            |bs| == CeilDiv(|keys|, BATCH_SIZE) &&
            (forall c :: 0 <= c < |bs| ==> bs[c].table == s.table && 0 < |bs[c].requests| <= BATCH_SIZE) &&
            (forall c :: 0 <= c < |bs| - 1 ==> |bs[c].requests| == BATCH_SIZE)
  {
    var chunks := ArrayChunk(keys, BATCH_SIZE);
    var bs := ChunkBatches(s, keys);
    assert |bs| == |chunks|;
    ArrayChunkCount(keys, BATCH_SIZE);
    forall c | 0 <= c < |bs|
      ensures bs[c].table == s.table && 0 < |bs[c].requests| <= BATCH_SIZE
      ensures c < |bs| - 1 ==> |bs[c].requests| == BATCH_SIZE
    {
      assert bs[c] == DeleteBatch(s, chunks[c]);
      ArrayChunkSizes(keys, BATCH_SIZE, c);
    }
  }

  /** Request `j` of batch `c` deletes key `c * 25 + j`: the keys go out in order. */
  lemma ChunkBatchesAt(s: Schema, keys: seq<Row>, c: nat, j: nat)
    requires c < |ChunkBatches(s, keys)| && j < |ChunkBatches(s, keys)[c].requests|
    ensures c * BATCH_SIZE + j < |keys|
    ensures ChunkBatches(s, keys)[c].requests[j] == DeleteRequest(MarshalItem(s, keys[c * BATCH_SIZE + j]))
  {
    var chunks := ArrayChunk(keys, BATCH_SIZE);
    assert ChunkBatches(s, keys)[c] == DeleteBatch(s, chunks[c]);
    ArrayChunkIndex(keys, BATCH_SIZE, c, j);
  }

  /** Without a composite key, the i-th key is the i-th row's 'id', whatever the model's key name. */
  lemma DeleteKeysById(s: Schema, rows: seq<Row>)
    requires s.Valid() && !s.HasCompositeKey()
    ensures |DeleteKeyRows(s, rows)| == |rows|
    ensures forall i :: 0 <= i < |rows| ==> DeleteKeyRows(s, rows)[i] == map[ID := Attribute(rows[i], ID)]
  {
  }

  /** 57 matched rows without a composite key are deleted in batches of 25, 25 and 7. */
  lemma DeleteFiftySeven(s: Schema, rows: seq<Row>)
    requires s.Valid() && !s.HasCompositeKey() && |rows| == 57
    ensures var bs := DeleteBatches(s, rows);
            |bs| == 3 && |bs[0].requests| == 25 && |bs[1].requests| == 25 && |bs[2].requests| == 7
  {
    DeleteKeysById(s, rows);
    var keys := DeleteKeyRows(s, rows);
    assert |keys| == 57;
    ChunkBatchesSpec(s, keys);
    var chunks := ArrayChunk(keys, BATCH_SIZE);
    assert chunks == [keys[..25]] + ArrayChunk(keys[25..], 25);
    assert ArrayChunk(keys[25..], 25) == [keys[25..][..25]] + ArrayChunk(keys[25..][25..], 25);
    assert ArrayChunk(keys[25..][25..], 25) == [keys[25..][25..]];
  }
}
