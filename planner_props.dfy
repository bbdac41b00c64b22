/** Properties of the access-path planner: what the source's counting test for index keys means,
    which conditions reach the filter, the missing Scan fallback, and the ordering flag. */
module PlannerProps {
  import opened Php
  import opened Dynamo
  import opened Conditions
  import opened Compiler
  import opened Planner

  function KeySet(keys: seq<string>): set<string> {
    set k | k in keys
  }

  // ----- What count(array_intersect(...)) === count($keys) means -----

  lemma UniqueTextsTail(w: seq<Entry>)
    requires w != [] && UniqueTexts(w)
    ensures UniqueTexts(w[1..])
  {
    var t := w[1..];
    forall i, j | 0 <= i < j < |t|
      ensures KeyText(KeyOf(t[i])) != KeyText(KeyOf(t[j]))
    {
      assert t[i] == w[i + 1] && t[j] == w[j + 1];
    }
  }

  /** The where keys are the first key and the keys of the rest, the first not among the rest. */
  lemma TextsCons(w: seq<Entry>)
    requires w != [] && UniqueTexts(w)
    ensures Texts(w) == {KeyText(KeyOf(w[0]))} + Texts(w[1..])
    ensures KeyText(KeyOf(w[0])) !in Texts(w[1..])
  {
    var t := w[1..];
    var x := KeyText(KeyOf(w[0]));
    forall y | y in Texts(w)
      ensures y in {x} + Texts(t)
    {
      var i :| 0 <= i < |w| && KeyText(KeyOf(w[i])) == y;
      if i > 0 {
        assert w[i] == t[i - 1];
      }
    }
    forall y | y in {x} + Texts(t)
      ensures y in Texts(w)
    {
      if y != x {
        var i :| 0 <= i < |t| && KeyText(KeyOf(t[i])) == y;
        assert t[i] == w[i + 1];
      }
    }
  }

  /** Intersecting a set with one more element. */
  lemma ConsCard(x: string, t: set<string>, k: set<string>)
    requires x !in t
    ensures |({x} + t) * k| == (if x in k then 1 else 0) + |t * k|
  {
    var a := if x in k then {x} else {};
    assert ({x} + t) * k == a + t * k;
    assert a * (t * k) == {};
  }

  /** With distinct where keys, the source's count is the number of keys the conditions mention. */
  lemma {:induction false} CountInSet(w: seq<Entry>, keys: seq<string>)
    requires UniqueTexts(w)
    ensures CountIn(w, keys) == |Texts(w) * KeySet(keys)|
    decreases |w|
  {
    if w == [] {
      assert Texts(w) == {};
    } else {
      var t := w[1..];
      UniqueTextsTail(w);
      CountInSet(t, keys);
      TextsCons(w);
      var x := KeyText(KeyOf(w[0]));
      assert CountIn(w, keys) == (if x in keys then 1 else 0) + CountIn(t, keys);
      ConsCard(x, Texts(t), KeySet(keys));
    }
  }

  lemma {:induction false} DistinctCard(keys: seq<string>)
    requires DistinctKeys(keys)
    ensures |KeySet(keys)| == |keys|
    decreases |keys|
  {
    if keys != [] {
      var t := keys[1..];
      assert DistinctKeys(t) by {
        forall i, j | 0 <= i < j < |t|
          ensures t[i] != t[j]
        {
          assert t[i] == keys[i + 1] && t[j] == keys[j + 1];
        }
      }
      DistinctCard(t);
      assert KeySet(keys) == {keys[0]} + KeySet(t) by {
        assert keys == [keys[0]] + t;
      }
      assert keys[0] !in KeySet(t);
    }
  }

  /** A subset of a finite set is that set less what it misses. */
  lemma SubsetCard(a: set<string>, b: set<string>)
    requires a <= b
    ensures |b| == |a| + |b - a|
  {
    assert b == a + (b - a);
    assert a * (b - a) == {};
  }

  /** conditionsContainIndexKey's count test holds exactly when every key attribute is the key
      of some entry of `$where` (keys compared as strings, as PHP does). */
  lemma CoversMeaning(w: seq<Entry>, keys: seq<string>)
    requires UniqueTexts(w) && DistinctKeys(keys)
    ensures Covers(w, keys) <==> forall k :: k in keys ==> exists i :: 0 <= i < |w| && KeyText(KeyOf(w[i])) == k
  {
    CountInSet(w, keys);
    DistinctCard(keys);
    var T := Texts(w);
    var K := KeySet(keys);
    SubsetCard(T * K, K);
    if forall k :: k in keys ==> exists i :: 0 <= i < |w| && KeyText(KeyOf(w[i])) == k {
      assert T * K == K;
    } else {
      var k :| k in keys && !exists i :: 0 <= i < |w| && KeyText(KeyOf(w[i])) == k;
      assert k in K - T * K;
    }
  }

  /** In terms of conditions: when every key attribute has a condition, the test passes; and
      when it passes, every key attribute is the key of some entry. */
  lemma CoversConditions(w: seq<Entry>, keys: seq<string>)
    requires UniqueTexts(w) && DistinctKeys(keys)
    ensures (forall k :: k in keys ==> Lookup(w, Column(k)).Some?) ==> Covers(w, keys)
    ensures Covers(w, keys) ==> forall k :: k in keys ==> k in Texts(w)
  {
    CoversMeaning(w, keys);
    if forall k :: k in keys ==> Lookup(w, Column(k)).Some? {
      forall k | k in keys
        ensures exists i :: 0 <= i < |w| && KeyText(KeyOf(w[i])) == k
      {
        var p := IndexOf(w, Column(k)).value;
        assert KeyText(KeyOf(w[p])) == k;
      }
    }
  }

  // ----- The filter set -----

  /** The index's key attributes leave the filter set, every other key reads as before. */
  lemma FilterScopeSpec(w: seq<Entry>, ix: IndexDef)
    ensures forall k :: k in IndexKeys(ix) ==> Lookup(FilterScope(w, ix), Column(k)) == None
    ensures forall key: Key :: !(key.Column? && key.name in IndexKeys(ix)) ==> Lookup(FilterScope(w, ix), key) == Lookup(w, key)
  {
    var v := Forget(w, Column(ix.hash));
    ForgetSpec(w, Column(ix.hash));
    if ix.range.Some? {
      ForgetSpec(v, Column(ix.range.value));
    }
  }

  /** What addConditionInQuery fills: the operation is Query exactly when an index is chosen,
      which then names IndexName and adds its key conditions; the compiled filter, when
      non-empty, sets FilterExpression and ExpressionAttributeNames, and the collected values
      set ExpressionAttributeValues. */
  lemma PlanSpec(s: Schema, c: Criteria, uniq: Uniq, req: ReadRequest, drawn: nat)
    ensures var p := Plan(s, c, uniq, req, drawn);
            var ix := ContainIndexKey(s, c.where, c.indexName);
            (p.kind == Query <==> ix.Some?) &&
            p.request.indexName == (if ix.Some? then Some(ix.value.name) else req.indexName) &&
            forall a :: a in p.request.keyConditions <==> a in req.keyConditions || (ix.Some? && KeyAdded(c.where, ix.value, a))
    ensures var p := Plan(s, c, uniq, req, drawn);
            c.where != [] ==>
              var (filter, acc) := Write(s.operators, uniq, "", PlanScope(s, c), None, Acc(map[], map[], drawn));
              p.drawn == acc.drawn &&
              p.request.filterExpression == (if Truthy(filter) then Some(filter) else req.filterExpression) &&
              p.request.attributeNames == (if Truthy(filter) then Some(acc.names) else req.attributeNames) &&
              p.request.attributeValues == (if |acc.values| > 0 then Some(acc.values) else req.attributeValues)
  {
  }

  /** No fallback to Scan: a chosen index makes the operation Query even when neither key
      condition is eligible, and then the hash key's condition is neither a key condition nor
      part of the filter set, so it constrains nothing. */
  lemma NoScanFallback(s: Schema, c: Criteria, uniq: Uniq, req: ReadRequest, drawn: nat)
    requires ContainIndexKey(s, c.where, c.indexName).Some?
    requires !CheckValid(c.where, ContainIndexKey(s, c.where, c.indexName).value, false)
    requires !CheckValid(c.where, ContainIndexKey(s, c.where, c.indexName).value, true)
    ensures Plan(s, c, uniq, req, drawn).kind == Query
    ensures Plan(s, c, uniq, req, drawn).request.keyConditions == req.keyConditions
    ensures Lookup(PlanScope(s, c), Column(ContainIndexKey(s, c.where, c.indexName).value.hash)) == None
  {
    var ix := ContainIndexKey(s, c.where, c.indexName).value;
    FilterScopeSpec(c.where, ix);
    var r := WithKeyConditions(c.where, ix, c.orderBy, req);
    assert r.keyConditions == req.keyConditions;
  }

  /** ScanIndexForward is set only on a Query whose range condition was added while an order is
      set, and it is false exactly when the order is "desc" in any letter case. */
  lemma ScanIndexForwardSpec(s: Schema, c: Criteria, uniq: Uniq, req: ReadRequest, drawn: nat)
    ensures var p := Plan(s, c, uniq, req, drawn);
            var ix := ContainIndexKey(s, c.where, c.indexName);
            p.request.scanIndexForward ==
              if ix.Some? && CheckValid(c.where, ix.value, true) && Truthy(c.orderBy)
              then Some(Lower(c.orderBy) != "desc") else req.scanIndexForward
  {
    if c.where != [] {
      var ix := ContainIndexKey(s, c.where, c.indexName);
      var r := if ix.Some? then WithKeyConditions(c.where, ix.value, c.orderBy, req) else req;
      var (filter, acc) := Write(s.operators, uniq, "", PlanScope(s, c), None, Acc(map[], map[], drawn));
      assert WithFilter(r, filter, acc).scanIndexForward == r.scanIndexForward;
    }
  }

  lemma DescendingAnyCase()
    ensures Lower("DESC") == "desc" && Lower("Desc") == "desc" && Lower("ASC") != "desc"
  {
    assert Lower("ASC")[0] == 'a';
  }
}
