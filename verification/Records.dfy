/** Plain JavaScript objects used as records: own enumerable properties in the order in which
    Object.keys and JSON.stringify visit them (array indices first, ascending, then the other
    keys in order of creation). */
module Records {
  import opened Utf16
  import opened Wrappers

  type Props<V> = seq<(Text, V)>

  /** Array indices are the canonical numerals below 2^32 - 1. */
  predicate IsIndex(key: Text) {
    && 0 < |key| <= 10
    && (forall i :: 0 <= i < |key| ==> IsDigit(key[i]))
    && (key[0] == 48 ==> |key| == 1)
    && (|key| == 10 ==> Less(key, Ascii("4294967295")))
  }

  /** Numeric order of canonical numerals: by length, then digit by digit. */
  predicate IndexLess(a: Text, b: Text) {
    |a| < |b| || (|a| == |b| && Less(a, b))
  }

  /** Whether a new property named key is visited before an existing one named other. */
  predicate Precedes(key: Text, other: Text) {
    IsIndex(key) && (IsIndex(other) ==> IndexLess(key, other))
  }

  /** The order invariant of every JavaScript object. */
  ghost predicate Ordered<V>(ps: Props<V>) {
    forall i, j :: 0 <= i < j < |ps| ==>
      ps[i].0 != ps[j].0 && (IsIndex(ps[j].0) ==> Precedes(ps[i].0, ps[j].0))
  }

  /** Whether keys come in the order in which an object visits them. */
  ghost predicate InVisitingOrder(keys: seq<Text>) {
    forall i, j :: 0 <= i < j < |keys| ==> IsIndex(keys[j]) ==> Precedes(keys[i], keys[j])
  }

  function Get<V>(ps: Props<V>, key: Text): Option<V> {
    if |ps| == 0 then None
    else if ps[0].0 == key then Some(ps[0].1)
    else Get(ps[1..], key)
  }

  /** Assignment to a property: replaces in place, or creates in visiting order. */
  function Put<V>(ps: Props<V>, key: Text, value: V): Props<V> {
    if |ps| == 0 then [(key, value)]
    else if ps[0].0 == key then [(key, value)] + ps[1..]
    else if Precedes(key, ps[0].0) then [(key, value)] + ps
    else [ps[0]] + Put(ps[1..], key, value)
  }

  /** Assigning this key sets the prototype instead of creating a property. */
  const PROTO: Text := Ascii("__proto__")

  function Assign<V>(ps: Props<V>, key: Text, value: V): Props<V> {
    if key == PROTO then ps else Put(ps, key, value)
  }

  function Keys<V>(ps: Props<V>): (ks: seq<Text>)
    ensures |ks| == |ps| && forall i :: 0 <= i < |ps| ==> ks[i] == ps[i].0
  {
    seq(|ps|, i requires 0 <= i < |ps| => ps[i].0)
  }

  lemma {:induction false} GetSome<V>(ps: Props<V>, key: Text)
    ensures Get(ps, key).Some? <==> exists i :: 0 <= i < |ps| && ps[i].0 == key
    ensures Get(ps, key).Some? ==> (key, Get(ps, key).value) in ps
  {
    if |ps| > 0 {
      GetSome(ps[1..], key);
      assert ps == [ps[0]] + ps[1..];
      if ps[0].0 != key && exists i :: 0 <= i < |ps| && ps[i].0 == key {
        var i :| 0 <= i < |ps| && ps[i].0 == key;
        assert ps[1..][i - 1].0 == key;
      }
    }
  }

  lemma {:induction false} GetAt<V>(ps: Props<V>, i: nat)
    requires Distinct(Keys(ps)) && i < |ps|
    ensures Get(ps, ps[i].0) == Some(ps[i].1)
  {
    if i > 0 {
      assert Keys(ps)[0] != Keys(ps)[i];
      assert Keys(ps[1..]) == Keys(ps)[1..];
      GetAt(ps[1..], i - 1);
    }
  }

  lemma {:induction false} GetConcat<V>(ps: Props<V>, qs: Props<V>, key: Text)
    ensures Get(ps + qs, key) == if Get(ps, key).Some? then Get(ps, key) else Get(qs, key)
  {
    if |ps| == 0 {
      assert ps + qs == qs;
    } else {
      assert (ps + qs)[1..] == ps[1..] + qs;
      GetConcat(ps[1..], qs, key);
    }
  }

  lemma OrderedDistinct<V>(ps: Props<V>)
    requires Ordered(ps)
    ensures Distinct(Keys(ps))
  {
  }

  lemma OrderedExactly<V>(ps: Props<V>)
    ensures Ordered(ps) <==> Distinct(Keys(ps)) && InVisitingOrder(Keys(ps))
  {
    hide IsIndex, Precedes;
    assert forall i :: 0 <= i < |ps| ==> Keys(ps)[i] == ps[i].0;
  }

  lemma PrecedesTransitive(a: Text, b: Text, c: Text)
    requires Precedes(a, b) && Precedes(b, c)
    ensures Precedes(a, c)
  {
    if IsIndex(c) && |a| == |b| == |c| { LessTransitive(a, b, c); }
  }

  lemma {:induction false} PutGet<V>(ps: Props<V>, key: Text, value: V, other: Text)
    requires Ordered(ps)
    ensures Get(Put(ps, key, value), other) == if other == key then Some(value) else Get(ps, other)
  {
    if |ps| > 0 && ps[0].0 != key && !Precedes(key, ps[0].0) {
      assert Ordered(ps[1..]);
      PutGet(ps[1..], key, value, other);
    }
  }

  lemma KeysCons<V>(p: (Text, V), ps: Props<V>)
    ensures Elements(Keys([p] + ps)) == {p.0} + Elements(Keys(ps))
  {
    assert Keys([p] + ps) == [p.0] + Keys(ps);
  }

  lemma {:induction false} PutKeys<V>(ps: Props<V>, key: Text, value: V)
    ensures Elements(Keys(Put(ps, key, value))) == Elements(Keys(ps)) + {key}
  {
    if |ps| == 0 {
      KeysCons((key, value), []);
    } else {
      assert ps == [ps[0]] + ps[1..];
      KeysCons(ps[0], ps[1..]);
      KeysCons((key, value), ps[1..]);
      KeysCons((key, value), ps);
      PutKeys(ps[1..], key, value);
      KeysCons(ps[0], Put(ps[1..], key, value));
    }
  }

  lemma OrderedCons<V>(p: (Text, V), ps: Props<V>)
    requires Ordered(ps)
    requires forall j :: 0 <= j < |ps| ==> p.0 != ps[j].0 && (IsIndex(ps[j].0) ==> Precedes(p.0, ps[j].0))
    ensures Ordered([p] + ps)
  {
    hide IsIndex, Precedes;
  }

  lemma PrecedesAll<V>(ps: Props<V>, key: Text, j: nat)
    requires Ordered(ps) && j < |ps| && key != ps[0].0 && Precedes(key, ps[0].0)
    ensures key != ps[j].0 && (IsIndex(ps[j].0) ==> Precedes(key, ps[j].0))
  {
    if j > 0 && IsIndex(ps[j].0) { PrecedesTransitive(key, ps[0].0, ps[j].0); }
    LessTotal(key, key);
  }

  lemma OneBefore(a: Text, b: Text)
    requires a != b && IsIndex(a)
    ensures Precedes(a, b) || Precedes(b, a)
  {
    LessTotal(a, b);
  }

  lemma {:induction false} PutOrdered<V>(ps: Props<V>, key: Text, value: V)
    requires Ordered(ps)
    ensures Ordered(Put(ps, key, value))
  {
    hide IsIndex, Precedes;
    if |ps| > 0 {
      var first := ps[0].0;
      if first == key {
        SameKeysOrdered(ps, Put(ps, key, value));
      } else if Precedes(key, first) {
        forall j | 0 <= j < |ps| ensures key != ps[j].0 && (IsIndex(ps[j].0) ==> Precedes(key, ps[j].0)) {
          PrecedesAll(ps, key, j);
        }
        OrderedCons((key, value), ps);
      } else {
        assert Ordered(ps[1..]);
        PutOrdered(ps[1..], key, value);
        PutValues(ps[1..], key, value);
        var rest := Put(ps[1..], key, value);
        if IsIndex(key) { OneBefore(key, first); }
        forall j | 0 <= j < |rest|
          ensures first != rest[j].0 && (IsIndex(rest[j].0) ==> Precedes(first, rest[j].0))
        {
          assert rest[j] in rest;
          if rest[j] in ps[1..] {
            var k :| 0 <= k < |ps[1..]| && ps[1..][k] == rest[j];
            assert ps[k + 1] == rest[j];
          }
        }
        OrderedCons(ps[0], rest);
      }
    }
  }

  /** A property that comes after all present ones in visiting order is added at the end. */
  lemma {:induction false} PutLast<V>(ps: Props<V>, key: Text, value: V)
    requires Ordered(ps + [(key, value)])
    ensures Put(ps, key, value) == ps + [(key, value)]
  {
    if |ps| > 0 {
      var all := ps + [(key, value)];
      assert all[0].0 != all[|ps|].0;
      assert Ordered(ps[1..] + [(key, value)]) by { assert ps[1..] + [(key, value)] == all[1..]; }
      PutLast(ps[1..], key, value);
      LessTotal(key, ps[0].0);
      assert IsIndex(key) ==> Precedes(all[0].0, all[|ps|].0);
      assert !Precedes(key, ps[0].0);
      assert ps == [ps[0]] + ps[1..];
    }
  }

  /** Assigning a sequence of properties one after the other. */
  function PutAll<V>(ps: Props<V>, entries: Props<V>): Props<V>
    decreases |entries|
  {
    if |entries| == 0 then ps
    else PutAll(Put(ps, entries[0].0, entries[0].1), entries[1..])
  }

  lemma {:induction false} PutAllOrdered<V>(ps: Props<V>, entries: Props<V>)
    requires Ordered(ps)
    ensures Ordered(PutAll(ps, entries))
    decreases |entries|
  {
    if |entries| > 0 {
      PutOrdered(ps, entries[0].0, entries[0].1);
      PutAllOrdered(Put(ps, entries[0].0, entries[0].1), entries[1..]);
    }
  }

  lemma {:induction false} PutAllGet<V>(ps: Props<V>, entries: Props<V>, key: Text)
    requires Ordered(ps) && Distinct(Keys(entries))
    ensures Get(PutAll(ps, entries), key) ==
            if Get(entries, key).Some? then Get(entries, key) else Get(ps, key)
    decreases |entries|
  {
    if |entries| > 0 {
      var next := Put(ps, entries[0].0, entries[0].1);
      PutOrdered(ps, entries[0].0, entries[0].1);
      PutGet(ps, entries[0].0, entries[0].1, key);
      assert Keys(entries[1..]) == Keys(entries)[1..];
      PutAllGet(next, entries[1..], key);
      GetSome(entries[1..], key);
      assert forall i :: 0 <= i < |entries[1..]| ==>
        entries[1..][i].0 == Keys(entries)[i + 1] && Keys(entries)[0] != Keys(entries)[i + 1];
    }
  }

  /** Re-creating an object property by property, in visiting order, gives the object back. */
  lemma {:induction false} PutAllSame<V>(ps: Props<V>, entries: Props<V>)
    requires Ordered(ps + entries)
    ensures PutAll(ps, entries) == ps + entries
    decreases |entries|
  {
    if |entries| == 0 {
      assert ps + entries == ps;
    } else {
      var e := entries[0];
      assert ps + entries == (ps + [e]) + entries[1..];
      assert Ordered(ps + [e]) by { assert ps + [e] == (ps + entries)[..|ps| + 1]; }
      PutLast(ps, e.0, e.1);
      assert (e.0, e.1) == e;
      PutAllSame(ps + [e], entries[1..]);
    }
  }

  /** Assignments introduce no values of their own. */
  lemma {:induction false} PutAllValues<V>(ps: Props<V>, entries: Props<V>)
    ensures forall p :: p in PutAll(ps, entries) ==>
              exists q :: (q in ps || q in entries) && q.1 == p.1
    decreases |entries|
  {
    if |entries| == 0 {
      assert forall p :: p in ps ==> (p in ps || p in entries) && p.1 == p.1;
    } else {
      var next := Put(ps, entries[0].0, entries[0].1);
      PutAllValues(next, entries[1..]);
      PutValues(ps, entries[0].0, entries[0].1);
      forall p | p in PutAll(ps, entries)
        ensures exists q :: (q in ps || q in entries) && q.1 == p.1
      {
        var q :| (q in next || q in entries[1..]) && q.1 == p.1;
        if q in next && q !in ps {
          assert entries[0] in entries && entries[0].1 == p.1;
        } else {
          assert q in ps || q in entries;
        }
      }
    }
  }

  lemma {:induction false} PutValues<V>(ps: Props<V>, key: Text, value: V)
    ensures forall p :: p in Put(ps, key, value) ==> p in ps || p == (key, value)
  {
    if |ps| > 0 {
      PutValues(ps[1..], key, value);
      assert ps == [ps[0]] + ps[1..];
    }
  }

  lemma SameKeysOrdered<V>(a: Props<V>, b: Props<V>)
    requires Ordered(a) && |a| == |b| && forall k :: 0 <= k < |a| ==> a[k].0 == b[k].0
    ensures Ordered(b)
  {
    hide IsIndex, Precedes;
  }

  /** Assigning to the key at a position changes only that position. */
  lemma {:induction false} PutInPlace<V>(ps: Props<V>, i: nat, v: V)
    requires i < |ps| && Ordered(ps)
    ensures Put(ps, ps[i].0, v) == ps[i := (ps[i].0, v)]
  {
    if i > 0 {
      assert ps[0].0 != ps[i].0;
      if IsIndex(ps[i].0) { LessTotal(ps[i].0, ps[0].0); }
      PutInPlace(ps[1..], i - 1, v);
      assert ps == [ps[0]] + ps[1..];
    }
  }

  // ----- The order of keys -----

  /** Where a new key goes among the keys of an object. */
  function InsertKey(ks: seq<Text>, key: Text): seq<Text> {
    if |ks| == 0 then [key]
    else if ks[0] == key then ks
    else if Precedes(key, ks[0]) then [key] + ks
    else [ks[0]] + InsertKey(ks[1..], key)
  }

  /** The order in which an object visits keys that were created in the given order. */
  function VisitingOrder(keys: seq<Text>): seq<Text> {
    if |keys| == 0 then [] else InsertKey(VisitingOrder(keys[..|keys| - 1]), keys[|keys| - 1])
  }

  function KeepKeys(ks: seq<Text>, keep: set<Text>): (r: seq<Text>)
    ensures forall k :: k in r <==> k in ks && k in keep
  {
    if |ks| == 0 then []
    else if ks[0] in keep then [ks[0]] + KeepKeys(ks[1..], keep)
    else KeepKeys(ks[1..], keep)
  }

  lemma {:induction false} PutKeyOrder<V>(ps: Props<V>, key: Text, value: V)
    ensures Keys(Put(ps, key, value)) == InsertKey(Keys(ps), key)
  {
    if |ps| > 0 {
      assert Keys(ps)[1..] == Keys(ps[1..]);
      PutKeyOrder(ps[1..], key, value);
      assert Keys(ps) == [ps[0].0] + Keys(ps[1..]);
    }
  }

  lemma InsertKeyOrder(ks: seq<Text>, key: Text)
    requires Distinct(ks) && InVisitingOrder(ks)
    ensures Distinct(InsertKey(ks, key)) && InVisitingOrder(InsertKey(ks, key))
  {
    hide IsIndex, Precedes, Put, InsertKey, Ordered;
    var ps := seq(|ks|, i requires 0 <= i < |ks| => (ks[i], ()));
    assert Keys(ps) == ks;
    OrderedExactly(ps);
    PutOrdered(ps, key, ());
    OrderedExactly(Put(ps, key, ()));
    PutKeyOrder(ps, key, ());
  }

  lemma {:induction false} VisitingOrderOrder(keys: seq<Text>)
    ensures Distinct(VisitingOrder(keys)) && InVisitingOrder(VisitingOrder(keys))
  {
    hide InsertKey, Precedes, IsIndex;
    if |keys| > 0 {
      VisitingOrderOrder(keys[..|keys| - 1]);
      InsertKeyOrder(VisitingOrder(keys[..|keys| - 1]), keys[|keys| - 1]);
    }
  }

  lemma {:induction false} InsertLast(ks: seq<Text>, key: Text)
    requires key !in ks && forall k :: k in ks ==> !Precedes(key, k)
    ensures InsertKey(ks, key) == ks + [key]
  {
    if |ks| > 0 {
      InsertLast(ks[1..], key);
      assert ks == [ks[0]] + ks[1..];
    }
  }

  lemma PrecedesNotBoth(a: Text, b: Text)
    requires Precedes(a, b) && IsIndex(b)
    ensures !Precedes(b, a)
  {
    LessTotal(a, b);
  }

  /** Keys stay in the order of their creation exactly if that is an order in which objects visit
      them. */
  lemma {:induction false} VisitingOrderExactly(keys: seq<Text>)
    requires Distinct(keys)
    ensures VisitingOrder(keys) == keys <==> InVisitingOrder(keys)
  {
    hide InsertKey, Precedes, IsIndex;
    VisitingOrderOrder(keys);
    if InVisitingOrder(keys) && |keys| > 0 {
      var front, last := keys[..|keys| - 1], keys[|keys| - 1];
      VisitingOrderExactly(front);
      forall k | k in front ensures k != last && !Precedes(last, k) {
        var i :| 0 <= i < |front| && front[i] == k;
        assert keys[i] == k && keys[|keys| - 1] == last;
        if IsIndex(last) { PrecedesNotBoth(k, last); } else { IndexFirst(last, k); }
      }
      InsertLast(front, last);
    }
  }

  lemma IndexFirst(a: Text, b: Text)
    ensures Precedes(a, b) ==> IsIndex(a)
  {
  }

  /** Leaving keys out does not change where the others go. */
  lemma {:induction false} KeepInsert(ks: seq<Text>, key: Text, keep: set<Text>)
    requires Distinct(ks) && InVisitingOrder(ks)
    ensures KeepKeys(InsertKey(ks, key), keep) ==
            if key in keep then InsertKey(KeepKeys(ks, keep), key) else KeepKeys(ks, keep)
  {
    hide Precedes, IsIndex;
    if |ks| > 0 && ks[0] != key {
      if Precedes(key, ks[0]) {
        forall k | k in ks ensures k != key && Precedes(key, k) {
          var i :| 0 <= i < |ks| && ks[i] == k;
          BeforeAll(ks, key, i);
        }
        assert ([key] + ks)[1..] == ks;
        if |KeepKeys(ks, keep)| > 0 { assert KeepKeys(ks, keep)[0] in KeepKeys(ks, keep); }
      } else {
        KeepInsert(ks[1..], key, keep);
        var r := InsertKey(ks[1..], key);
        assert ([ks[0]] + r)[1..] == r;
      }
    }
  }

  lemma BeforeAll(ks: seq<Text>, key: Text, i: nat)
    requires InVisitingOrder(ks) && i < |ks| && Precedes(key, ks[0]) && key != ks[0]
    ensures key != ks[i] && Precedes(key, ks[i])
  {
    if i > 0 {
      if IsIndex(ks[i]) { PrecedesTransitive(key, ks[0], ks[i]); }
      if key == ks[i] { PrecedesNotBoth(ks[0], key); }
    }
  }

  lemma {:induction false} KeepVisiting(keys: seq<Text>, keep: set<Text>)
    ensures KeepKeys(VisitingOrder(keys), keep) == VisitingOrder(KeepKeys(keys, keep))
  {
    hide InsertKey, Precedes, IsIndex;
    if |keys| > 0 {
      var front, last := keys[..|keys| - 1], keys[|keys| - 1];
      KeepVisiting(front, keep);
      VisitingOrderOrder(front);
      KeepInsert(VisitingOrder(front), last, keep);
      KeepLast(front, last, keep);
      assert keys == front + [last];
      var kept := KeepKeys(front, keep);
      assert (kept + [last])[..|kept|] == kept && kept + [] == kept;
      assert VisitingOrder(kept + [last]) == InsertKey(VisitingOrder(kept), last);
    }
  }

  lemma {:induction false} KeepLast(ks: seq<Text>, key: Text, keep: set<Text>)
    ensures KeepKeys(ks + [key], keep) == KeepKeys(ks, keep) + if key in keep then [key] else []
  {
    if |ks| > 0 {
      assert (ks + [key])[1..] == ks[1..] + [key];
      KeepLast(ks[1..], key, keep);
    } else {
      assert (ks + [key])[1..] == [];
    }
  }
}
