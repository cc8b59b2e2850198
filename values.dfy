/**
 * JavaScript values as the scripts see them (spreadsheet cells, JSON field
 * values) and JavaScript objects as ordered key/value sequences.
 *
 * Numbers are integers here: every number the scripts handle is a rank, a
 * code or a year. An object keeps its keys in insertion order; assigning to a
 * key it already has replaces the value in place.
 */
module Values {
  import opened Options
  import opened Strings

  datatype Value = Str(s: string) | Num(n: int) | Null | Undefined

  /** JavaScript truthiness: `''`, `0`, `null` and `undefined` are falsy. */
  predicate Truthy(v: Value) {
    match v
    case Str(s) => s != ""
    case Num(n) => n != 0
    case _ => false
  }

  /** `String(v)`, also what `v.toString()` gives on a string or a number. */
  function ToText(v: Value): string {
    match v
    case Str(s) => s
    case Num(n) => IntToString(n)
    case Null => "null"
    case Undefined => "undefined"
  }

  /** `parseInt(v)`: the value is first converted to text. */
  function ParseIntValue(v: Value): Option<int> {
    ParseInt(ToText(v))
  }

  lemma ParseIntNum(n: int)
    ensures ParseIntValue(Num(n)) == Some(n)
  {
    ParseIntToString(n);
  }

  /** The element at `i` of a JavaScript array; past the end it is `undefined`. */
  /** A loaded sheet row: its cell values in column order, holes read as `undefined`. */
  type Row = seq<Value>

  function At(row: seq<Value>, i: nat): (v: Value)
    ensures i < |row| ==> v == row[i]
    ensures i >= |row| ==> v == Undefined
  {
    if i < |row| then row[i] else Undefined
  }

  // ---------------------------------------------------------------- objects

  type Record = seq<(string, Value)>

  /** `Object.keys(r)`. */
  function KeysOf(r: Record): (ks: seq<string>)
    ensures |ks| == |r|
    ensures forall i :: 0 <= i < |r| ==> ks[i] == r[i].0
  {
    if r == [] then [] else [r[0].0] + KeysOf(r[1..])
  }

  /** No key occurs twice, as in every JavaScript object. */
  predicate DistinctKeys(r: Record) {
    forall i, j :: 0 <= i < j < |r| ==> r[i].0 != r[j].0
  }

  /** `r[k]`: the value under `k`, `undefined` when `r` has no such key. */
  function Get(r: Record, k: string): Value {
    if r == [] then Undefined else if r[0].0 == k then r[0].1 else Get(r[1..], k)
  }

  /** A key `r` does not have reads as `undefined`. */
  lemma {:induction false} GetAbsent(r: Record, k: string)
    requires k !in KeysOf(r)
    ensures Get(r, k) == Undefined
  {
    if r != [] {
      assert KeysOf(r) == [r[0].0] + KeysOf(r[1..]);
      GetAbsent(r[1..], k);
    }
  }

  /** `r[k] = v`: replaces the value in place when `k` is a key, appends otherwise. */
  function Put(r: Record, k: string, v: Value): Record {
    if r == [] then [(k, v)]
    else if r[0].0 == k then [(k, v)] + r[1..]
    else [r[0]] + Put(r[1..], k, v)
  }

  /** After `r[k] = v`, `k` holds `v`, every other key reads as before, and a new key goes last. */
  lemma {:induction false} PutSpec(r: Record, k: string, v: Value)
    ensures k in KeysOf(r) ==> KeysOf(Put(r, k, v)) == KeysOf(r)
    ensures k !in KeysOf(r) ==> KeysOf(Put(r, k, v)) == KeysOf(r) + [k]
    ensures Get(Put(r, k, v), k) == v
    ensures forall k' :: k' != k ==> Get(Put(r, k, v), k') == Get(r, k')
  {
    if r != [] && r[0].0 != k {
      PutSpec(r[1..], k, v);
      assert KeysOf(r) == [r[0].0] + KeysOf(r[1..]);
    }
  }

  /** A key of `r` after `r[k] = v` is a key it had before or `k`. */
  lemma PutHasKey(r: Record, k: string, v: Value, x: string)
    ensures x in KeysOf(Put(r, k, v)) <==> x in KeysOf(r) || x == k
  {
    PutSpec(r, k, v);
  }

  /** Reading any key after `r[k] = v`. */
  lemma PutGet(r: Record, k: string, v: Value, x: string)
    ensures Get(Put(r, k, v), x) == if x == k then v else Get(r, x)
  {
    PutSpec(r, k, v);
  }

  /** Store an optional entry: `r[k] = v` for `Some((k, v))`, nothing for `None`. */
  function PutEntry(record: Record, entry: Option<(string, Value)>): Record {
    if entry.Some? then Put(record, entry.value.0, entry.value.1) else record
  }

  /** Reading any key after storing an optional entry. */
  lemma PutEntryGet(record: Record, entry: Option<(string, Value)>, x: string)
    ensures Get(PutEntry(record, entry), x) == if entry.Some? && x == entry.value.0 then entry.value.1 else Get(record, x)
  {
    if entry.Some? {
      PutGet(record, entry.value.0, entry.value.1, x);
    }
  }

  /** The keys after storing an optional entry. */
  lemma PutEntryHasKey(record: Record, entry: Option<(string, Value)>, x: string)
    ensures x in KeysOf(PutEntry(record, entry)) <==> x in KeysOf(record) || (entry.Some? && x == entry.value.0)
  {
    if entry.Some? {
      PutHasKey(record, entry.value.0, entry.value.1, x);
    }
  }

  /** The record built by storing each entry in turn, from an empty one. */
  function PutAll(entries: seq<Option<(string, Value)>>): Record
    decreases |entries|
  {
    if entries == [] then [] else PutEntry(PutAll(entries[..|entries| - 1]), entries[|entries| - 1])
  }

  /** Under an entry's key sits its value, unless a later entry has the same key. */
  lemma {:induction false} PutAllValue(entries: seq<Option<(string, Value)>>, j: nat)
    requires j < |entries| && entries[j].Some?
    requires forall j' :: j < j' < |entries| && entries[j'].Some? ==> entries[j'].value.0 != entries[j].value.0
    ensures Get(PutAll(entries), entries[j].value.0) == entries[j].value.1
  {
    var last := |entries| - 1;
    var init := entries[..last];
    PutEntryGet(PutAll(init), entries[last], entries[j].value.0);
    if j < last {
      assert init[j] == entries[j];
      forall j' | j < j' < |init| && init[j'].Some? ensures init[j'].value.0 != init[j].value.0 {
        assert init[j'] == entries[j'];
      }
      PutAllValue(init, j);
    }
  }

  /** A key of `r` has an entry holding the value `r[k]` reads. */
  lemma {:induction false} GetIndex(r: Record, k: string) returns (i: nat)
    requires k in KeysOf(r)
    ensures i < |r| && r[i] == (k, Get(r, k))
  {
    if r[0].0 == k {
      i := 0;
    } else {
      assert k in KeysOf(r[1..]);
      var i' := GetIndex(r[1..], k);
      i := i' + 1;
    }
  }

  lemma PutKeepsDistinct(r: Record, k: string, v: Value)
    requires DistinctKeys(r)
    ensures DistinctKeys(Put(r, k, v))
  {
    var r' := Put(r, k, v);
    PutSpec(r, k, v);
    forall i, j | 0 <= i < j < |r'| ensures r'[i].0 != r'[j].0 {
      assert KeysOf(r')[i] == r'[i].0 && KeysOf(r')[j] == r'[j].0;
      if k !in KeysOf(r) && j == |r| {
        assert KeysOf(r)[i] == r[i].0;
      }
    }
  }

  /** Building an object from key/value pairs left to right, as a `forEach` over headers does. */
  function FromPairs(ps: seq<(string, Value)>): Record {
    if ps == [] then [] else
    var last := ps[|ps| - 1];
    Put(FromPairs(ps[..|ps| - 1]), last.0, last.1)
  }

  /** One more turn of the loop that builds an object from pairs. */
  lemma FromPairsSnoc(ps: seq<(string, Value)>, i: nat)
    requires i < |ps|
    ensures FromPairs(ps[..i + 1]) == Put(FromPairs(ps[..i]), ps[i].0, ps[i].1)
  {
    assert ps[..i + 1][..i] == ps[..i];
  }

  /** The keys of a `FromPairs` object are distinct and are exactly the keys of the pairs. */
  lemma {:induction false} FromPairsKeys(ps: seq<(string, Value)>)
    ensures DistinctKeys(FromPairs(ps))
    ensures forall k :: k in KeysOf(FromPairs(ps)) <==> k in KeysOf(ps)
  {
    if ps != [] {
      var init := ps[..|ps| - 1];
      var last := ps[|ps| - 1];
      FromPairsKeys(init);
      PutKeepsDistinct(FromPairs(init), last.0, last.1);
      forall k ensures k in KeysOf(FromPairs(ps)) <==> k in KeysOf(ps) {
        PutHasKey(FromPairs(init), last.0, last.1, k);
        KeysOfSnoc(ps, k);
      }
    }
  }

  /** The keys of a non-empty sequence of pairs: those of all but the last, and the last one's. */
  lemma KeysOfSnoc(ps: seq<(string, Value)>, k: string)
    requires ps != []
    ensures k in KeysOf(ps) <==> k in KeysOf(ps[..|ps| - 1]) || k == ps[|ps| - 1].0
  {
    var init := ps[..|ps| - 1];
    var last := [ps[|ps| - 1]];
    assert ps == init + last;
    KeysOfAppend(init, last);
    assert KeysOf(last) == [ps[|ps| - 1].0];
  }




  /** With distinct keys, `FromPairs` keeps every pair, in order. */
  lemma {:induction false} FromPairsDistinct(ps: seq<(string, Value)>)
    requires forall i, j :: 0 <= i < j < |ps| ==> ps[i].0 != ps[j].0
    ensures FromPairs(ps) == ps
  {
    if ps != [] {
      var init := ps[..|ps| - 1];
      var last := ps[|ps| - 1];
      FromPairsDistinct(init);
      PutAppends(init, last.0, last.1);
    }
  }

  lemma {:induction false} PutAppends(r: Record, k: string, v: Value)
    requires forall i :: 0 <= i < |r| ==> r[i].0 != k
    ensures Put(r, k, v) == r + [(k, v)]
  {
    if r != [] {
      PutAppends(r[1..], k, v);
      assert [r[0]] + (r[1..] + [(k, v)]) == r + [(k, v)];
    }
  }

  /** The value `FromPairs` keeps under a key is the one of the last pair with that key. */
  lemma {:induction false} FromPairsLastWins(ps: seq<(string, Value)>, i: nat)
    requires i < |ps|
    requires forall j :: i < j < |ps| ==> ps[j].0 != ps[i].0
    ensures Get(FromPairs(ps), ps[i].0) == ps[i].1
  {
    var last := ps[|ps| - 1];
    PutSpec(FromPairs(ps[..|ps| - 1]), last.0, last.1);
    if i < |ps| - 1 {
      FromPairsLastWins(ps[..|ps| - 1], i);
    }
  }

  /** With distinct keys, the value under the key of entry `i` is that entry's value. */
  lemma {:induction false} GetAt(r: Record, i: nat)
    requires DistinctKeys(r) && i < |r|
    ensures Get(r, r[i].0) == r[i].1
  {
    if i > 0 {
      assert r[0].0 != r[i].0;
      GetAt(r[1..], i - 1);
    }
  }

  /** A property every pair's value has is had by every value of the built object. */
  lemma {:induction false} FromPairsValues(ps: seq<(string, Value)>, P: Value -> bool)
    requires forall i :: 0 <= i < |ps| ==> P(ps[i].1)
    ensures forall k :: k in KeysOf(FromPairs(ps)) ==> P(Get(FromPairs(ps), k))
  {
    if ps != [] {
      var init := ps[..|ps| - 1];
      var last := ps[|ps| - 1];
      FromPairsValues(init, P);
      var r := FromPairs(init);
      PutSpec(r, last.0, last.1);
      forall k | k in KeysOf(Put(r, last.0, last.1)) ensures P(Get(Put(r, last.0, last.1), k)) {
        if k != last.0 {
          assert k in KeysOf(r);
        }
      }
    }
  }

  /** Looking up a key the front part lacks looks in the back part. */
  lemma {:induction false} GetAppend(a: Record, b: Record, k: string)
    requires k !in KeysOf(a)
    ensures Get(a + b, k) == Get(b, k)
  {
    if a != [] {
      assert KeysOf(a)[0] == a[0].0;
      assert KeysOf(a[1..]) == KeysOf(a)[1..];
      assert (a + b)[1..] == a[1..] + b;
      GetAppend(a[1..], b, k);
    } else {
      assert a + b == b;
    }
  }

  /** In an object whose values are all `v`, every key holds `v`. */
  lemma {:induction false} GetUniform(r: Record, k: string, v: Value)
    requires forall i :: 0 <= i < |r| ==> r[i].1 == v
    requires k in KeysOf(r)
    ensures Get(r, k) == v
  {
    if r[0].0 != k {
      assert KeysOf(r[1..]) == KeysOf(r)[1..];
      GetUniform(r[1..], k, v);
    }
  }

  lemma {:induction false} KeysOfAppend(a: Record, b: Record)
    ensures KeysOf(a + b) == KeysOf(a) + KeysOf(b)
  {
    var ks := KeysOf(a + b);
    assert |ks| == |KeysOf(a) + KeysOf(b)|;
    forall i | 0 <= i < |ks| ensures ks[i] == (KeysOf(a) + KeysOf(b))[i] {
      if i < |a| {
        assert (a + b)[i] == a[i];
      } else {
        assert (a + b)[i] == b[i - |a|];
      }
    }
  }

  /** Looking up a key the front part has finds it there. */
  lemma {:induction false} GetFront(a: Record, b: Record, k: string)
    requires k in KeysOf(a)
    ensures Get(a + b, k) == Get(a, k)
  {
    if a[0].0 != k {
      assert KeysOf(a[1..]) == KeysOf(a)[1..];
      assert (a + b)[1..] == a[1..] + b;
      GetFront(a[1..], b, k);
    }
  }

  /** With distinct keys, assigning to the key of entry `i` replaces that entry in place. */
  lemma {:induction false} PutAt(r: Record, i: nat, v: Value)
    requires DistinctKeys(r) && i < |r|
    ensures Put(r, r[i].0, v) == r[i := (r[i].0, v)]
  {
    if i > 0 {
      assert r[0].0 != r[i].0;
      assert DistinctKeys(r[1..]) by {
        forall a, b | 0 <= a < b < |r[1..]| ensures r[1..][a].0 != r[1..][b].0 {
          assert r[1..][a] == r[a + 1] && r[1..][b] == r[b + 1];
        }
      }
      PutAt(r[1..], i - 1, v);
      assert [r[0]] + r[1..][i - 1 := (r[i].0, v)] == r[i := (r[i].0, v)];
    }
  }

  /** A second assignment to the same key overrides the first. */
  lemma {:induction false} PutPut(r: Record, k: string, a: Value, b: Value)
    ensures Put(Put(r, k, a), k, b) == Put(r, k, b)
  {
    if r != [] && r[0].0 != k {
      PutPut(r[1..], k, a, b);
    }
  }

  // ---------------------------------------------------------------- constant tables

  /** The code of the first entry of `table` whose key is `k`. */
  function Lookup(table: seq<(string, string)>, k: string): (r: Option<string>)
    ensures r.Some? ==> exists i :: 0 <= i < |table| && table[i] == (k, r.value)
    ensures r.None? ==> forall i :: 0 <= i < |table| ==> table[i].0 != k
  {
    if table == [] then None
    else if table[0].0 == k then Some(table[0].1)
    else
      var r := Lookup(table[1..], k);
      assert r.Some? ==> table[1..][0..] == table[1..];
      r
  }

  lemma {:induction false} LookupFirst(table: seq<(string, string)>, i: nat)
    requires i < |table|
    requires forall j :: 0 <= j < i ==> table[j].0 != table[i].0
    ensures Lookup(table, table[i].0) == Some(table[i].1)
  {
    if i > 0 {
      LookupFirst(table[1..], i - 1);
    }
  }

  /** Looking up in a concatenation: the first table wins. */
  lemma {:induction false} LookupAppend(a: seq<(string, string)>, b: seq<(string, string)>, k: string)
    ensures Lookup(a + b, k) == if Lookup(a, k).Some? then Lookup(a, k) else Lookup(b, k)
  {
    if a != [] {
      assert (a + b)[1..] == a[1..] + b;
      LookupAppend(a[1..], b, k);
    } else {
      assert a + b == b;
    }
  }

  /** A key no entry has is not found. */
  lemma LookupMiss(table: seq<(string, string)>, k: string)
    requires forall i :: 0 <= i < |table| ==> table[i].0 != k
    ensures Lookup(table, k) == None
  {
  }
}
