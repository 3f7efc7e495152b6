/** A plain JavaScript object (`{}`) used as a dictionary from string keys to
    numbers, and the order in which `Object.entries` lists its properties. */
module JsObject {
  import opened Options
  import opened Seqs
  import opened JsArray

  predicate IsDigit(c: char) {
    '0' <= c <= '9'
  }

  /** The number a string of decimal digits denotes (most significant first). */
  function DecimalValue(s: string): int
    decreases |s|
  {
    if s == [] then 0
    else 10 * DecimalValue(s[..|s| - 1]) + (s[|s| - 1] as int - '0' as int)
  }

  /** An array index in the sense of section 6.1.7 of ECMA-262: the canonical
      decimal form (no sign, no leading zero) of an integer from 0 to 2^32 - 2. */
  predicate IsArrayIndex(k: string) {
    && |k| > 0
    && (forall i :: 0 <= i < |k| ==> IsDigit(k[i]))
    && (k[0] != '0' || |k| == 1)
    && DecimalValue(k) < 0xFFFF_FFFF
  }

  /** Every other string key: a named property. */
  predicate IsNamedKey(k: string) {
    !IsArrayIndex(k)
  }

  /** `s` ascends by `key`. */
  ghost predicate AscendingBy<T>(s: seq<T>, key: T -> int) {
    forall i, j :: 0 <= i < j < |s| ==> key(s[i]) <= key(s[j])
  }

  /** Inserts `x` before the first element of `s` with a larger or equal key. */
  function InsertBy<T>(x: T, s: seq<T>, key: T -> int): seq<T> {
    if s == [] then [x]
    else if key(x) <= key(s[0]) then [x] + s
    else [s[0]] + InsertBy(x, s[1..], key)
  }

  /** Inserting adds `x` and loses nothing. */
  lemma {:induction false} InsertByPermutes<T>(x: T, s: seq<T>, key: T -> int)
    ensures multiset(InsertBy(x, s, key)) == multiset(s) + multiset{x}
  {
    if s != [] && key(s[0]) < key(x) {
      InsertByPermutes(x, s[1..], key);
      assert s == [s[0]] + s[1..];
    }
  }

  /** Inserting into an ascending sequence keeps it ascending. */
  lemma {:induction false} InsertBySorted<T>(x: T, s: seq<T>, key: T -> int)
    requires AscendingBy(s, key)
    ensures AscendingBy(InsertBy(x, s, key), key)
  {
    if s != [] && key(s[0]) < key(x) {
      var tail := s[1..];
      assert forall i :: 0 <= i < |tail| ==> tail[i] == s[i + 1];
      InsertBySorted(x, tail, key);
      InsertByPermutes(x, tail, key);
      var rest := InsertBy(x, tail, key);
      forall i | 0 <= i < |rest| ensures key(s[0]) <= key(rest[i]) {
        assert rest[i] in multiset(tail) + multiset{x};
      }
    }
  }

  /** `s` rearranged in ascending order of `key`. */
  function SortBy<T>(s: seq<T>, key: T -> int): (r: seq<T>)
    ensures multiset(r) == multiset(s)
    ensures AscendingBy(r, key)
  {
    if s == [] then []
    else
      var sorted := SortBy(s[1..], key);
      InsertByPermutes(s[0], sorted, key);
      InsertBySorted(s[0], sorted, key);
      assert s == [s[0]] + s[1..];
      InsertBy(s[0], sorted, key)
  }

  /** What `m` holds for `k`, a missing key counting as zero. */
  function ValueOf<K>(m: map<K, nat>, k: K): nat {
    if k in m then m[k] else 0
  }

  /** The sum of the values `m` holds for the listed keys. */
  function SumOver<K>(ks: seq<K>, m: map<K, nat>): nat {
    if ks == [] then 0 else ValueOf(m, ks[0]) + SumOver(ks[1..], m)
  }

  /** The (key, value) pairs of `ks`, in the order of `ks`. */
  function Pairs<K>(ks: seq<K>, m: map<K, nat>): (es: seq<(K, nat)>)
    requires forall i :: 0 <= i < |ks| ==> ks[i] in m
    ensures |es| == |ks|
    ensures forall i :: 0 <= i < |es| ==> es[i].0 == ks[i] && es[i].1 == m[ks[i]]
  {
    if ks == [] then [] else [(ks[0], m[ks[0]])] + Pairs(ks[1..], m)
  }

  /** The sum of the second components. */
  function ValueSum<K>(es: seq<(K, nat)>): nat {
    if es == [] then 0 else es[0].1 + ValueSum(es[1..])
  }

  /** A plain object holding numbers: the values of its own properties and
      its keys in the order the properties were created. */
  datatype Dict = Dict(values: map<string, nat>, created: seq<string>) {

    /** Each key was created once, and the created keys are the stored ones. */
    ghost predicate Valid() {
      && Distinct(created)
      && (forall k :: k in values <==> k in created)
    }

    /** `o[k]`: the stored value, or `undefined` (None). */
    function Get(k: string): Option<nat> {
      if k in values then Some(values[k]) else None
    }

    /** `o[k] = v`: the value of `k` becomes `v` and no other value changes; a
        new key is created after all existing ones, an existing key keeps its
        place. */
    function Put(k: string, v: nat): (d: Dict)
      requires Valid()
      ensures d.Valid()
      ensures d.Get(k) == Some(v)
      ensures forall j :: j != k ==> d.Get(j) == Get(j)
      ensures d.created == if k in values then created else created + [k]
    {
      if k in values then Dict(values[k := v], created)
      else
        assert forall i :: 0 <= i < |created| ==> created[i] != k;
        Dict(values[k := v], created + [k])
    }

    /** The sum of all stored values. */
    function Total(): nat
      requires Valid()
    {
      SumOver(created, values)
    }

    /** The keys in the order of section 10.1.11.1 of ECMA-262
        (OrdinaryOwnPropertyKeys): array indices in ascending numeric order,
        then the other keys in the order they were created. */
    function OwnKeys(): (ks: seq<string>)
      requires Valid()
      ensures multiset(ks) == multiset(created)
      ensures |ks| == |created|
      ensures Distinct(ks)
    {
      var ks := SortBy(Filter(created, IsArrayIndex), DecimalValue) + Filter(created, IsNamedKey);
      FilterComplement(created, IsArrayIndex, IsNamedKey);
      DistinctPermutation(created, ks);
      assert |ks| == |multiset(ks)|;
      ks
    }

    /** Every key of a rearrangement of the created keys has a value. */
    lemma KeysStored(ks: seq<string>)
      requires Valid() && multiset(ks) == multiset(created)
      ensures forall i :: 0 <= i < |ks| ==> ks[i] in values
    {
      forall i | 0 <= i < |ks| ensures ks[i] in values {
        assert ks[i] in multiset(created);
      }
    }

    /** `Object.entries(o)`: each own key with its value, in OwnKeys order. */
    function Entries(): (es: seq<(string, nat)>)
      requires Valid()
      ensures |es| == |created|
      ensures forall i :: 0 <= i < |es| ==> es[i].0 == OwnKeys()[i] && es[i].0 in values
      ensures forall i :: 0 <= i < |es| ==> es[i].1 == values[es[i].0]
    {
      var ks := OwnKeys();
      KeysStored(ks);
      Pairs(ks, values)
    }
  }

  /** The empty object `{}`. */
  function Empty(): (d: Dict)
    ensures d.Valid()
    ensures forall k :: d.Get(k) == None
    ensures d.created == []
  {
    Dict(map[], [])
  }

  lemma {:induction false} SumOverConcat<K>(a: seq<K>, b: seq<K>, m: map<K, nat>)
    ensures SumOver(a + b, m) == SumOver(a, m) + SumOver(b, m)
  {
    if a == [] {
      assert a + b == b;
    } else {
      assert (a + b)[1..] == a[1..] + b;
      SumOverConcat(a[1..], b, m);
    }
  }

  /** Changing the value of a key not listed leaves the sum alone. */
  lemma {:induction false} SumOverUnlisted<K>(ks: seq<K>, m: map<K, nat>, k: K, v: nat)
    requires k !in ks
    ensures SumOver(ks, m[k := v]) == SumOver(ks, m)
  {
    if ks != [] {
      assert k !in ks[1..];
      SumOverUnlisted(ks[1..], m, k, v);
    }
  }

  /** Changing the value of a key listed once changes the sum by the difference. */
  lemma {:induction false} SumOverUpdate<K>(ks: seq<K>, m: map<K, nat>, k: K, v: nat)
    requires Distinct(ks) && k in ks
    ensures SumOver(ks, m[k := v]) + ValueOf(m, k) == SumOver(ks, m) + v
  {
    if ks[0] == k {
      assert k !in ks[1..];
      SumOverUnlisted(ks[1..], m, k, v);
    } else {
      assert forall i, j :: 0 <= i < j < |ks[1..]| ==> ks[1..][i] == ks[i + 1] && ks[1..][j] == ks[j + 1];
      SumOverUpdate(ks[1..], m, k, v);
    }
  }

  /** Splitting the keys by a predicate splits the sum. */
  lemma {:induction false} SumOverFilter<K>(ks: seq<K>, p: K -> bool, q: K -> bool, m: map<K, nat>)
    requires forall k :: q(k) == !p(k)
    ensures SumOver(Filter(ks, p), m) + SumOver(Filter(ks, q), m) == SumOver(ks, m)
    decreases |ks|
  {
    if ks != [] {
      var init, last := ks[..|ks| - 1], ks[|ks| - 1];
      assert ks == init + [last];
      SumOverFilter(init, p, q, m);
      SumOverConcat(init, [last], m);
      SumOverConcat(Filter(init, p), if p(last) then [last] else [], m);
      SumOverConcat(Filter(init, q), if q(last) then [last] else [], m);
    }
  }

  /** Inserting a key adds its value to the sum. */
  lemma {:induction false} SumOverInsert<K>(x: K, s: seq<K>, key: K -> int, m: map<K, nat>)
    ensures SumOver(InsertBy(x, s, key), m) == ValueOf(m, x) + SumOver(s, m)
  {
    if s != [] && key(s[0]) < key(x) {
      SumOverInsert(x, s[1..], key, m);
      assert ([s[0]] + InsertBy(x, s[1..], key))[1..] == InsertBy(x, s[1..], key);
    }
  }

  /** Sorting the keys keeps the sum. */
  lemma {:induction false} SumOverSort<K>(s: seq<K>, key: K -> int, m: map<K, nat>)
    ensures SumOver(SortBy(s, key), m) == SumOver(s, m)
  {
    if s != [] {
      SumOverSort(s[1..], key, m);
      SumOverInsert(s[0], SortBy(s[1..], key), key, m);
    }
  }

  lemma {:induction false} ValueSumPairs<K>(ks: seq<K>, m: map<K, nat>)
    requires forall i :: 0 <= i < |ks| ==> ks[i] in m
    ensures ValueSum(Pairs(ks, m)) == SumOver(ks, m)
  {
    if ks != [] {
      ValueSumPairs(ks[1..], m);
    }
  }

  /** Storing `v` under `k` changes the total by `v` minus the value it replaces. */
  lemma PutTotal(d: Dict, k: string, v: nat)
    requires d.Valid()
    ensures d.Put(k, v).Total() + d.Get(k).GetOr(0) == d.Total() + v
  {
    if k in d.values {
      SumOverUpdate(d.created, d.values, k, v);
    } else {
      SumOverConcat(d.created, [k], d.values[k := v]);
      SumOverUnlisted(d.created, d.values, k, v);
    }
  }

  /** The values listed by `Object.entries` add up to the total. */
  lemma EntriesTotal(d: Dict)
    requires d.Valid()
    ensures ValueSum(d.Entries()) == d.Total()
  {
    var indices := Filter(d.created, IsArrayIndex);
    var named := Filter(d.created, IsNamedKey);
    var ks := d.OwnKeys();
    d.KeysStored(ks);
    ValueSumPairs(ks, d.values);
    SumOverConcat(SortBy(indices, DecimalValue), named, d.values);
    SumOverSort(indices, DecimalValue, d.values);
    SumOverFilter(d.created, IsArrayIndex, IsNamedKey, d.values);
  }

  /** `Object.entries` order in two parts: the array indices, ascending, then
      the named keys in creation order. */
  lemma OwnKeysSplit(d: Dict) returns (a: seq<string>, b: seq<string>)
    requires d.Valid()
    ensures d.OwnKeys() == a + b
    ensures forall i :: 0 <= i < |a| ==> IsArrayIndex(a[i])
    ensures AscendingBy(a, DecimalValue)
    ensures b == Filter(d.created, IsNamedKey)
    ensures forall i :: 0 <= i < |b| ==> IsNamedKey(b[i])
  {
    var indices := Filter(d.created, IsArrayIndex);
    a, b := SortBy(indices, DecimalValue), Filter(d.created, IsNamedKey);
    forall i | 0 <= i < |a| ensures IsArrayIndex(a[i]) {
      assert a[i] in multiset(indices);
    }
  }

  /** Array indices come first in `Object.entries` order, by ascending value. */
  lemma IndicesFirst(d: Dict)
    requires d.Valid()
    ensures forall i, j :: 0 <= i < j < |d.OwnKeys()| && IsArrayIndex(d.OwnKeys()[j]) ==>
      IsArrayIndex(d.OwnKeys()[i]) && DecimalValue(d.OwnKeys()[i]) <= DecimalValue(d.OwnKeys()[j])
  {
    var a, b := OwnKeysSplit(d);
    var ks := d.OwnKeys();
    assert forall j :: 0 <= j < |ks| ==> ks[j] == if j < |a| then a[j] else b[j - |a|];
  }

  /** The named keys keep, in `Object.entries` order, the order in which they
      were created. */
  lemma NamedKeysKeepCreationOrder(d: Dict)
    requires d.Valid()
    ensures Filter(d.OwnKeys(), IsNamedKey) == Filter(d.created, IsNamedKey)
  {
    var a, b := OwnKeysSplit(d);
    FilterConcat(a, b, IsNamedKey);
    FilterKeepsNone(a, IsNamedKey);
    FilterKeepsAll(b, IsNamedKey);
  }

  /** Without array-index keys, `Object.entries` follows creation order. */
  lemma OwnKeysWithoutIndices(d: Dict)
    requires d.Valid()
    requires forall i :: 0 <= i < |d.created| ==> IsNamedKey(d.created[i])
    ensures d.OwnKeys() == d.created
  {
    FilterKeepsNone(d.created, IsArrayIndex);
    FilterKeepsAll(d.created, IsNamedKey);
  }
}
