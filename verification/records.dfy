/**
 * JavaScript objects and `Map`s as the program uses them: string keys, each
 * present at most once, enumerated (`Object.keys`, `Map.prototype.keys`) in
 * the order in which they were first assigned.
 */
module Records {
  import opened Wrappers

  /** The own properties of an object, in insertion order. */
  datatype Record<V> = Record(entries: seq<(string, V)>)

  /** Every key occurs once: the shape of any object the runtime builds. */
  predicate Valid<V>(r: Record<V>)
  {
    forall i, j :: 0 <= i < j < |r.entries| ==> r.entries[i].0 != r.entries[j].0
  }

  /** `Object.keys(r)`: the keys in insertion order. */
  function Keys<V>(r: Record<V>): (ks: seq<string>)
    ensures |ks| == |r.entries|
    ensures forall i :: 0 <= i < |ks| ==> ks[i] == r.entries[i].0
  {
    seq(|r.entries|, i requires 0 <= i < |r.entries| => r.entries[i].0)
  }

  /** `r[k]`: the value stored under `k`, or `undefined`. */
  function Get<V>(r: Record<V>, k: string): (v: Option<V>)
    ensures v.Some? <==> k in Keys(r)
  {
    Find(r.entries, k)
  }

  function Find<V>(es: seq<(string, V)>, k: string): (v: Option<V>)
    ensures v.Some? <==> exists i :: 0 <= i < |es| && es[i].0 == k
    ensures v.Some? ==> exists i :: 0 <= i < |es| && es[i] == (k, v.value)
  {
    if es == [] then None
    else if es[0].0 == k then Some(es[0].1)
    else
      var v := Find(es[1..], k);
      assert forall i :: 1 <= i < |es| ==> es[i] == es[1..][i - 1];
      assert v.Some? ==> exists i :: 0 <= i < |es[1..]| && es[1..][i] == (k, v.value);
      v
  }

  /** In a valid record the value found under the i-th key is the i-th value. */
  lemma {:induction false} GetAt<V>(r: Record<V>, i: nat)
    requires Valid(r)
    requires i < |r.entries|
    ensures Get(r, r.entries[i].0) == Some(r.entries[i].1)
  {
    FindAt(r.entries, i);
  }

  lemma {:induction false} FindAt<V>(es: seq<(string, V)>, i: nat)
    requires forall a, b :: 0 <= a < b < |es| ==> es[a].0 != es[b].0
    requires i < |es|
    ensures Find(es, es[i].0) == Some(es[i].1)
  {
    if i > 0 {
      assert es[0].0 != es[i].0;
      assert es[1..][i - 1] == es[i];
      FindAt(es[1..], i - 1);
    }
  }

  /**
   * The assignment `r[k] = v`: an existing key keeps its position and gets
   * the new value, a new key is appended at the end.
   */
  function Put<V>(r: Record<V>, k: string, v: V): (r': Record<V>)
    ensures k in Keys(r) ==> Keys(r') == Keys(r)
    ensures k !in Keys(r) ==> r'.entries == r.entries + [(k, v)]
    ensures Get(r', k) == Some(v)
    ensures forall j :: j != k ==> Get(r', j) == Get(r, j)
  {
    FindAfterPut(r.entries, k, v);
    PutEntriesShape(r.entries, k, v);
    Record(PutEntries(r.entries, k, v))
  }

  function PutEntries<V>(es: seq<(string, V)>, k: string, v: V): seq<(string, V)>
  {
    if es == [] then [(k, v)]
    else if es[0].0 == k then [(k, v)] + es[1..]
    else [es[0]] + PutEntries(es[1..], k, v)
  }

  /** Assigning an existing key keeps every key in place; a new key is appended. */
  lemma {:induction false} PutEntriesShape<V>(es: seq<(string, V)>, k: string, v: V)
    ensures (exists i :: 0 <= i < |es| && es[i].0 == k) ==>
              |PutEntries(es, k, v)| == |es| && forall i :: 0 <= i < |es| ==> PutEntries(es, k, v)[i].0 == es[i].0
    ensures (forall i :: 0 <= i < |es| ==> es[i].0 != k) ==> PutEntries(es, k, v) == es + [(k, v)]
  {
    if es != [] && es[0].0 != k {
      var tail := es[1..];
      PutEntriesShape(tail, k, v);
      var es' := PutEntries(es, k, v);
      assert es' == [es[0]] + PutEntries(tail, k, v);
      if exists i :: 0 <= i < |es| && es[i].0 == k {
        var i :| 0 <= i < |es| && es[i].0 == k;
        assert tail[i - 1].0 == k;
        assert forall j :: 1 <= j < |es| ==> es'[j].0 == PutEntries(tail, k, v)[j - 1].0 == tail[j - 1].0;
      } else {
        assert forall j :: 0 <= j < |tail| ==> tail[j].0 == es[j + 1].0;
        assert [es[0]] + (tail + [(k, v)]) == es + [(k, v)];
      }
    }
  }

  /** After the assignment the key holds the new value and every other key its old one. */
  lemma {:induction false} FindAfterPut<V>(es: seq<(string, V)>, k: string, v: V)
    ensures Find(PutEntries(es, k, v), k) == Some(v)
    ensures forall j :: j != k ==> Find(PutEntries(es, k, v), j) == Find(es, j)
  {
    if es != [] && es[0].0 != k {
      FindAfterPut(es[1..], k, v);
      assert PutEntries(es, k, v) == [es[0]] + PutEntries(es[1..], k, v);
    }
  }

  /** Assigning a new key adds it at the end of the key order. */
  lemma PutAppendsKey<V>(r: Record<V>, k: string, v: V)
    requires k !in Keys(r)
    ensures Keys(Put(r, k, v)) == Keys(r) + [k]
  {
    assert Put(r, k, v).entries == r.entries + [(k, v)];
    KeysAppend(r, k, v);
  }

  lemma KeysAppend<V>(r: Record<V>, k: string, v: V)
    ensures Keys(Record(r.entries + [(k, v)])) == Keys(r) + [k]
  {
    var ks, ks' := Keys(r), Keys(Record(r.entries + [(k, v)]));
    assert forall i :: 0 <= i < |ks| ==> ks'[i] == ks[i];
  }

  /** Assignment keeps every key unique. */
  lemma {:induction false} PutValid<V>(r: Record<V>, k: string, v: V)
    requires Valid(r)
    ensures Valid(Put(r, k, v))
  {
    var r' := Put(r, k, v);
    var ks, ks' := Keys(r), Keys(r');
    if k in ks {
      assert ks' == ks;
      forall i, j | 0 <= i < j < |r'.entries|
        ensures r'.entries[i].0 != r'.entries[j].0
      {
        assert r'.entries[i].0 == ks'[i] == ks[i] == r.entries[i].0;
        assert r'.entries[j].0 == ks'[j] == ks[j] == r.entries[j].0;
      }
    } else {
      assert r'.entries == r.entries + [(k, v)];
      forall i, j | 0 <= i < j < |r'.entries|
        ensures r'.entries[i].0 != r'.entries[j].0
      {
        assert r'.entries[i] == r.entries[i];
        if j == |r.entries| {
          assert r'.entries[j].0 == k;
          assert r.entries[i].0 == ks[i];
        } else {
          assert r'.entries[j] == r.entries[j];
        }
      }
    }
  }
}
