/** Insertion-ordered records, as JavaScript objects and `Map`s behave: writing a key that is
    already there keeps its position, writing a new key appends it. */
module Records {

  datatype Option<+T> = None | Some(value: T) {
    function GetOr(default: T): T {
      if Some? then value else default
    }
  }

  datatype Result<+T, +E> = Success(value: T) | Failure(error: E)

  ghost predicate Distinct<K, V>(es: seq<(K, V)>) {
    forall i, j :: 0 <= i < j < |es| ==> es[i].0 != es[j].0
  }

  /** Position of `key`, or -1. */
  function IndexOf<K(==), V>(es: seq<(K, V)>, key: K): (i: int)
    ensures -1 <= i < |es|
    ensures 0 <= i ==> es[i].0 == key
    ensures i < 0 ==> forall j :: 0 <= j < |es| ==> es[j].0 != key
  {
    if es == [] then -1
    else if es[0].0 == key then 0
    else
      var j := IndexOf(es[1..], key);
      if j < 0 then
        assert forall n :: 1 <= n < |es| ==> es[n] == es[1..][n - 1];
        -1
      else j + 1
  }

  predicate Has<K(==), V>(es: seq<(K, V)>, key: K) {
    IndexOf(es, key) >= 0
  }

  function Get<K(==), V>(es: seq<(K, V)>, key: K): Option<V> {
    var i := IndexOf(es, key);
    if i < 0 then None else Some(es[i].1)
  }

  function Put<K(==), V>(es: seq<(K, V)>, key: K, value: V): (r: seq<(K, V)>)
    ensures Distinct(es) ==> Distinct(r)
  {
    var i := IndexOf(es, key);
    if i < 0 then es + [(key, value)] else es[i := (key, value)]
  }

  lemma {:induction false} IndexUnique<K, V>(es: seq<(K, V)>, i: nat)
    requires Distinct(es) && i < |es|
    ensures IndexOf(es, es[i].0) == i
  {
    var j := IndexOf(es, es[i].0);
    assert es[j].0 == es[i].0;
  }

  /** Reading after writing: the written key has the new value, every other key its old one. */
  lemma PutGet<K, V>(es: seq<(K, V)>, key: K, value: V, other: K)
    requires Distinct(es)
    ensures Get(Put(es, key, value), other) == if other == key then Some(value) else Get(es, other)
  {
    var r := Put(es, key, value);
    var i, j := IndexOf(es, key), IndexOf(es, other);
    if other == key {
      IndexUnique(r, if i < 0 then |es| else i);
    } else if 0 <= j {
      assert r[j] == es[j];
      IndexUnique(r, j);
    } else {
      var k := IndexOf(r, other);
      assert 0 <= k ==> k < |es| && r[k] == es[k];
    }
  }

  /** A key that is not there yet is appended. */
  lemma PutNew<V>(es: seq<(string, V)>, key: string, value: V, more: seq<(string, V)>)
    requires Distinct(es + [(key, value)] + more)
    ensures Put(es, key, value) == es + [(key, value)] && !Has(es, key)
  {
    var i := IndexOf(es, key);
    var all := es + [(key, value)] + more;
    assert all[|es|] == (key, value) && forall j :: 0 <= j < |es| ==> all[j] == es[j];
  }

  /** The values of a record, weighed and added up. */
  function Total<K, V>(es: seq<(K, V)>, weight: V -> int): int {
    if es == [] then 0 else weight(es[0].1) + Total(es[1..], weight)
  }

  lemma {:induction false} TotalConcat<K, V>(a: seq<(K, V)>, b: seq<(K, V)>, weight: V -> int)
    ensures Total(a + b, weight) == Total(a, weight) + Total(b, weight)
  {
    if a == [] {
      assert a + b == b;
    } else {
      assert (a + b)[1..] == a[1..] + b;
      TotalConcat(a[1..], b, weight);
    }
  }

  /** Writing one key changes the total by that key's weight only. */
  lemma TotalPut<K, V>(es: seq<(K, V)>, key: K, value: V, weight: V -> int)
    ensures Total(Put(es, key, value), weight)
         == Total(es, weight) + weight(value) - if Get(es, key).Some? then weight(Get(es, key).value) else 0
  {
    var i := IndexOf(es, key);
    var one := [(key, value)];
    assert one[1..] == [];
    assert Total(one, weight) == weight(value);
    if i < 0 {
      TotalConcat(es, one, weight);
    } else {
      var was := [es[i]];
      assert was[1..] == [];
      assert Total(was, weight) == weight(es[i].1);
      assert es == es[..i] + (was + es[i + 1..]) && es[i := (key, value)] == es[..i] + (one + es[i + 1..]);
      TotalConcat(es[..i], was + es[i + 1..], weight);
      TotalConcat(was, es[i + 1..], weight);
      TotalConcat(es[..i], one + es[i + 1..], weight);
      TotalConcat(one, es[i + 1..], weight);
    }
  }
}
