/** A Python `dict[str, str]` as the masking code uses it: keys kept in insertion order,
    assignment to an existing key changing its value in place, and `dict.update`. */
module Table {
  import opened Wrappers

  datatype Entry = Entry(key: string, value: string)

  /** Entries in insertion order; a well-formed table never repeats a key. */
  type Table = seq<Entry>

  function Keys(t: Table): (ks: seq<string>)
    ensures |ks| == |t| && forall i :: 0 <= i < |t| ==> ks[i] == t[i].key
  {
    if t == [] then [] else [t[0].key] + Keys(t[1..])
  }

  predicate DistinctKeys(t: Table)
  {
    forall i, j :: 0 <= i < j < |t| ==> t[i].key != t[j].key
  }

  predicate HasKey(t: Table, k: string)
  {
    exists i :: 0 <= i < |t| && t[i].key == k
  }

  /** `v in d.values()`. */
  predicate HasValue(t: Table, v: string)
  {
    exists i :: 0 <= i < |t| && t[i].value == v
  }

  /** `d.get(k)`: the value of the first entry with key `k`. */
  function Get(t: Table, k: string): (r: Option<string>)
    ensures r.None? <==> !HasKey(t, k)
    ensures r.Some? ==> exists i :: 0 <= i < |t| && t[i] == Entry(k, r.value)
    ensures r.Some? && DistinctKeys(t) ==> forall i :: 0 <= i < |t| && t[i].key == k ==> t[i].value == r.value
  {
    if t == [] then None
    else if t[0].key == k then Some(t[0].value)
    else
      var r := Get(t[1..], k);
      assert HasKey(t, k) ==> HasKey(t[1..], k) by {
        if HasKey(t, k) {
          var i :| 0 <= i < |t| && t[i].key == k;
          assert t[1..][i - 1].key == k;
        }
      }
      assert r.Some? ==> exists i :: 0 <= i < |t| && t[i] == Entry(k, r.value) by {
        if r.Some? {
          var i :| 0 <= i < |t[1..]| && t[1..][i] == Entry(k, r.value);
          assert t[i + 1] == Entry(k, r.value);
        }
      }
      r
  }

  /** `d[k] = v`: an existing key keeps its position and takes the new value;
      a new key is appended. */
  function Put(t: Table, k: string, v: string): (r: Table)
    requires DistinctKeys(t)
    ensures DistinctKeys(r)
    ensures Get(r, k) == Some(v)
    ensures forall k' :: k' != k ==> Get(r, k') == Get(t, k')
    ensures HasKey(t, k) ==> Keys(r) == Keys(t)
    ensures !HasKey(t, k) ==> r == t + [Entry(k, v)]
  {
    if HasKey(t, k) then
      var i :| 0 <= i < |t| && t[i].key == k;
      PutAt(t, k, v, i);
      t[i := Entry(k, v)]
    else
      PutNew(t, k, v);
      t + [Entry(k, v)]
  }

  /** Assigning to a present key overwrites its entry in place. */
  lemma PutAt(t: Table, k: string, v: string, i: nat)
    requires DistinctKeys(t) && i < |t| && t[i].key == k
    ensures DistinctKeys(t[i := Entry(k, v)])
    ensures Get(t[i := Entry(k, v)], k) == Some(v)
    ensures forall k' :: k' != k ==> Get(t[i := Entry(k, v)], k') == Get(t, k')
    ensures Keys(t[i := Entry(k, v)]) == Keys(t)
  {
    var r := t[i := Entry(k, v)];
    assert Keys(r) == Keys(t);
    forall k' | k' != k ensures Get(r, k') == Get(t, k') {
      GetAgree(r, t, k');
    }
  }

  /** Assigning to a missing key appends its entry. */
  lemma PutNew(t: Table, k: string, v: string)
    requires DistinctKeys(t) && !HasKey(t, k)
    ensures DistinctKeys(t + [Entry(k, v)])
    ensures Get(t + [Entry(k, v)], k) == Some(v)
    ensures forall k' :: k' != k ==> Get(t + [Entry(k, v)], k') == Get(t, k')
  {
    var r := t + [Entry(k, v)];
    assert r[|t|] == Entry(k, v);
    forall k' | k' != k ensures Get(r, k') == Get(t, k') {
      GetAgree(r, t, k');
    }
  }

  /** Two distinct-key tables holding the same entries for key `k`, apart from ones
      whose key differs, answer `Get(_, k)` alike. */
  lemma GetAgree(a: Table, b: Table, k: string)
    requires DistinctKeys(a) && DistinctKeys(b)
    requires forall i :: 0 <= i < |a| && a[i].key == k ==> a[i] in b
    requires forall i :: 0 <= i < |b| && b[i].key == k ==> b[i] in a
    ensures Get(a, k) == Get(b, k)
  {
    if Get(a, k).Some? {
      var i :| 0 <= i < |a| && a[i] == Entry(k, Get(a, k).value);
      assert a[i] in b;
    }
  }

  /** `d.update(u)`: the entries of `u` assigned into `d` one by one, in `u`'s order. */
  function Update(d: Table, u: Table): (r: Table)
    requires DistinctKeys(d)
    ensures DistinctKeys(r)
    decreases |u|
  {
    if u == [] then d else Update(Put(d, u[0].key, u[0].value), u[1..])
  }

  /** After `d.update(u)`, a key of `u` maps to its value in `u` (later entries win on
      a clash), and every other key keeps its value in `d`. */
  lemma {:induction false} UpdateGet(d: Table, u: Table, k: string)
    requires DistinctKeys(d) && DistinctKeys(u)
    ensures Get(Update(d, u), k) == if HasKey(u, k) then Get(u, k) else Get(d, k)
    decreases |u|
  {
    if u != [] {
      var d' := Put(d, u[0].key, u[0].value);
      assert DistinctKeys(u[1..]);
      UpdateGet(d', u[1..], k);
      HasKeyTail(u, k);
    }
  }

  /** In a table with distinct keys, the first entry's key is not in the rest, and any other
      key is in the table exactly when it is in the rest. */
  lemma HasKeyTail(u: Table, k: string)
    requires DistinctKeys(u) && u != []
    ensures k == u[0].key ==> !HasKey(u[1..], k)
    ensures k != u[0].key ==> (HasKey(u, k) <==> HasKey(u[1..], k))
  {
    if HasKey(u[1..], k) {
      var i :| 0 <= i < |u[1..]| && u[1..][i].key == k;
      assert u[i + 1].key == k;
    }
    if k != u[0].key && HasKey(u, k) {
      var i :| 0 <= i < |u| && u[i].key == k;
      assert u[1..][i - 1].key == k;
    }
  }

  /** A table whose keys are distinct, built by appending fresh keys, updates an empty
      dict into a copy of itself. */
  lemma {:induction false} UpdateIntoEmpty(d: Table, u: Table)
    requires DistinctKeys(d) && DistinctKeys(d + u)
    ensures Update(d, u) == d + u
    decreases |u|
  {
    if u != [] {
      forall i | 0 <= i < |d| ensures d[i].key != u[0].key {
        assert (d + u)[i] == d[i] && (d + u)[|d|] == u[0];
      }
      assert Put(d, u[0].key, u[0].value) == d + [u[0]];
      assert d + [u[0]] + u[1..] == d + u;
      assert DistinctKeys(d + [u[0]]) by {
        forall i | 0 <= i < |d| + 1 ensures (d + [u[0]])[i] == (d + u)[i] { }
      }
      UpdateIntoEmpty(d + [u[0]], u[1..]);
    }
  }
}
