/**
 * The JSON tree the YAML parser builds. The parser keeps references to nodes
 * while it fills them in (a node is pushed on the builder stack, then children
 * are added to it), so nodes live in an arena and are named by their position.
 * A node is an array or an object and holds a map from keys to values; array
 * elements sit under integer keys.
 */
module JsonHeap {

  datatype Key = KStr(name: string) | KIdx(index: nat)

  /** A stored value: a reference to another node, or a text, number or flag. */
  datatype Val = VRef(ref: nat) | VStr(str: string) | VInt(num: int) | VBool(flag: bool)

  datatype Node = Node(isArray: bool, data: map<Key, Val>)

  type Heap = seq<Node>

  /** `v` names no node at or past `n`. */
  predicate ValIn(v: Val, n: nat) {
    v.VRef? ==> v.ref < n
  }

  /** Every reference stored in the arena names one of its nodes. */
  ghost predicate Closed(h: Heap) {
    forall i, k :: 0 <= i < |h| && k in h[i].data ==> ValIn(h[i].data[k], |h|)
  }

  /** `new Json(isArray)`: a fresh empty node at the end of the arena. */
  function Alloc(h: Heap, isArray: bool): (r: Heap)
    ensures |r| == |h| + 1 && r[..|h|] == h && r[|h|] == Node(isArray, map[])
    ensures Closed(h) ==> Closed(r)
  {
    var r := h + [Node(isArray, map[])];
    assert forall i :: 0 <= i < |h| ==> r[i] == h[i];
    r
  }

  /** `set(key, value)`: overwrite one entry of node `n`, leaving every other node alone. */
  function Put(h: Heap, n: nat, k: Key, v: Val): (r: Heap)
    requires n < |h|
    ensures |r| == |h| && r[n].isArray == h[n].isArray && r[n].data == h[n].data[k := v]
    ensures forall i :: 0 <= i < |h| && i != n ==> r[i] == h[i]
    ensures Closed(h) && ValIn(v, |h|) ==> Closed(r)
  {
    h[n := Node(h[n].isArray, h[n].data[k := v])]
  }

  /** `add(value)`: store `value` under the integer key equal to the node's current size. */
  function Append(h: Heap, n: nat, v: Val): (r: Heap)
    requires n < |h|
    ensures |r| == |h| && r[n].isArray == h[n].isArray
    ensures r[n].data == h[n].data[KIdx(|h[n].data|) := v]
    ensures forall i :: 0 <= i < |h| && i != n ==> r[i] == h[i]
    ensures Closed(h) && ValIn(v, |h|) ==> Closed(r)
  {
    Put(h, n, KIdx(|h[n].data|), v)
  }

  /**
   * `add(key, value)`: set the key when it is absent; when it already holds an
   * array, append to that array; otherwise replace the old value by a new array
   * holding the old value and then the new one.
   */
  function AddKeyed(h: Heap, n: nat, k: Key, v: Val): (r: Heap)
    requires Closed(h) && n < |h| && ValIn(v, |h|)
    ensures Closed(r) && |h| <= |r| <= |h| + 1
    ensures k in r[n].data && r[n].isArray == h[n].isArray
    ensures k !in h[n].data ==> r == Put(h, n, k, v)
    ensures k in h[n].data && h[n].data[k] != VRef(n) ==> r[n].data[k].VRef?
  {
    if k !in h[n].data then Put(h, n, k, v)
    else
      var old_ := h[n].data[k];
      if old_.VRef? && h[old_.ref].isArray then
        Append(h, old_.ref, v)
      else
        var w := |h|;
        var h1 := Alloc(h, true);
        var h2 := Append(h1, w, old_);
        var h3 := Append(h2, w, v);
        Put(h3, n, k, VRef(w))
  }

  /** `has(key)` on node `n`. */
  predicate Has(h: Heap, n: nat, key: string)
    requires n < |h|
  {
    KStr(key) in h[n].data
  }

  /** `isEmpty()` on node `n`. */
  predicate IsEmpty(h: Heap, n: nat)
    requires n < |h|
  {
    h[n].data == map[]
  }

  /**
   * Adding under an existing key keeps the new value reachable: the key then
   * names an array holding it; an old value that was not an array becomes the
   * first element of a new two-element array, with the new value second.
   */
  lemma AddKeyedKeepsBoth(h: Heap, n: nat, k: Key, v: Val)
    requires Closed(h) && n < |h| && ValIn(v, |h|) && k in h[n].data && h[n].data[k] != VRef(n)
    ensures var r := AddKeyed(h, n, k, v);
            var a := r[n].data[k].ref;
            && a < |r| && r[a].isArray && v in r[a].data.Values
            && (!(h[n].data[k].VRef? && h[h[n].data[k].ref].isArray) ==>
                  r[a].data == map[KIdx(0) := h[n].data[k], KIdx(1) := v])
  {
    var old_ := h[n].data[k];
    var r := AddKeyed(h, n, k, v);
    if old_.VRef? && h[old_.ref].isArray {
      var a := old_.ref;
      assert r[a].data[KIdx(|h[a].data|)] == v;
    } else {
      var w := |h|;
      var h1 := Alloc(h, true);
      var h2 := Append(h1, w, old_);
      assert h2[w].data == map[KIdx(0) := old_];
      var h3 := Append(h2, w, v);
      assert h3[w].data == map[KIdx(0) := old_, KIdx(1) := v];
      assert r[w].data[KIdx(1)] == v;
    }
  }

  /** The integer keys below `n`: the keys of an array with `n` elements. */
  function IdxKeys(n: nat): (ks: set<Key>)
    ensures forall k :: k in ks <==> k.KIdx? && k.index < n
  {
    set i | 0 <= i < n :: KIdx(i)
  }

  /** An array's size is its element count. */
  lemma {:induction false} IdxKeysCard(n: nat)
    ensures |IdxKeys(n)| == n
  {
    if n > 0 {
      IdxKeysCard(n - 1);
      IdxKeysSnoc(n - 1);
    }
  }

  /** One more element adds exactly the next integer key. */
  lemma IdxKeysSnoc(n: nat)
    ensures IdxKeys(n + 1) == IdxKeys(n) + {KIdx(n)}
  {
  }
}
