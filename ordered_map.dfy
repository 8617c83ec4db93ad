/** A JavaScript object used as a dictionary: its own keys, in insertion
    order, each with its value. `for...in` visits the entries in this order. */
module OrderedMap {
  import opened Wrappers
  import opened Seqs

  /** The keys, in the order `for...in` visits them. */
  function Keys<K, V>(m: seq<(K, V)>): seq<K>
  {
    seq(|m|, i requires 0 <= i < |m| => m[i].0)
  }

  /** `m[k]`: the value stored under `k`, if any. */
  function Lookup<K(==), V>(m: seq<(K, V)>, k: K): Option<V>
  {
    if |m| == 0 then None
    else if m[0].0 == k then Some(m[0].1)
    else Lookup(m[1..], k)
  }

  /** `m[k] = v`: an existing key keeps its position and takes the new value;
      a new key is added last. */
  function Put<K(==,!new), V>(m: seq<(K, V)>, k: K, v: V): (r: seq<(K, V)>)
    ensures Keys(r) == if k in Keys(m) then Keys(m) else Keys(m) + [k]
    ensures Lookup(r, k) == Some(v)
    ensures forall k' :: k' != k ==> Lookup(r, k') == Lookup(m, k')
  {
    if |m| == 0 then [(k, v)]
    else if m[0].0 == k then
      assert Keys([(k, v)] + m[1..]) == Keys(m);
      assert Keys(m)[0] == k;
      [(k, v)] + m[1..]
    else
      var rest := Put(m[1..], k, v);
      assert Keys(m) == [m[0].0] + Keys(m[1..]);
      assert Keys([m[0]] + rest) == [m[0].0] + Keys(rest);
      [m[0]] + rest
  }

  /** Assignment keeps the keys of an object distinct. */
  lemma PutNoDup<K(!new), V>(m: seq<(K, V)>, k: K, v: V)
    requires NoDup(Keys(m))
    ensures NoDup(Keys(Put(m, k, v)))
  {
    if k !in Keys(m) { NoDupSnoc(Keys(m), k); }
  }

}
