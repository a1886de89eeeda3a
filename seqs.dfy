/** Small facts about sequence prefixes and map updates used by the model. */
module Seqs {
  /** A prefix one element longer. */
  lemma PrefixSnoc<T>(t: seq<T>, j: nat)
    requires j < |t|
    ensures t[..j + 1] == t[..j] + [t[j]]
    ensures t[..j + 1][..j] == t[..j]
  {
    assert t[..j + 1] == t[..j] + [t[j]];
  }

  /** Writing a key twice keeps the second value; removing a key forgets
      what was written to it. */
  lemma Rewrite<K, V>(m: map<K, V>, k: K, v: V, w: V)
    ensures m[k := v][k := w] == m[k := w]
    ensures m[k := v] - {k} == m - {k}
  {
    assert m[k := v][k := w].Keys == m[k := w].Keys;
    assert (m[k := v] - {k}).Keys == (m - {k}).Keys;
  }

  /** Removing one key and writing another commute. */
  lemma WriteRemove<K, V>(m: map<K, V>, k: K, v: V, j: K)
    requires k != j
    ensures m[k := v] - {j} == (m - {j})[k := v]
  {
    assert (m[k := v] - {j}).Keys == ((m - {j})[k := v]).Keys;
  }

  /** Writing back the value a key holds changes nothing. */
  lemma WriteSame<K, V>(m: map<K, V>, k: K)
    requires k in m
    ensures m[k := m[k]] == m
  {
    assert m[k := m[k]].Keys == m.Keys;
  }
}
