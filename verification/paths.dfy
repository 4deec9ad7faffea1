/** Absolute paths as sequences of leaf names, the root being the empty sequence. */
module Paths {
  import opened Wrappers

  type Name = string
  type Path = seq<Name>

  function Get<K, V>(m: map<K, V>, k: K): Option<V> {
    if k in m then Some(m[k]) else None
  }

  function Parent(p: Path): Path
    requires p != []
  {
    p[..|p| - 1]
  }

  function Leaf(p: Path): Name
    requires p != []
  {
    p[|p| - 1]
  }

  predicate Disjoint(p: Path, q: Path) {
    !(p <= q) && !(q <= p)
  }

  /** The path that lies below `to` exactly as `p` lies below `from`. */
  function Rebase(from: Path, to: Path, p: Path): Path
    requires from <= p
  {
    to + p[|from|..]
  }

  lemma RebaseInverse(from: Path, to: Path, p: Path)
    requires from <= p
    ensures to <= Rebase(from, to, p) && Rebase(to, from, Rebase(from, to, p)) == p
  {
    assert Rebase(from, to, p)[|to|..] == p[|from|..];
  }

  lemma RebaseChild(from: Path, to: Path, n: Name, p: Path)
    requires from + [n] <= p
    ensures from <= p && Rebase(from + [n], to + [n], p) == Rebase(from, to, p)
  {
    assert p[|from|..] == [n] + p[|from| + 1..];
  }

  lemma RebaseExtend(from: Path, to: Path, p: Path, n: Name)
    requires from <= p
    ensures from <= p + [n] && Rebase(from, to, p + [n]) == Rebase(from, to, p) + [n]
  {
    assert (p + [n])[|from|..] == p[|from|..] + [n];
  }

  /** A path strictly below `q` lies below exactly one child of `q`. */
  lemma BelowChild(q: Path, p: Path)
    requires q <= p && q != p
    ensures q + [p[|q|]] <= p
  {
  }
}
