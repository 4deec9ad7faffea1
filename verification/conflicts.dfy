/** How copying and moving settle what already stands at the destination. */
module Conflicts {
  import opened Wrappers
  import opened Paths
  import opened Kernels
  import opened Children

  /** Whether a policy, left to itself, lets `s` go where `d` may stand. */
  predicate Goes(policy: ConflictPolicy, s: Node, d: Option<Node>, nonempty: bool) {
    match d
    case None => true
    case Some(d) =>
      && policy != SkipExisting
      && !(policy == UpdateNewer && !s.Dir? && s.mtime <= d.mtime)
      && (d.Dir? && !s.Dir? ==> !nonempty)
  }

  /** Directory onto directory: the contents are merged and the destination stays. */
  predicate Merges(s: Node, d: Option<Node>) {
    s.Dir? && d.Some? && d.value.Dir?
  }

  /** Before and after, everything but the directory above `p` and what is at or below `p` is the same. */
  ghost predicate Elsewhere(fs: Tree, now: Tree, p: Path)
    requires p != []
  {
    && LikeOption(Get(fs, Parent(p)), Get(now, Parent(p)))
    && forall q :: !(p <= q) && q != Parent(p) ==> Get(now, q) == Get(fs, q)
  }

  ghost predicate SameAt(fs: Tree, now: Tree, p: Path) {
    forall q :: p <= q ==> Get(now, q) == Get(fs, q)
  }

  /** Nothing of a subtree disjoint from `p` is elsewhere's exception. */
  lemma ElsewhereSame(fs: Tree, now: Tree, p: Path, src: Path)
    requires p != [] && Disjoint(src, p) && Elsewhere(fs, now, p)
    ensures SameAt(fs, now, src)
  {
    forall q | src <= q
      ensures Get(now, q) == Get(fs, q)
    {
      NotBoth(src, p, q);
      assert Parent(p) <= p;
    }
  }

  lemma BelowAgrees(fs: Tree, now: Tree, p: Path)
    requires SameAt(fs, now, p)
    ensures Below(fs, p) == Below(now, p)
  {
    forall q
      ensures q in Below(fs, p) <==> q in Below(now, p)
    {
      assert p <= q ==> Get(now, q) == Get(fs, q);
    }
  }

  lemma NotBoth(a: Path, b: Path, q: Path)
    requires Disjoint(a, b)
    ensures !(a <= q && b <= q)
  {
    if |a| <= |b| {
      assert b <= q ==> b[..|a|] == q[..|a|];
    } else {
      assert a <= q ==> a[..|b|] == q[..|b|];
    }
  }

  lemma AbsentBelow(fs: Tree, p: Path)
    requires WellFormed(fs) && !IsDir(fs, p)
    ensures forall q :: p <= q && q != p ==> q !in fs
    ensures !HasChild(fs, p)
  {
    forall q | p <= q && q != p
      ensures q !in fs
    {
      if q in fs {
        AncestorIsDir(fs, p, q);
      }
    }
    NamesAreChildren(fs, p);
  }

  lemma EmptyBelow(fs: Tree, p: Path)
    requires WellFormed(fs) && !HasChild(fs, p)
    ensures forall q :: p <= q && q != p ==> q !in fs
  {
    NamesAreChildren(fs, p);
    forall q | p <= q && q != p
      ensures q !in fs
    {
      var c := p + [q[|p|]];
      BelowChild(p, q);
      assert c !in fs;
      if q in fs && c != q {
        AncestorIsDir(fs, c, q);
      }
    }
  }

  /** What lies in a child that is not there is not there either. */
  lemma ChildMissing(fs: Tree, p: Path, q: Path)
    requires WellFormed(fs) && p <= q && p != q && q[|p|] !in Names(fs, p)
    ensures q !in fs
  {
    NamesAreChildren(fs, p);
    BelowChild(p, q);
    var c := p + [q[|p|]];
    if q in fs && c != q {
      AncestorIsDir(fs, c, q);
    }
  }

  lemma NamesAgree(fs: Tree, now: Tree, p: Path)
    requires forall q :: p <= q ==> Get(fs, q) == Get(now, q)
    ensures Names(fs, p) == Names(now, p)
  {
    NamesAreChildren(fs, p);
    NamesAreChildren(now, p);
    forall n: Name
      ensures n in Names(fs, p) <==> n in Names(now, p)
    {
      assert Get(fs, p + [n]) == Get(now, p + [n]);
    }
  }

  lemma NamesSplit(names: seq<Name>, i: nat)
    requires i < |names| && forall a, b :: 0 <= a < b < |names| ==> names[a] != names[b]
    ensures forall n :: n in names[..i + 1] <==> n in names[..i] || n == names[i]
    ensures names[i] !in names[..i]
  {
    assert names[..i + 1] == names[..i] + [names[i]];
  }

  lemma ChildrenDisjoint(src: Path, dst: Path, n: Name)
    requires Disjoint(src, dst)
    ensures Disjoint(src + [n], dst + [n]) && Leaf(src + [n]) == n
  {
    NotBoth(src, dst, dst + [n]);
    NotBoth(src, dst, src + [n]);
  }

  /** The tree `fs` with at most the childless entry `dst` taken away. */
  ghost predicate Cleared(fs: Tree, now: Tree, dst: Path)
    requires dst != []
  {
    && Elsewhere(fs, now, dst)
    && (forall p :: dst <= p && p != dst ==> Get(now, p) == Get(fs, p))
    && (Get(now, dst) == Get(fs, dst) || (dst !in now && !HasChild(fs, dst)))
  }

  lemma RemovingClears(fs: Tree, p: Path, now: int)
    requires WellFormed(fs) && p != [] && p in fs && !HasChild(fs, p)
    ensures Cleared(fs, Removing(fs, p, now), p)
  {
  }

  /** `p` is a place the user has said no to since `before`, or lies in one. */
  ghost predicate Declined(before: multiset<Path>, denied: multiset<Path>, p: Path) {
    exists r :: Added(before, denied, r) && r <= p
  }

  lemma AddedLater(before: multiset<Path>, then_: multiset<Path>, denied: multiset<Path>, r: Path)
    requires before <= then_ <= denied
    ensures Added(before, denied, r) <==> Added(before, then_, r) || Added(then_, denied, r)
  {
    assert before[r] <= then_[r];
    assert then_[r] <= denied[r];
  }

  lemma DeclinedLater(before: multiset<Path>, then_: multiset<Path>, denied: multiset<Path>, p: Path)
    requires before <= then_ <= denied && (Declined(before, then_, p) || Declined(then_, denied, p))
    ensures Declined(before, denied, p)
  {
    var r: Path :| (Added(before, then_, r) || Added(then_, denied, r)) && r <= p;
    AddedLater(before, then_, denied, r);
  }

  /** Nothing has changed at or below the places the user has said no to since `before`. */
  ghost predicate Honoured(fs: Tree, now: Tree, dst: Path, before: multiset<Path>, denied: multiset<Path>) {
    before <= denied && forall r :: Added(before, denied, r) ==> dst <= r && SameAt(fs, now, r)
  }

  /** The leaf or the empty directory that stands at `p` goes; one that has gone meanwhile is as good. */
  method ClearAway(k: Kernel, p: Path) returns (ok: bool)
    requires k.Valid() && p != [] && p in k.nodes
    modifies k
    ensures k.Valid() && Cleared(old(k.nodes), k.nodes, p)
    ensures if ok then p !in k.nodes else k.nodes == old(k.nodes)
    ensures !ok ==> p in k.failures || (IsDir(k.nodes, p) && HasChild(k.nodes, p))
    ensures k.Reliable() ==> ok == !(IsDir(old(k.nodes), p) && HasChild(old(k.nodes), p))
  {
    ghost var fs := k.nodes;
    var err;
    if k.nodes[p].Dir? {
      err := k.Rmdir(p);
    } else {
      LeafHasNoChild(k.nodes, p);
      err := k.Unlink(p);
    }
    if err == OK {
      RemovingClears(fs, p, k.clock);
    }
    ok := err == OK || err == ENOENT;
  }

  /** Asks, skips or clears what stands at `destPath`; `go` when the item may now be put there. */
  method MakeWay(k: Kernel, c: Child, info: Node, destPath: Path) returns (go: bool)
    requires k.Valid() && destPath != [] && c.current
    modifies k, c
    ensures k.Valid() && c.actionLeaf == old(c.actionLeaf)
    ensures Cleared(old(k.nodes), k.nodes, destPath)
    ensures k.nodes == old(k.nodes) ||
      (go && destPath in old(k.nodes) && destPath !in k.nodes && !Merges(info, Get(old(k.nodes), destPath)))
    ensures go && destPath in k.nodes ==> k.blind(destPath) || Merges(info, Get(k.nodes, destPath))
    ensures go ==> c.denied == old(c.denied)
    ensures go && !k.blind(destPath) ==>
      Goes(old(c.conflictPolicy), info, Get(old(k.nodes), destPath), HasChild(old(k.nodes), destPath))
    ensures !go ==>
      c.denied == old(c.denied) + multiset{destPath} ||
      (c.denied == old(c.denied) && (destPath in k.failures ||
        !Goes(old(c.conflictPolicy), info, Get(old(k.nodes), destPath), HasChild(old(k.nodes), destPath))))
    ensures go && c.conflictPolicy == SkipExisting ==> destPath !in old(k.nodes) || k.blind(destPath)
    ensures old(c.Unattended()) ==> c.Unattended() && c.denied == old(c.denied)
    ensures c.denied == old(c.denied) ==> WhenAgreed(c.conflictPolicy) == WhenAgreed(old(c.conflictPolicy))
    ensures StaysOrSkips(old(c.conflictPolicy), c.conflictPolicy)
    ensures k.Reliable() && c.denied == old(c.denied) ==>
      go == Goes(WhenAgreed(old(c.conflictPolicy)), info, Get(old(k.nodes), destPath), HasChild(old(k.nodes), destPath))
    ensures destPath !in old(k.nodes) || k.blind(destPath) ==>
      c.asked == if old(c.quiet) then old(c.asked) else old(c.asked) + multiset{destPath}
    ensures destPath in old(k.nodes) && !k.blind(destPath) ==>
      c.asked == if old(c.conflictPolicy) == Ask && !(Merges(info, Get(old(k.nodes), destPath)) && old(c.merge))
                 then old(c.asked) + multiset{destPath} else old(c.asked)
    ensures !c.attended ==> c.Now() == old(c.Now())
  {
    var destInfo := k.Lstat(destPath);
    if destInfo.Some? {
      var settled := SettleConflict(c, info, destInfo.value, destPath);
      if !settled {
        return false;
      }
      if !(info.Dir? && destInfo.value.Dir?) {
        var cleared := ClearAway(k, destPath);
        if !cleared {
          return false;
        }
      }
    } else if !c.quiet {
      var yes := c.Reply(false, destPath);
      if !yes {
        return false;
      }
    }
    return true;
  }

  /** What the policy or the user says of putting `s` where `d` stands. */
  method SettleConflict(c: Child, s: Node, d: Node, destPath: Path) returns (yes: bool)
    modifies c
    ensures c.actionLeaf == old(c.actionLeaf) && StaysOrSkips(old(c.conflictPolicy), c.conflictPolicy)
    ensures c.denied == old(c.denied) || (!yes && c.denied == old(c.denied) + multiset{destPath})
    ensures yes ==> c.conflictPolicy != SkipExisting && Goes(old(c.conflictPolicy), s, Some(d), false)
    ensures !yes && c.denied == old(c.denied) ==> !Goes(old(c.conflictPolicy), s, Some(d), false)
    ensures old(c.Unattended()) ==> c.Unattended() && c.denied == old(c.denied)
    ensures c.denied == old(c.denied) ==>
      WhenAgreed(c.conflictPolicy) == WhenAgreed(old(c.conflictPolicy)) &&
      yes == Goes(WhenAgreed(old(c.conflictPolicy)), s, Some(d), false)
    ensures c.asked == if old(c.conflictPolicy) == Ask && !(s.Dir? && d.Dir? && old(c.merge))
                       then old(c.asked) + multiset{destPath} else old(c.asked)
    ensures !c.attended ==> c.Now() == old(c.Now())
  {
    if c.conflictPolicy == SkipExisting {
      return false;
    } else if c.conflictPolicy == UpdateNewer && !s.Dir? && s.mtime <= d.mtime {
      return false;
    } else if c.conflictPolicy == ReplaceAll || c.conflictPolicy == UpdateNewer || (s.Dir? && d.Dir? && c.merge) {
      return true;
    }
    yes := c.ConflictReply(destPath);
  }
}
