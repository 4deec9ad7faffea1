/** Clearing away the source directories that a finished transfer has left empty. */
module EmptyDirs {
  import opened Wrappers
  import opened Paths
  import opened Kernels
  import opened Conflicts

  ghost predicate HoldsLeaf(fs: Tree, p: Path) {
    exists q :: p <= q && IsLeaf(fs, q)
  }

  /** A directory goes exactly when there is no non-directory below it; nothing else goes. */
  ghost predicate Cleaned(fs: Tree, now: Tree, p: Path) {
    if p in fs && HoldsLeaf(fs, p) then LikeOption(Get(fs, p), Get(now, p)) else p !in now
  }

  /** What holds even when calls fail: no more than leafless directories go. */
  ghost predicate Spares(fs: Tree, now: Tree, p: Path) {
    if p in fs && HoldsLeaf(fs, p) then LikeOption(Get(fs, p), Get(now, p))
    else LikeOption(Get(fs, p), Get(now, p)) || p !in now
  }

  ghost predicate AllCleaned(fs: Tree, now: Tree, path: Path) {
    forall p :: path <= p ==> Cleaned(fs, now, p)
  }

  ghost predicate AllSpared(fs: Tree, now: Tree, path: Path) {
    forall p :: path <= p ==> Spares(fs, now, p)
  }

  ghost predicate Progress(fs: Tree, now: Tree, path: Path, done: set<Name>, sure: bool) {
    && LikeOption(Get(fs, path), Get(now, path))
    && (forall q :: !(path <= q) ==> Get(now, q) == Get(fs, q))
    && (forall q :: path <= q && q != path && q[|path|] in done ==>
         Spares(fs, now, q) && (sure ==> Cleaned(fs, now, q)))
    && (forall q :: path <= q && q != path && q[|path|] !in done ==> Get(now, q) == Get(fs, q))
  }

  lemma HoldsLeafAgrees(fs: Tree, mid: Tree, p: Path)
    requires SameAt(fs, mid, p)
    ensures HoldsLeaf(fs, p) <==> HoldsLeaf(mid, p)
  {
    forall q | p <= q
      ensures IsLeaf(fs, q) <==> IsLeaf(mid, q)
    {
      assert Get(mid, q) == Get(fs, q);
    }
  }

  lemma LeafHoldsItself(fs: Tree, p: Path)
    ensures IsLeaf(fs, p) ==> HoldsLeaf(fs, p)
  {
    assert p <= p;
  }

  lemma StepProgress(fs: Tree, mid: Tree, now: Tree, path: Path, done: set<Name>, n: Name, sure: bool)
    requires Progress(fs, mid, path, done, sure) && n !in done
    requires Elsewhere(mid, now, path + [n]) && AllSpared(mid, now, path + [n])
    requires sure ==> AllCleaned(mid, now, path + [n])
    ensures Progress(fs, now, path, done + {n}, sure)
  {
    assert Parent(path + [n]) == path;
    forall q | path <= q && q != path
      ensures q[|path|] in done + {n} ==> Spares(fs, now, q) && (sure ==> Cleaned(fs, now, q))
      ensures q[|path|] !in done + {n} ==> Get(now, q) == Get(fs, q)
    {
      if q[|path|] == n {
        assert path + [n] <= q;
        assert Spares(mid, now, q) && (sure ==> Cleaned(mid, now, q)) && Get(mid, q) == Get(fs, q);
        HoldsLeafAgrees(fs, mid, q);
      } else {
        assert Get(now, q) == Get(mid, q);
        assert q[|path|] in done ==> Spares(fs, mid, q) && (sure ==> Cleaned(fs, mid, q));
      }
    }
  }

  lemma SkipLeaf(fs: Tree, mid: Tree, path: Path, done: set<Name>, n: Name, sure: bool)
    requires WellFormed(fs) && Progress(fs, mid, path, done, sure) && n !in done && !IsDir(fs, path + [n])
    ensures Progress(fs, mid, path, done + {n}, sure)
  {
    AbsentBelow(fs, path + [n]);
    forall q | path <= q && q != path && q[|path|] == n
      ensures Spares(fs, mid, q) && Cleaned(fs, mid, q)
    {
      assert path + [n] <= q;
      LeafHoldsItself(fs, q);
    }
  }

  lemma SkipUnseen(fs: Tree, mid: Tree, path: Path, done: set<Name>, n: Name)
    requires Progress(fs, mid, path, done, false) && n !in done
    ensures Progress(fs, mid, path, done + {n}, false)
  {
  }

  lemma LeafLeavesSomething(fs: Tree, mid: Tree, path: Path, l: Path)
    requires WellFormed(fs) && IsDir(fs, path) && path <= l && IsLeaf(fs, l)
    requires forall q :: path <= q && q != path && q[|path|] in Names(fs, path) ==> Cleaned(fs, mid, q)
    ensures HasChild(mid, path)
  {
    NamesAreChildren(fs, path);
    NamesAreChildren(mid, path);
    assert l != path;
    var n := l[|path|];
    var q := path + [n];
    BelowChild(path, l);
    if q != l {
      AncestorIsDir(fs, q, l);
    }
    assert HoldsLeaf(fs, q) && Cleaned(fs, mid, q);
    assert n in Names(mid, path);
  }

  lemma SomethingLeftIsLeaf(fs: Tree, mid: Tree, path: Path)
    requires WellFormed(fs) && IsDir(fs, path) && Progress(fs, mid, path, Names(fs, path), true)
    requires HasChild(mid, path)
    ensures HoldsLeaf(fs, path)
  {
    NamesAreChildren(fs, path);
    NamesAreChildren(mid, path);
    var n :| n in Names(mid, path);
    var q := path + [n];
    assert q[|path|] == n && n in Names(fs, path) && Cleaned(fs, mid, q);
    var l :| q <= l && IsLeaf(fs, l);
    assert path <= l;
  }

  /** A directory has a leaf below it exactly when something is left in it. */
  lemma LeftExactlyWithLeaf(fs: Tree, mid: Tree, path: Path)
    requires WellFormed(fs) && IsDir(fs, path) && Progress(fs, mid, path, Names(fs, path), true)
    ensures HasChild(mid, path) <==> HoldsLeaf(fs, path)
  {
    if HoldsLeaf(fs, path) {
      var l :| path <= l && IsLeaf(fs, l);
      LeafLeavesSomething(fs, mid, path, l);
    }
    if HasChild(mid, path) {
      SomethingLeftIsLeaf(fs, mid, path);
    }
  }

  lemma ClosedBelow(fs: Tree, mid: Tree, path: Path, p: Path, sure: bool)
    requires WellFormed(fs) && Progress(fs, mid, path, Names(fs, path), sure) && path <= p && p != path
    ensures Spares(fs, mid, p) && (sure ==> Cleaned(fs, mid, p))
  {
    if p[|path|] !in Names(fs, path) {
      ChildMissing(fs, path, p);
    }
  }

  lemma CloseDir(fs: Tree, mid: Tree, now: Tree, path: Path, t: int, sure: bool)
    requires WellFormed(fs) && WellFormed(mid) && IsDir(fs, path) && path != []
    requires Progress(fs, mid, path, Names(fs, path), sure)
    requires now == mid || (!HasChild(mid, path) && now == Removing(mid, path, t))
    requires sure && !HasChild(mid, path) ==> now != mid
    ensures Elsewhere(fs, now, path) && AllSpared(fs, now, path)
    ensures sure ==> AllCleaned(fs, now, path)
  {
    if sure {
      LeftExactlyWithLeaf(fs, mid, path);
    } else if !HasChild(mid, path) {
      NoLeafLeft(fs, mid, path);
    }
    forall p | path <= p && p != path
      ensures Spares(fs, now, p) && (sure ==> Cleaned(fs, now, p))
    {
      assert Get(now, p) == Get(mid, p);
      ClosedBelow(fs, mid, path, p, sure);
    }
  }

  lemma UntouchedSpared(fs: Tree, path: Path)
    requires path != []
    ensures Elsewhere(fs, fs, path) && AllSpared(fs, fs, path)
  {
  }

  lemma NoLeafLeft(fs: Tree, mid: Tree, path: Path)
    requires WellFormed(fs) && WellFormed(mid) && Progress(fs, mid, path, Names(fs, path), false)
    requires IsDir(fs, path) && !HasChild(mid, path)
    ensures !HoldsLeaf(fs, path)
  {
    EmptyBelow(mid, path);
    NamesAreChildren(fs, path);
    forall l | path <= l && l != path
      ensures !IsLeaf(fs, l)
    {
      LeafHoldsItself(fs, l);
      assert Spares(fs, mid, l) || Get(mid, l) == Get(fs, l);
    }
  }

  method RemoveEmptySourceDirs(k: Kernel, path: Path)
    requires k.Valid() && path != [] && IsDir(k.nodes, path)
    modifies k
    decreases Below(k.nodes, path), 1
    ensures k.Valid() && Elsewhere(old(k.nodes), k.nodes, path)
    ensures AllSpared(old(k.nodes), k.nodes, path)
    ensures k.Reliable() ==> AllCleaned(old(k.nodes), k.nodes, path)
  {
    ghost var fs := k.nodes;
    var listed := CleanContents(k, path);
    if !listed {
      UntouchedSpared(fs, path);
      return;
    }
    ghost var mid := k.nodes;
    var err := k.Rmdir(path);
    assert err != OK ==> k.nodes == mid;
    CloseDir(fs, mid, k.nodes, path, k.clock, k.Reliable());
  }

  /** Goes through the directories in `path`, unless it cannot be read. */
  method CleanContents(k: Kernel, path: Path) returns (listed: bool)
    requires k.Valid() && path != [] && IsDir(k.nodes, path)
    modifies k
    decreases Below(k.nodes, path), 0
    ensures k.Valid() && (k.Reliable() ==> listed)
    ensures if listed then Progress(old(k.nodes), k.nodes, path, Names(old(k.nodes), path), k.Reliable())
            else k.nodes == old(k.nodes)
  {
    ghost var fs := k.nodes;
    var names := k.ReadDir(path);
    if names == None {
      return false;
    }
    var i := 0;
    ghost var done: set<Name> := {};
    while i < |names.value|
      invariant 0 <= i <= |names.value| && k.Valid()
      invariant forall n :: n in done <==> n in names.value[..i]
      invariant Progress(fs, k.nodes, path, done, k.Reliable())
    {
      NamesSplit(names.value, i);
      BelowWaits(fs, k.nodes, path, done, names.value[i], k.Reliable());
      CleanEntry(k, path, names.value[i], fs, done);
      done := done + {names.value[i]};
      i := i + 1;
    }
    assert names.value[..i] == names.value;
    assert done == Names(fs, path);
    return true;
  }

  method CleanEntry(k: Kernel, path: Path, n: Name, ghost fs: Tree, ghost done: set<Name>)
    requires k.Valid() && WellFormed(fs) && Progress(fs, k.nodes, path, done, k.Reliable()) && n !in done
    modifies k
    decreases Below(k.nodes, path + [n]), 2
    ensures k.Valid() && Progress(fs, k.nodes, path, done + {n}, k.Reliable())
  {
    ghost var mid := k.nodes;
    assert Get(mid, path + [n]) == Get(fs, path + [n]);
    var info := k.Lstat(path + [n]);
    if info.Some? && info.value.Dir? {
      RemoveEmptySourceDirs(k, path + [n]);
      StepProgress(fs, mid, k.nodes, path, done, n, k.Reliable());
    } else if info.Some? {
      SkipLeaf(fs, mid, path, done, n, k.Reliable());
    } else {
      SkipBlind(k, fs, path, done, n);
    }
  }

  lemma SkipBlind(k: Kernel, fs: Tree, path: Path, done: set<Name>, n: Name)
    requires WellFormed(fs) && Progress(fs, k.nodes, path, done, k.Reliable()) && n !in done
    requires k.blind(path + [n]) || path + [n] !in fs
    ensures Progress(fs, k.nodes, path, done + {n}, k.Reliable())
  {
    if k.blind(path + [n]) {
      SkipUnseen(fs, k.nodes, path, done, n);
    } else {
      SkipLeaf(fs, k.nodes, path, done, n, k.Reliable());
    }
  }

  lemma BelowWaits(fs: Tree, mid: Tree, path: Path, done: set<Name>, n: Name, sure: bool)
    requires Progress(fs, mid, path, done, sure) && n !in done && path in fs
    ensures Below(mid, path + [n]) < Below(fs, path)
  {
    assert path in Below(fs, path) && path !in Below(mid, path + [n]);
    forall q | q in Below(mid, path + [n])
      ensures q in Below(fs, path)
    {
      assert Get(mid, q) == Get(fs, q);
    }
  }

  /** A second pass finds nothing to remove. */
  lemma CleaningTwice(fs: Tree, once: Tree, twice: Tree, path: Path)
    requires AllCleaned(fs, once, path) && AllCleaned(once, twice, path)
    ensures forall p :: path <= p ==> LikeOption(Get(once, p), Get(twice, p))
  {
    forall p | path <= p
      ensures LikeOption(Get(once, p), Get(twice, p))
    {
      assert Cleaned(fs, once, p) && Cleaned(once, twice, p);
      if p in once {
        var l :| p <= l && IsLeaf(fs, l);
        LeafHoldsItself(fs, l);
        assert Cleaned(fs, once, l) && IsLeaf(once, l);
        assert HoldsLeaf(once, p);
      }
    }
  }
}
