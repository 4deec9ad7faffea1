/** What the planned outcome of a move amounts to, without the rule by which it was planned. */
module MoveTheorems {
  import opened Wrappers
  import opened Paths
  import opened Kernels
  import opened Children
  import opened Conflicts
  import opened Moving

  /** To a free name: everything is there as it was, and nothing is left behind. */
  lemma MoveToFreeName(policy: ConflictPolicy, fs: Tree, now: Tree, src: Path, dst: Path, q: Path)
    requires WellFormed(fs) && src <= q && dst !in fs && Exact(policy, fs, now, src, dst)
    ensures q !in now && Get(now, Rebase(src, dst, q)) == Get(fs, q)
  {
    assert Moved(policy, fs, now, src, dst, q, {});
    AbsentBelow(fs, dst);
    assert dst <= Rebase(src, dst, q);
  }

  /**
   * Whatever fails and whatever is answered: where nothing is to be moved nothing changes, directories
   * that meet stay or leave only the source's place, and any other directory is at one of its two places.
   */
  lemma SafeInAnyMove(fs: Tree, now: Tree, src: Path, dst: Path, q: Path)
    requires AnyMove(fs, now, src, dst) && src <= q
    ensures var p := Rebase(src, dst, q);
            && (q !in fs ==> q !in now && Get(now, p) == Get(fs, p))
            && (IsDir(fs, q) && IsDir(fs, p) ==>
                 IsDir(now, p) && now[p].mode == fs[p].mode &&
                 (q in now ==> IsDir(now, q) && now[q].mode == fs[q].mode))
            && (IsDir(fs, q) && !IsDir(fs, p) ==>
                 Get(now, q) == Get(fs, q) || (q !in now && Get(now, p) == Get(fs, q)))
  {
    assert Conserves(fs, now, src, dst, q);
  }

  /**
   * Updating with newer: where a leaf meets something, the later of the two is there in the end;
   * the older one is gone if it was there, and left at the source if it was not to be moved.
   */
  lemma UpdateNewerMoves(fs: Tree, now: Tree, src: Path, dst: Path, q: Path)
    requires WellFormed(fs) && src <= q && Exact(UpdateNewer, fs, now, src, dst)
    requires IsLeaf(fs, q) && Rebase(src, dst, q) in fs
    ensures var p := Rebase(src, dst, q);
            var s, d := fs[q], fs[p];
            && (s.mtime <= d.mtime || HasChild(fs, p) ==> Get(now, q) == Some(s) && Get(now, p) == Some(d))
            && (s.mtime > d.mtime && !HasChild(fs, p) ==> q !in now && Get(now, p) == Some(s))
            && (!d.Dir? ==> p in now && now[p].mtime == (if s.mtime > d.mtime then s.mtime else d.mtime))
  {
    assert Moved(UpdateNewer, fs, now, src, dst, q, {});
    if !IsDir(fs, Rebase(src, dst, q)) {
      AbsentBelow(fs, Rebase(src, dst, q));
    }
  }

  /** Replacing everything: no leaf is left behind but where a directory with something in it stands. */
  lemma ReplaceAllMoves(fs: Tree, now: Tree, src: Path, dst: Path, q: Path)
    requires WellFormed(fs) && src <= q && IsLeaf(fs, q) && Exact(ReplaceAll, fs, now, src, dst)
    ensures var p := Rebase(src, dst, q);
            if HasChild(fs, p) then Get(now, q) == Get(fs, q) && Get(now, p) == Get(fs, p)
            else q !in now && Get(now, p) == Get(fs, q)
  {
    assert Moved(ReplaceAll, fs, now, src, dst, q, {});
    if !IsDir(fs, Rebase(src, dst, q)) {
      AbsentBelow(fs, Rebase(src, dst, q));
    }
  }

  /** Skipping what exists: everything is moved, or nothing is changed. */
  lemma SkipExistingMoves(fs: Tree, now: Tree, src: Path, dst: Path, q: Path)
    requires WellFormed(fs) && src <= q && Exact(SkipExisting, fs, now, src, dst)
    ensures dst in fs ==> Get(now, q) == Get(fs, q) && Get(now, Rebase(src, dst, q)) == Get(fs, Rebase(src, dst, q))
    ensures dst !in fs ==> q !in now && Get(now, Rebase(src, dst, q)) == Get(fs, q)
  {
    assert Moved(SkipExisting, fs, now, src, dst, q, {});
    if dst !in fs {
      MoveToFreeName(SkipExisting, fs, now, src, dst, q);
    }
  }

  /** Directories that meet become one, whatever their age: it keeps the mode of the one that was there. */
  lemma DirectoriesMeet(policy: ConflictPolicy, fs: Tree, now: Tree, src: Path, dst: Path, q: Path)
    requires policy != SkipExisting && src <= q && Exact(policy, fs, now, src, dst)
    requires IsDir(fs, q) && IsDir(fs, Rebase(src, dst, q))
    ensures IsDir(now, Rebase(src, dst, q)) && now[Rebase(src, dst, q)].mode == fs[Rebase(src, dst, q)].mode
  {
    assert Moved(policy, fs, now, src, dst, q, {});
  }
}
