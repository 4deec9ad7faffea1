/** What the planned outcome of a copy amounts to. */
module CopyTheorems {
  import opened Wrappers
  import opened Paths
  import opened Kernels
  import opened Children
  import opened Conflicts
  import opened Copying

  /** To a free name: an equal tree, down to the mode and time of each directory. */
  lemma CopyToFreeName(policy: ConflictPolicy, fs: Tree, now: Tree, src: Path, dst: Path)
    requires WellFormed(fs) && dst !in fs && Exact(policy, fs, now, src, dst)
    ensures forall p :: dst <= p ==>
      LikeOption(Get(fs, Rebase(dst, src, p)), Get(now, p)) &&
      (p in now && !now[p].Link? ==> Get(now, p) == Get(fs, Rebase(dst, src, p)))
  {
    AbsentBelow(fs, dst);
    forall p | dst <= p
      ensures LikeOption(Get(fs, Rebase(dst, src, p)), Get(now, p))
      ensures p in now && !now[p].Link? ==> Get(now, p) == Get(fs, Rebase(dst, src, p))
    {
      assert Arrived(policy, fs, now, src, dst, p);
    }
  }

  /** Whatever the order of the names, two automatic runs end the same but for the times the kernel stamps. */
  lemma OrderIrrelevant(policy: ConflictPolicy, fs: Tree, now: Tree, now': Tree, src: Path, dst: Path)
    requires dst != [] && Elsewhere(fs, now, dst) && Elsewhere(fs, now', dst)
    requires Exact(policy, fs, now, src, dst) && Exact(policy, fs, now', src, dst)
    ensures forall p :: LikeOption(Get(now, p), Get(now', p))
  {
    forall p
      ensures LikeOption(Get(now, p), Get(now', p))
    {
      if dst <= p {
        assert Arrived(policy, fs, now, src, dst, p) && Arrived(policy, fs, now', src, dst, p);
      }
    }
  }

  /**
   * Replacing everything overwrites leaves and merges directories, but no leaf ever takes the
   * place of a directory with something in it.
   */
  lemma ReplaceAllOutcome(fs: Tree, now: Tree, src: Path, dst: Path, p: Path)
    requires WellFormed(fs) && dst <= p && Exact(ReplaceAll, fs, now, src, dst)
    requires Rebase(dst, src, p) in fs
    ensures IsLeaf(fs, Rebase(dst, src, p)) ==>
      if IsDir(fs, p) && HasChild(fs, p) then LikeOption(Get(fs, p), Get(now, p))
      else LikeOption(Get(fs, Rebase(dst, src, p)), Get(now, p))
    ensures IsDir(fs, Rebase(dst, src, p)) ==>
      IsDir(now, p) && now[p].mode == fs[if IsDir(fs, p) then p else Rebase(dst, src, p)].mode
  {
    assert Arrived(ReplaceAll, fs, now, src, dst, p);
  }

  /**
   * Updating with newer: where a leaf meets something, the later of the two is there in the end,
   * and what was there stays when it was not older. Directories do not ask for their age.
   */
  lemma UpdateNewerOutcome(fs: Tree, now: Tree, src: Path, dst: Path, p: Path)
    requires WellFormed(fs) && dst <= p && Exact(UpdateNewer, fs, now, src, dst)
    requires Rebase(dst, src, p) in fs && p in fs
    ensures var s, d := fs[Rebase(dst, src, p)], fs[p];
            && (!s.Dir? && (s.mtime <= d.mtime || HasChild(fs, p)) ==> Get(now, p) == Some(d))
            && (!s.Dir? && s.mtime > d.mtime && !HasChild(fs, p) ==> LikeOption(Some(s), Get(now, p)))
            && (s.File? && d.File? ==> p in now && now[p].mtime == (if s.mtime > d.mtime then s.mtime else d.mtime))
            && (s.Dir? ==> IsDir(now, p))
  {
    assert Arrived(UpdateNewer, fs, now, src, dst, p);
    if !IsDir(fs, p) {
      AbsentBelow(fs, p);
    }
  }

  /** Skipping what exists: all of it is new, or nothing is changed. */
  lemma SkipExistingOutcome(fs: Tree, now: Tree, src: Path, dst: Path, p: Path)
    requires WellFormed(fs) && dst <= p && Exact(SkipExisting, fs, now, src, dst)
    ensures dst in fs ==> Get(now, p) == Get(fs, p)
    ensures dst !in fs ==> LikeOption(Get(fs, Rebase(dst, src, p)), Get(now, p))
  {
    assert Arrived(SkipExisting, fs, now, src, dst, p);
    if dst !in fs {
      AbsentBelow(fs, dst);
    }
  }

  /**
   * Whatever fails and whatever is answered: what has no counterpart stays, and so does a directory that
   * has something in it or meets another; a leaf that is there in the end was there before or is a copy.
   */
  lemma SafeInAnyRun(fs: Tree, now: Tree, src: Path, dst: Path, p: Path)
    requires dst <= p && AnyRun(fs, now, src, dst)
    ensures Rebase(dst, src, p) !in fs ==> Get(now, p) == Get(fs, p)
    ensures IsDir(fs, p) && (HasChild(fs, p) || IsDir(fs, Rebase(dst, src, p))) ==>
      IsDir(now, p) && now[p].mode == fs[p].mode
    ensures IsLeaf(now, p) ==>
      Get(now, p) == Get(fs, p) || (Rebase(dst, src, p) in fs && Like(fs[Rebase(dst, src, p)], now[p]))
  {
    assert MayBecome(Get(fs, Rebase(dst, src, p)), Get(fs, p), HasChild(fs, p), Get(now, p));
  }

  /** A second run finds nothing more to change. */
  lemma CopyTwice(policy: ConflictPolicy, fs: Tree, once: Tree, twice: Tree, src: Path, dst: Path)
    requires WellFormed(fs) && SameAt(fs, once, src)
    requires Exact(policy, fs, once, src, dst) && Exact(policy, once, twice, src, dst)
    ensures forall p :: dst <= p ==> LikeOption(Get(once, p), Get(twice, p))
  {
    assert Arrived(policy, fs, once, src, dst, dst);
    forall p | dst <= p
      ensures LikeOption(Get(once, p), Get(twice, p))
    {
      var q := Rebase(dst, src, p);
      assert Get(once, q) == Get(fs, q);
      assert Arrived(policy, fs, once, src, dst, p) && Arrived(policy, once, twice, src, dst, p);
      if IsLeaf(fs, q) && HasChild(fs, p) {
        StillNonempty(policy, fs, once, src, dst, p);
      }
      if policy == SkipExisting && dst !in fs && dst !in once {
        NothingWithoutTop(policy, fs, once, src, dst, p);
      }
    }
  }

  lemma StillNonempty(policy: ConflictPolicy, fs: Tree, now: Tree, src: Path, dst: Path, p: Path)
    requires WellFormed(fs) && dst <= p && Exact(policy, fs, now, src, dst)
    requires IsLeaf(fs, Rebase(dst, src, p)) && HasChild(fs, p)
    ensures HasChild(now, p)
  {
    NamesAreChildren(fs, p);
    NamesAreChildren(now, p);
    var n :| n in Names(fs, p);
    RebaseExtend(dst, src, p, n);
    assert Parent(Rebase(dst, src, p) + [n]) == Rebase(dst, src, p);
    assert Arrived(policy, fs, now, src, dst, p + [n]);
  }

  lemma NothingWithoutTop(policy: ConflictPolicy, fs: Tree, now: Tree, src: Path, dst: Path, p: Path)
    requires WellFormed(fs) && dst <= p && dst !in fs && dst !in now && Exact(policy, fs, now, src, dst)
    ensures Rebase(dst, src, p) !in fs
  {
    assert Rebase(dst, src, dst) == src;
    assert Arrived(policy, fs, now, src, dst, dst);
    if Rebase(dst, src, p) in fs && p != dst {
      AncestorIsDir(fs, src, Rebase(dst, src, p));
    }
  }

  /** A tree as one value; directories and links without the times the kernel stamps. */
  datatype FileTree =
    | Plain(content: string, mode: Mode, mtime: int)
    | Symbolic(target: string)
    | Folder(mode: Mode, entries: map<Name, FileTree>)

  function TreeAt(fs: Tree, p: Path): FileTree
    requires p in fs
    decreases Below(fs, p)
  {
    match fs[p]
    case File(content, mode, mtime) => Plain(content, mode, mtime)
    case Link(target, _) => Symbolic(target)
    case Dir(mode, _) =>
      NamesAreChildren(fs, p);
      assert p in Below(fs, p);
      Folder(mode, map n | n in Names(fs, p) ::
        (assert p !in Below(fs, p + [n]); TreeAt(fs, p + [n])))
  }

  /** Replacing everything, on whole trees. */
  function Merged(s: FileTree, d: FileTree): FileTree
    decreases s
  {
    if s.Folder? && d.Folder? then
      Folder(d.mode, map n | n in s.entries.Keys + d.entries.Keys ::
        if n !in s.entries then d.entries[n]
        else if n !in d.entries then s.entries[n]
        else Merged(s.entries[n], d.entries[n]))
    else if d.Folder? && d.entries != map[] then d
    else s
  }

  ghost predicate SameShape(fs: Tree, src: Path, now: Tree, dst: Path) {
    forall p :: dst <= p ==> LikeOption(Get(fs, Rebase(dst, src, p)), Get(now, p))
  }

  lemma SameShapeNames(fs: Tree, src: Path, now: Tree, dst: Path)
    requires SameShape(fs, src, now, dst)
    ensures Names(now, dst) == Names(fs, src)
    ensures forall n :: SameShape(fs, src + [n], now, dst + [n])
  {
    NamesAreChildren(fs, src);
    NamesAreChildren(now, dst);
    forall n: Name
      ensures n in Names(now, dst) <==> n in Names(fs, src)
    {
      assert Rebase(dst, src, dst + [n]) == src + [n];
      assert LikeOption(Get(fs, src + [n]), Get(now, dst + [n]));
    }
    forall n, p | dst + [n] <= p
      ensures LikeOption(Get(fs, Rebase(dst + [n], src + [n], p)), Get(now, p))
    {
      RebaseChild(dst, src, n, p);
    }
  }

  lemma {:induction false} SameShapeSameTree(fs: Tree, src: Path, now: Tree, dst: Path)
    requires src in fs && SameShape(fs, src, now, dst)
    ensures dst in now && TreeAt(now, dst) == TreeAt(fs, src)
    decreases Below(fs, src)
  {
    assert Rebase(dst, src, dst) == src;
    SameShapeNames(fs, src, now, dst);
    NamesAreChildren(fs, src);
    NamesAreChildren(now, dst);
    forall n | n in Names(fs, src)
      ensures dst + [n] in now && TreeAt(now, dst + [n]) == TreeAt(fs, src + [n])
    {
      BelowShrinks(fs, fs, src, n);
      SameShapeSameTree(fs, src + [n], now, dst + [n]);
    }
  }

  lemma ExactChild(fs: Tree, now: Tree, src: Path, dst: Path, n: Name)
    requires Exact(ReplaceAll, fs, now, src, dst)
    ensures Exact(ReplaceAll, fs, now, src + [n], dst + [n])
  {
    forall p | dst + [n] <= p
      ensures Arrived(ReplaceAll, fs, now, src + [n], dst + [n], p)
    {
      RebaseChild(dst, src, n, p);
      assert Arrived(ReplaceAll, fs, now, src, dst, p);
    }
  }

  /** Below a leaf of the source, or where it has nothing, the destination is as it was. */
  lemma NothingArrives(fs: Tree, now: Tree, src: Path, dst: Path)
    requires WellFormed(fs) && Exact(ReplaceAll, fs, now, src, dst)
    requires src !in fs || (IsLeaf(fs, src) && IsDir(fs, dst) && HasChild(fs, dst))
    ensures SameShape(fs, dst, now, dst)
  {
    assert Rebase(dst, src, dst) == src;
    forall p | dst <= p
      ensures LikeOption(Get(fs, Rebase(dst, dst, p)), Get(now, p))
    {
      assert Rebase(dst, dst, p) == p;
      assert Arrived(ReplaceAll, fs, now, src, dst, p);
      if Rebase(dst, src, p) in fs && p != dst {
        AncestorIsDir(fs, src, Rebase(dst, src, p));
      }
    }
  }

  lemma MergedNames(fs: Tree, now: Tree, src: Path, dst: Path)
    requires Exact(ReplaceAll, fs, now, src, dst)
    ensures Names(now, dst) == Names(fs, src) + Names(fs, dst)
  {
    NamesAreChildren(fs, src);
    NamesAreChildren(fs, dst);
    NamesAreChildren(now, dst);
    forall n: Name
      ensures n in Names(now, dst) <==> n in Names(fs, src) + Names(fs, dst)
    {
      assert Rebase(dst, src, dst + [n]) == src + [n];
      assert Arrived(ReplaceAll, fs, now, src, dst, dst + [n]);
    }
  }

  lemma TreeEntries(fs: Tree, p: Path)
    requires IsDir(fs, p)
    ensures TreeAt(fs, p).Folder? && TreeAt(fs, p).mode == fs[p].mode && TreeAt(fs, p).entries.Keys == Names(fs, p)
    ensures forall n :: n in Names(fs, p) ==> p + [n] in fs && TreeAt(fs, p).entries[n] == TreeAt(fs, p + [n])
  {
    NamesAreChildren(fs, p);
  }

  function MergedEntry(fs: Tree, src: Path, dst: Path, n: Name): FileTree
    requires src + [n] in fs || dst + [n] in fs
  {
    if src + [n] !in fs then TreeAt(fs, dst + [n])
    else if dst + [n] !in fs then TreeAt(fs, src + [n])
    else Merged(TreeAt(fs, src + [n]), TreeAt(fs, dst + [n]))
  }

  lemma {:induction false} FolderMerges(fs: Tree, now: Tree, src: Path, dst: Path)
    requires IsDir(fs, src) && IsDir(fs, dst) && IsDir(now, dst) && fs[dst].mode == now[dst].mode
    requires Names(now, dst) == Names(fs, src) + Names(fs, dst)
    requires forall n :: n in Names(now, dst) ==>
      dst + [n] in now && (src + [n] in fs || dst + [n] in fs) &&
      TreeAt(now, dst + [n]) == MergedEntry(fs, src, dst, n)
    ensures TreeAt(now, dst) == Merged(TreeAt(fs, src), TreeAt(fs, dst))
  {
    NamesAreChildren(fs, src);
    NamesAreChildren(fs, dst);
    TreeEntries(fs, src);
    TreeEntries(fs, dst);
    TreeEntries(now, dst);
    var s, d, m := TreeAt(fs, src), TreeAt(fs, dst), TreeAt(now, dst);
    forall n | n in m.entries
      ensures m.entries[n] ==
        if n !in s.entries then d.entries[n]
        else if n !in d.entries then s.entries[n]
        else Merged(s.entries[n], d.entries[n])
    {
      assert m.entries[n] == MergedEntry(fs, src, dst, n);
    }
    FoldersMerge(s, d, m);
  }

  lemma {:induction false} FoldersMerge(s: FileTree, d: FileTree, m: FileTree)
    requires s.Folder? && d.Folder? && m.Folder? && m.mode == d.mode
    requires m.entries.Keys == s.entries.Keys + d.entries.Keys
    requires forall n :: n in m.entries ==>
      m.entries[n] == (if n !in s.entries then d.entries[n]
                       else if n !in d.entries then s.entries[n]
                       else Merged(s.entries[n], d.entries[n]))
    ensures m == Merged(s, d)
  {
    assert m.entries == Merged(s, d).entries;
  }

  /** Copying step by step is merging trees. */
  lemma {:induction false} CopyMergesTrees(fs: Tree, now: Tree, src: Path, dst: Path)
    requires WellFormed(fs) && src in fs && Exact(ReplaceAll, fs, now, src, dst)
    ensures dst in now
    ensures TreeAt(now, dst) ==
      if dst in fs then Merged(TreeAt(fs, src), TreeAt(fs, dst)) else TreeAt(fs, src)
    decreases Below(fs, src)
  {
    assert Rebase(dst, src, dst) == src;
    assert Arrived(ReplaceAll, fs, now, src, dst, dst);
    if dst !in fs {
      CopyToFreeName(ReplaceAll, fs, now, src, dst);
      SameShapeSameTree(fs, src, now, dst);
    } else if IsDir(fs, src) && IsDir(fs, dst) {
      MergedNames(fs, now, src, dst);
      NamesAreChildren(fs, src);
      NamesAreChildren(fs, dst);
      forall n | n in Names(now, dst)
        ensures dst + [n] in now && TreeAt(now, dst + [n]) == MergedEntry(fs, src, dst, n)
      {
        ExactChild(fs, now, src, dst, n);
        if n in Names(fs, src) {
          BelowShrinks(fs, fs, src, n);
          CopyMergesTrees(fs, now, src + [n], dst + [n]);
        } else {
          NothingArrives(fs, now, src + [n], dst + [n]);
          SameShapeSameTree(fs, dst + [n], now, dst + [n]);
        }
      }
      FolderMerges(fs, now, src, dst);
    } else {
      LeafMerges(fs, now, src, dst);
    }
  }

  lemma LeafMerges(fs: Tree, now: Tree, src: Path, dst: Path)
    requires WellFormed(fs) && src in fs && dst in fs && Exact(ReplaceAll, fs, now, src, dst)
    requires !(IsDir(fs, src) && IsDir(fs, dst))
    ensures dst in now && TreeAt(now, dst) == Merged(TreeAt(fs, src), TreeAt(fs, dst))
  {
    if IsDir(fs, dst) && HasChild(fs, dst) {
      NothingArrives(fs, now, src, dst);
      SameShapeSameTree(fs, dst, now, dst);
      TreeEntries(fs, dst);
    } else {
      if IsDir(fs, dst) {
        EmptyBelow(fs, dst);
        TreeEntries(fs, dst);
      } else {
        AbsentBelow(fs, dst);
      }
      forall p | dst <= p
        ensures LikeOption(Get(fs, Rebase(dst, src, p)), Get(now, p))
      {
        assert Rebase(dst, src, dst) == src;
        assert Arrived(ReplaceAll, fs, now, src, dst, p);
      }
      SameShapeSameTree(fs, src, now, dst);
    }
  }
}
