/** Copying one selected path with the classic engine. */
module Copying {
  import opened Wrappers
  import opened Paths
  import opened Kernels
  import opened Children
  import opened Conflicts

  /**
   * What an automatic policy leaves at `p`, a path at or below `dst`: a rule for each path
   * on its own, with no order of steps in it. A directory that had to be made is the
   * source's to the bit and second.
   */
  predicate Arrived(policy: ConflictPolicy, fs: Tree, now: Tree, src: Path, dst: Path, p: Path)
    requires dst <= p
  {
    var s, d, a := Get(fs, Rebase(dst, src, p)), Get(fs, p), Get(now, p);
    if s == None || (policy == SkipExisting && dst in fs) || !Goes(policy, s.value, d, HasChild(fs, p)) then
      a == d
    else if Merges(s.value, d) then
      LikeOption(d, a)
    else
      LikeOption(s, a) && (s.value.Dir? ==> a == s)
  }

  ghost predicate Exact(policy: ConflictPolicy, fs: Tree, now: Tree, src: Path, dst: Path) {
    forall p :: dst <= p ==> Arrived(policy, fs, now, src, dst, p)
  }

  /** `p` is, or lies in, something that stood below `dst` and has been left alone as a whole. */
  ghost predicate LeftAlone(fs: Tree, now: Tree, dst: Path, p: Path) {
    exists r :: dst <= r && r != dst && r <= p && r in fs && SameAt(fs, now, r)
  }

  ghost predicate Settled(policy: ConflictPolicy, fs: Tree, now: Tree, src: Path, dst: Path, p: Path,
                          before: multiset<Path>, denied: multiset<Path>, skipping: bool)
    requires dst <= p
  {
    || Declined(before, denied, p)
    || Arrived(policy, fs, now, src, dst, p)
    || (skipping && LeftAlone(fs, now, dst, p))
  }

  /**
   * Exactly the plan, but for the places the user has said no to since `before` and, when the
   * answer to one question was to skip everything that exists, for what was left alone then.
   */
  ghost predicate ExactBut(policy: ConflictPolicy, fs: Tree, now: Tree, src: Path, dst: Path,
                           before: multiset<Path>, denied: multiset<Path>, skipping: bool)
  {
    forall p :: dst <= p ==> Settled(policy, fs, now, src, dst, p, before, denied, skipping)
  }

  /** Who says no to nothing gets everything. */
  lemma NothingDeclined(policy: ConflictPolicy, fs: Tree, now: Tree, src: Path, dst: Path, denied: multiset<Path>)
    ensures ExactBut(policy, fs, now, src, dst, denied, denied, false) <==> Exact(policy, fs, now, src, dst)
  {
    forall p | dst <= p
      ensures Settled(policy, fs, now, src, dst, p, denied, denied, false) <==> Arrived(policy, fs, now, src, dst, p)
    {
    }
  }

  /** What had nothing in its way has arrived. */
  lemma FreeArrives(policy: ConflictPolicy, fs: Tree, now: Tree, src: Path, dst: Path, p: Path,
                    before: multiset<Path>, denied: multiset<Path>, skipping: bool)
    requires ExactBut(policy, fs, now, src, dst, before, denied, skipping) && dst <= p
    requires !Declined(before, denied, p) && forall r :: dst <= r && r != dst && r <= p ==> r !in fs
    ensures Arrived(policy, fs, now, src, dst, p)
  {
    assert Settled(policy, fs, now, src, dst, p, before, denied, skipping);
  }

  /**
   * What any run may do to one destination path: nothing, or merge into the directory
   * there, or put a copy of its counterpart there, or lose it between clearing the way
   * and a copy that fails. Without a counterpart, or as a directory with something in it,
   * it is safe.
   */
  predicate MayBecome(s: Option<Node>, d: Option<Node>, nonempty: bool, a: Option<Node>) {
    || a == d
    || (s.Some? && Merges(s.value, d) && LikeOption(d, a))
    || (s.Some? && !Merges(s.value, d) && !(d.Some? && nonempty) &&
        (a == None || (s.value.Dir? && a.value.Dir?) || LikeOption(s, a)))
  }

  ghost predicate AnyRun(fs: Tree, now: Tree, src: Path, dst: Path) {
    forall p :: dst <= p ==>
      MayBecome(Get(fs, Rebase(dst, src, p)), Get(fs, p), HasChild(fs, p), Get(now, p))
  }

  ghost predicate PartExact(policy: ConflictPolicy, fs: Tree, now: Tree, src: Path, dst: Path, done: set<Name>,
                            before: multiset<Path>, denied: multiset<Path>, skipping: bool)
  {
    forall p :: dst <= p && p != dst && p[|dst|] in done ==>
      Settled(policy, fs, now, src, dst, p, before, denied, skipping)
  }

  ghost predicate PartAny(fs: Tree, now: Tree, src: Path, dst: Path, done: set<Name>) {
    forall p :: dst <= p && p != dst && p[|dst|] in done ==>
      MayBecome(Get(fs, Rebase(dst, src, p)), Get(fs, p), HasChild(fs, p), Get(now, p))
  }

  ghost predicate Waiting(fs: Tree, now: Tree, dst: Path, done: set<Name>) {
    forall p :: dst <= p && p != dst && p[|dst|] !in done ==> Get(now, p) == Get(fs, p)
  }

  /** One child copied: its subtree is settled, the other children wait as they were. */
  lemma StepAny(fs: Tree, mid: Tree, now: Tree, src: Path, dst: Path, done: set<Name>, n: Name)
    requires PartAny(fs, mid, src, dst, done) && Waiting(fs, mid, dst, done) && n !in done
    requires SameAt(fs, mid, src)
    requires AnyRun(mid, now, src + [n], dst + [n]) && Elsewhere(mid, now, dst + [n])
    ensures PartAny(fs, now, src, dst, done + {n}) && Waiting(fs, now, dst, done + {n})
  {
    forall p | dst <= p && p != dst
      ensures p[|dst|] !in done + {n} ==> Get(now, p) == Get(fs, p)
      ensures p[|dst|] in done + {n} ==>
        MayBecome(Get(fs, Rebase(dst, src, p)), Get(fs, p), HasChild(fs, p), Get(now, p))
    {
      assert Parent(dst + [n]) == dst;
      if p[|dst|] == n {
        assert dst + [n] <= p;
        RebaseChild(dst, src, n, p);
        NamesAgree(fs, mid, p);
      } else {
        assert !(dst + [n] <= p);
        assert Get(now, p) == Get(mid, p);
      }
    }
  }

  lemma StepExact(policy: ConflictPolicy, fs: Tree, mid: Tree, now: Tree, src: Path, dst: Path,
                  done: set<Name>, n: Name, before: multiset<Path>, then_: multiset<Path>, denied: multiset<Path>,
                  skipped: bool, skipping: bool)
    requires PartExact(policy, fs, mid, src, dst, done, before, then_, skipped) && before <= then_ <= denied
    requires Waiting(fs, mid, dst, done) && n !in done && SameAt(fs, mid, src)
    requires policy == SkipExisting ==> !IsDir(fs, dst) && WellFormed(fs) && dst !in fs
    requires skipped ==> skipping
    requires ExactBut(policy, mid, now, src + [n], dst + [n], then_, denied, skipping)
             || (skipped && WellFormed(mid) &&
                 ExactBut(SkipExisting, mid, now, src + [n], dst + [n], then_, denied, false))
    requires Elsewhere(mid, now, dst + [n]) && Honoured(mid, now, dst + [n], then_, denied)
    ensures PartExact(policy, fs, now, src, dst, done + {n}, before, denied, skipping)
  {
    forall p | dst <= p && p != dst && p[|dst|] in done + {n}
      ensures Settled(policy, fs, now, src, dst, p, before, denied, skipping)
    {
      if Declined(before, then_, p) || Declined(then_, denied, p) {
        DeclinedLater(before, then_, denied, p);
      } else if p[|dst|] != n {
        assert Settled(policy, fs, mid, src, dst, p, before, then_, skipped);
        if Arrived(policy, fs, mid, src, dst, p) {
          StepArrived(policy, fs, mid, now, src, dst, done, n, p);
        } else {
          LeftElsewhere(fs, mid, now, dst, n, p);
        }
      } else {
        assert dst + [n] <= p;
        if ExactBut(policy, mid, now, src + [n], dst + [n], then_, denied, skipping) {
          assert Settled(policy, mid, now, src + [n], dst + [n], p, then_, denied, skipping);
        } else {
          Skipped(policy, fs, mid, now, src, dst, done, n, p, then_, denied);
        }
        if Arrived(policy, mid, now, src + [n], dst + [n], p) {
          StepArrived(policy, fs, mid, now, src, dst, done, n, p);
        } else if LeftAlone(mid, now, dst + [n], p) {
          LeftBelow(fs, mid, now, dst, done, n, p);
        }
      }
    }
  }

  /** What was left alone under another child still is. */
  lemma LeftElsewhere(fs: Tree, mid: Tree, now: Tree, dst: Path, n: Name, p: Path)
    requires dst <= p && p != dst && p[|dst|] != n && Elsewhere(mid, now, dst + [n]) && LeftAlone(fs, mid, dst, p)
    ensures LeftAlone(fs, now, dst, p)
  {
    var r :| dst <= r && r != dst && r <= p && r in fs && SameAt(fs, mid, r);
    assert Parent(dst + [n]) == dst && r[|dst|] == p[|dst|];
    forall q | r <= q
      ensures Get(now, q) == Get(fs, q)
    {
      assert q[|dst|] != n && Get(mid, q) == Get(fs, q);
    }
  }

  lemma LeftBelow(fs: Tree, mid: Tree, now: Tree, dst: Path, done: set<Name>, n: Name, p: Path)
    requires Waiting(fs, mid, dst, done) && n !in done && LeftAlone(mid, now, dst + [n], p)
    ensures LeftAlone(fs, now, dst, p)
  {
    var r :| dst + [n] <= r && r != dst + [n] && r <= p && r in mid && SameAt(mid, now, r);
    SameWaiting(fs, mid, now, dst, done, n, r);
  }

  lemma SameWaiting(fs: Tree, mid: Tree, now: Tree, dst: Path, done: set<Name>, n: Name, r: Path)
    requires Waiting(fs, mid, dst, done) && n !in done && dst + [n] <= r && r in mid && SameAt(mid, now, r)
    ensures dst <= r && r != dst && r in fs && SameAt(fs, now, r)
  {
    assert forall q :: r <= q ==> dst <= q && q != dst && q[|dst|] == n;
    assert Get(mid, r) == Get(fs, r);
  }

  /** With the policy to skip what exists, a child is left alone as a whole or everything is free. */
  lemma Skipped(policy: ConflictPolicy, fs: Tree, mid: Tree, now: Tree, src: Path, dst: Path, done: set<Name>,
                n: Name, p: Path, then_: multiset<Path>, denied: multiset<Path>)
    requires Waiting(fs, mid, dst, done) && n !in done && WellFormed(mid) && dst + [n] <= p
    requires ExactBut(SkipExisting, mid, now, src + [n], dst + [n], then_, denied, false)
    requires Honoured(mid, now, dst + [n], then_, denied) && !Declined(then_, denied, p)
    ensures Arrived(policy, mid, now, src + [n], dst + [n], p) || LeftAlone(fs, now, dst, p)
  {
    assert Settled(SkipExisting, mid, now, src + [n], dst + [n], p, then_, denied, false);
    if dst + [n] in mid {
      forall q | dst + [n] <= q
        ensures Get(now, q) == Get(mid, q)
      {
        assert Settled(SkipExisting, mid, now, src + [n], dst + [n], q, then_, denied, false);
      }
      SameWaiting(fs, mid, now, dst, done, n, dst + [n]);
    } else {
      AbsentBelow(mid, dst + [n]);
    }
  }

  lemma StepArrived(policy: ConflictPolicy, fs: Tree, mid: Tree, now: Tree, src: Path, dst: Path,
                    done: set<Name>, n: Name, p: Path)
    requires Waiting(fs, mid, dst, done) && n !in done && SameAt(fs, mid, src) && Elsewhere(mid, now, dst + [n])
    requires policy == SkipExisting ==> !IsDir(fs, dst) && WellFormed(fs) && dst !in fs
    requires dst <= p && p != dst && p[|dst|] in done + {n}
    requires if p[|dst|] == n then dst + [n] <= p && Arrived(policy, mid, now, src + [n], dst + [n], p)
             else Arrived(policy, fs, mid, src, dst, p)
    ensures Arrived(policy, fs, now, src, dst, p)
  {
    assert Parent(dst + [n]) == dst;
    if p[|dst|] == n {
      RebaseChild(dst, src, n, p);
      NamesAgree(fs, mid, p);
      if policy == SkipExisting {
        AbsentBelow(fs, dst);
        assert Get(mid, dst + [n]) == Get(fs, dst + [n]);
      }
    } else {
      assert !(dst + [n] <= p);
      assert Get(now, p) == Get(mid, p);
    }
  }

  lemma NoCounterpart(fs: Tree, src: Path, dst: Path, p: Path)
    requires WellFormed(fs) && dst <= p && p != dst && p[|dst|] !in Names(fs, src)
    ensures Rebase(dst, src, p) !in fs
  {
    ChildMissing(fs, src, Rebase(dst, src, p));
  }

  lemma WholeAny(fs: Tree, now: Tree, src: Path, dst: Path, done: set<Name>)
    requires WellFormed(fs)
    requires PartAny(fs, now, src, dst, done) && Waiting(fs, now, dst, done)
    requires MayBecome(Get(fs, src), Get(fs, dst), HasChild(fs, dst), Get(now, dst))
    ensures AnyRun(fs, now, src, dst)
  {
    forall p | dst <= p
      ensures MayBecome(Get(fs, Rebase(dst, src, p)), Get(fs, p), HasChild(fs, p), Get(now, p))
    {
      assert p == dst ==> Rebase(dst, src, p) == src;
    }
  }

  lemma WholeExact(policy: ConflictPolicy, fs: Tree, now: Tree, src: Path, dst: Path, done: set<Name>,
                   before: multiset<Path>, denied: multiset<Path>, skipping: bool)
    requires WellFormed(fs) && Names(fs, src) <= done
    requires PartExact(policy, fs, now, src, dst, done, before, denied, skipping) && Waiting(fs, now, dst, done)
    requires Arrived(policy, fs, now, src, dst, dst)
    ensures ExactBut(policy, fs, now, src, dst, before, denied, skipping)
  {
    forall p | dst <= p
      ensures Settled(policy, fs, now, src, dst, p, before, denied, skipping)
    {
      if p != dst && p[|dst|] !in done {
        NoCounterpart(fs, src, dst, p);
      }
    }
  }

  lemma BelowShrinks(fs: Tree, now: Tree, p: Path, n: Name)
    requires SameAt(fs, now, p) && p in fs
    ensures Below(now, p + [n]) < Below(fs, p)
  {
    BelowAgrees(fs, now, p);
    assert p in Below(fs, p) && p !in Below(now, p + [n]);
  }

  /** Where a walk over the contents stands, the names in `done` being settled. */
  ghost predicate Progress(fs: Tree, before: Tree, now: Tree, src: Path, dst: Path, done: set<Name>) {
    && LikeOption(Get(before, dst), Get(now, dst))
    && (forall q :: !(dst <= q) ==> Get(now, q) == Get(before, q))
    && SameAt(fs, now, src)
    && PartAny(fs, now, src, dst, done)
    && Waiting(fs, now, dst, done)
  }

  lemma StepProgress(fs: Tree, before: Tree, mid: Tree, now: Tree, src: Path, dst: Path, done: set<Name>, n: Name)
    requires Progress(fs, before, mid, src, dst, done) && n !in done && Disjoint(src, dst)
    requires AnyRun(mid, now, src + [n], dst + [n]) && Elsewhere(mid, now, dst + [n])
    ensures Progress(fs, before, now, src, dst, done + {n})
  {
    StepAny(fs, mid, now, src, dst, done, n);
    assert Parent(dst + [n]) == dst;
    forall q | !(dst <= q)
      ensures Get(now, q) == Get(before, q)
    {
      assert !(dst + [n] <= q);
    }
    forall q | src <= q
      ensures Get(now, q) == Get(fs, q)
    {
      NotBoth(src, dst, q);
    }
  }

  /** A no is honoured while the walk goes on elsewhere. */
  ghost predicate PartHonoured(fs: Tree, now: Tree, dst: Path, done: set<Name>, before: multiset<Path>,
                               denied: multiset<Path>)
  {
    before <= denied &&
    forall r :: Added(before, denied, r) ==> dst <= r && r != dst && r[|dst|] in done && SameAt(fs, now, r)
  }

  lemma StepHonoured(fs: Tree, mid: Tree, now: Tree, dst: Path, done: set<Name>, n: Name,
                     before: multiset<Path>, then_: multiset<Path>, denied: multiset<Path>)
    requires PartHonoured(fs, mid, dst, done, before, then_) && n !in done && Waiting(fs, mid, dst, done)
    requires Elsewhere(mid, now, dst + [n]) && Honoured(mid, now, dst + [n], then_, denied)
    ensures PartHonoured(fs, now, dst, done + {n}, before, denied)
  {
    assert Parent(dst + [n]) == dst;
    forall r | Added(before, denied, r)
      ensures dst <= r && r != dst && r[|dst|] in done + {n} && SameAt(fs, now, r)
    {
      if Added(before, then_, r) {
        assert SameAt(fs, mid, r);
        forall q | r <= q
          ensures Get(now, q) == Get(fs, q)
        {
          assert q[|dst|] == r[|dst|] && !(dst + [n] <= q);
        }
      } else {
        assert Added(then_, denied, r);
        forall q | r <= q
          ensures Get(now, q) == Get(fs, q)
        {
          assert q[|dst|] == n;
        }
      }
    }
  }

  /** All that is known of a walk over the contents of a directory. */
  ghost predicate Walking(k: Kernel, c: Child, fs: Tree, before: Tree, src: Path, dst: Path, done: set<Name>,
                          asked: multiset<Path>, policy: ConflictPolicy)
    reads k, c
  {
    && k.Valid() && c.actionLeaf == None && IsDir(k.nodes, dst)
    && Progress(fs, before, k.nodes, src, dst, done)
    && PartHonoured(fs, k.nodes, dst, done, asked, c.denied)
    && (WhenAgreed(c.conflictPolicy) == policy || (c.conflictPolicy == SkipExisting && c.denied != asked))
    && (k.Reliable() ==>
         PartExact(policy, fs, k.nodes, src, dst, done, asked, c.denied, WhenAgreed(c.conflictPolicy) != policy))
  }

  method CopyEntry(k: Kernel, c: Child, src: Path, dst: Path, n: Name, ghost fs: Tree, ghost before: Tree,
                   ghost done: set<Name>, ghost asked: multiset<Path>, ghost policy: ConflictPolicy)
    requires Disjoint(src, dst) && n !in done && Walking(k, c, fs, before, src, dst, done, asked, policy)
    requires k.Reliable() && policy == SkipExisting ==> WellFormed(fs) && dst !in fs
    modifies k, c
    decreases Below(k.nodes, src + [n]), 5
    ensures Walking(k, c, fs, before, src, dst, done + {n}, asked, policy)
    ensures old(c.Unattended()) ==> c.Unattended() && c.denied == old(c.denied)
  {
    ghost var mid, then_, skipped := k.nodes, c.denied, WhenAgreed(c.conflictPolicy) != policy;
    ChildrenDisjoint(src, dst, n);
    DoCopy2(k, c, src + [n], dst);
    StepProgress(fs, before, mid, k.nodes, src, dst, done, n);
    StepHonoured(fs, mid, k.nodes, dst, done, n, asked, then_, c.denied);
    if k.Reliable() {
      StepExact(policy, fs, mid, k.nodes, src, dst, done, n, asked, then_, c.denied,
                skipped, WhenAgreed(c.conflictPolicy) != policy);
    }
  }

  /** `for_dir_contents`: the names are read first and then handled last name first. */
  method CopyContents(k: Kernel, c: Child, src: Path, dst: Path, ghost fs: Tree)
    returns (ghost done: set<Name>)
    requires k.Valid() && IsDir(k.nodes, src) && IsDir(k.nodes, dst) && Disjoint(src, dst)
    requires c.actionLeaf == None && Progress(fs, k.nodes, k.nodes, src, dst, {})
    requires k.Reliable() && c.conflictPolicy == SkipExisting ==> WellFormed(fs) && dst !in fs
    modifies k, c
    decreases Below(k.nodes, src), 0
    ensures k.Valid() && c.actionLeaf == None
    ensures Progress(fs, old(k.nodes), k.nodes, src, dst, done)
    ensures PartHonoured(fs, k.nodes, dst, done, old(c.denied), c.denied)
    ensures old(c.Unattended()) ==> c.Unattended() && c.denied == old(c.denied)
    ensures StaysOrSkips(old(c.conflictPolicy), c.conflictPolicy)
    ensures c.denied == old(c.denied) ==> WhenAgreed(c.conflictPolicy) == WhenAgreed(old(c.conflictPolicy))
    ensures k.Reliable() ==>
      done == Names(fs, src) &&
      PartExact(WhenAgreed(old(c.conflictPolicy)), fs, k.nodes, src, dst, done, old(c.denied), c.denied,
                WhenAgreed(c.conflictPolicy) != WhenAgreed(old(c.conflictPolicy)))
  {
    ghost var policy, before, asked := WhenAgreed(c.conflictPolicy), k.nodes, c.denied;
    done := {};
    NamesAgree(fs, before, src);
    var names := k.ReadDir(src);
    if names == None {
      return;
    }
    var i := |names.value|;
    while i > 0
      invariant 0 <= i <= |names.value|
      invariant forall n :: n in Names(fs, src) <==> n in done || n in names.value[..i]
      invariant forall n :: n in names.value[..i] ==> n !in done
      invariant Walking(k, c, fs, before, src, dst, done, asked, policy)
      invariant old(c.Unattended()) ==> c.Unattended() && c.denied == asked
    {
      i := i - 1;
      BelowShrinks(before, k.nodes, src, names.value[i]);
      CopyEntry(k, c, src, dst, names.value[i], fs, before, done, asked, policy);
      done := done + {names.value[i]};
      NamesSplit(names.value, i);
    }
  }

  lemma MadeProgress(fs: Tree, cleared: Tree, made: Tree, src: Path, dst: Path)
    requires dst != [] && Disjoint(src, dst) && Cleared(fs, cleared, dst)
    requires made == cleared || (dst !in cleared && exists node, t :: made == Adding(cleared, dst, node, t))
    ensures Elsewhere(fs, made, dst) && Progress(fs, made, made, src, dst, {})
  {
    ElsewhereSame(fs, made, dst, src);
  }

  /** The directory itself is given its final mode and time after its contents. */
  ghost predicate OnlyAt(mid: Tree, now: Tree, dst: Path) {
    forall q :: q != dst ==> Get(now, q) == Get(mid, q)
  }

  lemma SettledOn(policy: ConflictPolicy, fs: Tree, mid: Tree, now: Tree, src: Path, dst: Path, done: set<Name>,
                  before: multiset<Path>, denied: multiset<Path>, skipping: bool)
    requires PartExact(policy, fs, mid, src, dst, done, before, denied, skipping) && OnlyAt(mid, now, dst)
    ensures PartExact(policy, fs, now, src, dst, done, before, denied, skipping)
  {
    forall p | dst <= p && p != dst && p[|dst|] in done
      ensures Settled(policy, fs, now, src, dst, p, before, denied, skipping)
    {
      assert Settled(policy, fs, mid, src, dst, p, before, denied, skipping);
      if LeftAlone(fs, mid, dst, p) {
        var r :| dst <= r && r != dst && r <= p && r in fs && SameAt(fs, mid, r);
        assert SameAt(fs, now, r);
      }
    }
  }

  lemma DirDone(policy: ConflictPolicy, exact: bool, fs: Tree, made: Tree, mid: Tree, now: Tree,
                src: Path, dst: Path, done: set<Name>, before: multiset<Path>, denied: multiset<Path>, skipping: bool)
    requires WellFormed(fs) && dst != [] && IsDir(fs, src) && IsDir(now, dst)
    requires Elsewhere(fs, made, dst) && Progress(fs, made, mid, src, dst, done) && OnlyAt(mid, now, dst)
    requires IsDir(fs, dst) ==> LikeOption(Get(fs, dst), Get(now, dst))
    requires exact ==> done == Names(fs, src) && PartExact(policy, fs, mid, src, dst, done, before, denied, skipping)
    requires exact ==> Goes(policy, fs[src], Get(fs, dst), HasChild(fs, dst))
    requires exact && !IsDir(fs, dst) ==> Get(now, dst) == Some(fs[src])
    ensures Elsewhere(fs, now, dst) && AnyRun(fs, now, src, dst)
    ensures exact ==> ExactBut(policy, fs, now, src, dst, before, denied, skipping)
  {
    assert Parent(dst) != dst && Rebase(dst, src, dst) == src;
    if !IsDir(fs, dst) {
      AbsentBelow(fs, dst);
    }
    WholeAny(fs, now, src, dst, done);
    if exact {
      SettledOn(policy, fs, mid, now, src, dst, done, before, denied, skipping);
      WholeExact(policy, fs, now, src, dst, done, before, denied, skipping);
    }
  }

  /** A run that stops after clearing the way, or before. */
  lemma ClearedAny(fs: Tree, now: Tree, src: Path, dst: Path)
    requires dst != [] && Cleared(fs, now, dst)
    requires Get(now, dst) == Get(fs, dst) || (src in fs && !Merges(fs[src], Get(fs, dst)))
    ensures AnyRun(fs, now, src, dst)
  {
    assert Rebase(dst, src, dst) == src;
  }

  lemma StopHonoured(fs: Tree, dst: Path, before: multiset<Path>, denied: multiset<Path>)
    requires denied == before || denied == before + multiset{dst}
    ensures Honoured(fs, fs, dst, before, denied)
  {
  }

  /** Nothing planned: no source, or an automatic policy that does not let it go. */
  lemma UntouchedExact(policy: ConflictPolicy, fs: Tree, src: Path, dst: Path)
    requires WellFormed(fs)
    requires src !in fs || !Goes(policy, fs[src], Get(fs, dst), HasChild(fs, dst))
    ensures Exact(policy, fs, fs, src, dst)
  {
    assert Rebase(dst, src, dst) == src;
    forall p | dst <= p
      ensures Arrived(policy, fs, fs, src, dst, p)
    {
      if p != dst && Rebase(dst, src, p) in fs {
        AncestorIsDir(fs, src, Rebase(dst, src, p));
      }
    }
  }

  lemma StopExact(policy: ConflictPolicy, fs: Tree, src: Path, dst: Path,
                  before: multiset<Path>, denied: multiset<Path>, skipping: bool)
    requires WellFormed(fs) && (denied == before || denied == before + multiset{dst})
    requires denied == before ==> src !in fs || !Goes(policy, fs[src], Get(fs, dst), HasChild(fs, dst))
    ensures ExactBut(policy, fs, fs, src, dst, before, denied, skipping)
  {
    if denied == before {
      UntouchedExact(policy, fs, src, dst);
    } else {
      assert Added(before, denied, dst);
      assert forall p :: dst <= p ==> Declined(before, denied, p);
    }
  }

  lemma LeafAny(fs: Tree, cleared: Tree, src: Path, dst: Path, node: Node, t: int)
    requires WellFormed(fs) && dst != [] && IsLeaf(fs, src) && Like(fs[src], node)
    requires Cleared(fs, cleared, dst) && dst !in cleared
    ensures Elsewhere(fs, Adding(cleared, dst, node, t), dst)
    ensures AnyRun(fs, Adding(cleared, dst, node, t), src, dst)
  {
    assert Rebase(dst, src, dst) == src;
    AbsentOrEmpty(fs, cleared, dst);
    var now := Adding(cleared, dst, node, t);
    forall p | dst <= p && p != dst
      ensures Get(now, p) == Get(fs, p)
    {
    }
  }

  lemma AbsentOrEmpty(fs: Tree, cleared: Tree, dst: Path)
    requires WellFormed(fs) && dst != [] && Cleared(fs, cleared, dst) && dst !in cleared
    ensures !HasChild(fs, dst)
  {
    if dst !in fs {
      AbsentBelow(fs, dst);
    }
  }

  lemma LeafExact(policy: ConflictPolicy, fs: Tree, cleared: Tree, src: Path, dst: Path, node: Node, t: int)
    requires WellFormed(fs) && dst != [] && IsLeaf(fs, src) && Like(fs[src], node)
    requires Cleared(fs, cleared, dst) && dst !in cleared
    requires Goes(policy, fs[src], Get(fs, dst), HasChild(fs, dst))
    ensures Exact(policy, fs, Adding(cleared, dst, node, t), src, dst)
  {
    var now := Adding(cleared, dst, node, t);
    assert Rebase(dst, src, dst) == src;
    forall p | dst <= p && p != dst
      ensures Get(now, p) == Get(fs, p) && Rebase(dst, src, p) !in fs
    {
      if Rebase(dst, src, p) in fs {
        AncestorIsDir(fs, src, Rebase(dst, src, p));
      }
    }
  }

  /** The mode, which mkdir may have widened, and the time, which the contents have changed. */
  method Settle(k: Kernel, dst: Path, mode: Mode, mtime: int)
    requires k.Valid() && IsDir(k.nodes, dst)
    modifies k
    ensures k.Valid() && IsDir(k.nodes, dst) && OnlyAt(old(k.nodes), k.nodes, dst)
    ensures k.Reliable() ==> Get(k.nodes, dst) == Some(Dir(mode, mtime))
  {
    var err := k.Chmod(dst, mode);
    k.Utime(dst, mtime);
  }

  /** What an automatic run on a sound tree needs to go through with a directory. */
  ghost predicate Sure(k: Kernel, c: Child, fs: Tree, path: Path, destPath: Path)
    requires path in fs && destPath != []
    reads c
  {
    && k.Reliable() && IsDir(fs, Parent(destPath))
    && Goes(WhenAgreed(c.conflictPolicy), fs[path], Get(fs, destPath), HasChild(fs, destPath))
  }

  lemma SettledHonoured(fs: Tree, mid: Tree, now: Tree, dst: Path, done: set<Name>, before: multiset<Path>,
                        denied: multiset<Path>)
    requires PartHonoured(fs, mid, dst, done, before, denied) && OnlyAt(mid, now, dst)
    ensures Honoured(fs, now, dst, before, denied)
  {
    forall r | Added(before, denied, r)
      ensures SameAt(fs, now, r)
    {
      assert SameAt(fs, mid, r);
    }
  }

  method FillDir(k: Kernel, c: Child, path: Path, destPath: Path, made: bool, ghost fs: Tree)
    requires k.Valid() && WellFormed(fs) && destPath != [] && Disjoint(path, destPath)
    requires Elsewhere(fs, k.nodes, destPath) && Progress(fs, k.nodes, k.nodes, path, destPath, {})
    requires IsDir(fs, path) && Get(k.nodes, path) == Get(fs, path) && IsDir(k.nodes, destPath)
    requires made <==> !IsDir(fs, destPath)
    requires !made ==> Get(k.nodes, destPath) == Get(fs, destPath)
    requires k.Reliable() && c.conflictPolicy == SkipExisting ==> destPath !in fs
    modifies k, c
    decreases Below(k.nodes, path), 1
    ensures k.Valid() && c.actionLeaf == None
    ensures Elsewhere(fs, k.nodes, destPath) && AnyRun(fs, k.nodes, path, destPath)
    ensures Honoured(fs, k.nodes, destPath, old(c.denied), c.denied)
    ensures old(c.Unattended()) ==> c.Unattended() && c.denied == old(c.denied)
    ensures StaysOrSkips(old(c.conflictPolicy), c.conflictPolicy)
    ensures c.denied == old(c.denied) ==> WhenAgreed(c.conflictPolicy) == WhenAgreed(old(c.conflictPolicy))
    ensures old(Sure(k, c, fs, path, destPath)) ==>
      ExactBut(WhenAgreed(old(c.conflictPolicy)), fs, k.nodes, path, destPath, old(c.denied), c.denied,
               WhenAgreed(c.conflictPolicy) != WhenAgreed(old(c.conflictPolicy)))
  {
    ghost var policy, sure, start := WhenAgreed(c.conflictPolicy), Sure(k, c, fs, path, destPath), k.nodes;
    var mode, mtime := k.nodes[path].mode, k.nodes[path].mtime;
    c.actionLeaf := None;
    ghost var done := CopyContents(k, c, path, destPath, fs);
    ghost var mid := k.nodes;
    if made {
      Settle(k, destPath, mode, mtime);
    }
    DirDone(policy, sure, fs, start, mid, k.nodes, path, destPath, done, old(c.denied), c.denied,
            WhenAgreed(c.conflictPolicy) != policy);
    SettledHonoured(fs, mid, k.nodes, destPath, done, old(c.denied), c.denied);
  }

  method CopyDir(k: Kernel, c: Child, path: Path, destPath: Path, ghost fs: Tree)
    requires k.Valid() && WellFormed(fs) && destPath != [] && Disjoint(path, destPath)
    requires Cleared(fs, k.nodes, destPath)
    requires Get(fs, path) == Get(k.nodes, path) && IsDir(fs, path)
    requires IsDir(fs, destPath) ==> Get(k.nodes, destPath) == Get(fs, destPath)
    requires destPath in k.nodes ==> k.blind(destPath) || IsDir(k.nodes, destPath)
    requires k.Reliable() && c.conflictPolicy == SkipExisting ==> destPath !in fs
    modifies k, c
    decreases Below(k.nodes, path), 2
    ensures k.Valid() && (c.actionLeaf == old(c.actionLeaf) || c.actionLeaf == None)
    ensures Elsewhere(fs, k.nodes, destPath) && AnyRun(fs, k.nodes, path, destPath)
    ensures Honoured(fs, k.nodes, destPath, old(c.denied), c.denied)
    ensures old(c.Unattended()) ==> c.Unattended() && c.denied == old(c.denied)
    ensures StaysOrSkips(old(c.conflictPolicy), c.conflictPolicy)
    ensures c.denied == old(c.denied) ==> WhenAgreed(c.conflictPolicy) == WhenAgreed(old(c.conflictPolicy))
    ensures old(Sure(k, c, fs, path, destPath)) ==>
      ExactBut(WhenAgreed(old(c.conflictPolicy)), fs, k.nodes, path, destPath, old(c.denied), c.denied,
               WhenAgreed(c.conflictPolicy) != WhenAgreed(old(c.conflictPolicy)))
  {
    ghost var cleared := k.nodes;
    ClearedAny(fs, cleared, path, destPath);
    var destInfo := k.Lstat(destPath);
    if destInfo.Some? && !destInfo.value.Dir? {
      return;
    }
    if destInfo == None {
      var err := k.Mkdir(destPath, OWNER_RWX | k.nodes[path].mode);
      if err != OK {
        return;
      }
    }
    MadeProgress(fs, cleared, k.nodes, path, destPath);
    assert Get(k.nodes, path) == Get(fs, path);
    BelowAgrees(fs, cleared, path);
    BelowAgrees(fs, k.nodes, path);
    FillDir(k, c, path, destPath, destInfo == None, fs);
  }

  method DoCopy2(k: Kernel, c: Child, path: Path, dest: Path)
    requires k.Valid() && path != []
    requires Disjoint(path, c.DestPath(path, dest))
    modifies k, c
    decreases Below(k.nodes, path), 4
    ensures k.Valid() && (c.actionLeaf == old(c.actionLeaf) || c.actionLeaf == None)
    ensures Elsewhere(old(k.nodes), k.nodes, old(c.DestPath(path, dest)))
    ensures AnyRun(old(k.nodes), k.nodes, path, old(c.DestPath(path, dest)))
    ensures Honoured(old(k.nodes), k.nodes, old(c.DestPath(path, dest)), old(c.denied), c.denied)
    ensures old(c.Unattended()) ==> c.Unattended() && c.denied == old(c.denied)
    ensures StaysOrSkips(old(c.conflictPolicy), c.conflictPolicy)
    ensures c.denied == old(c.denied) ==> WhenAgreed(c.conflictPolicy) == WhenAgreed(old(c.conflictPolicy))
    ensures k.Reliable() && old(IsDir(k.nodes, dest)) ==>
      ExactBut(WhenAgreed(old(c.conflictPolicy)), old(k.nodes), k.nodes, path, old(c.DestPath(path, dest)),
               old(c.denied), c.denied, WhenAgreed(c.conflictPolicy) != WhenAgreed(old(c.conflictPolicy)))
  {
    hide AnyRun, Honoured, ExactBut, SameAt, WellFormed;
    c.CheckFlags();
    ghost var fs := k.nodes;
    var destPath := c.DestPath(path, dest);
    ghost var policy := WhenAgreed(c.conflictPolicy);
    ghost var exact := k.Reliable() && IsDir(fs, dest);
    var info := k.Lstat(path);
    if info.Some? {
      var go := MakeWay(k, c, info.value, destPath);
      if go {
        ElsewhereSame(fs, k.nodes, destPath, path);
        BelowAgrees(fs, k.nodes, path);
        PutCopy(k, c, path, destPath, info.value, policy, fs);
        return;
      }
    }
    ClearedAny(fs, fs, path, destPath);
    StopHonoured(fs, destPath, old(c.denied), c.denied);
    if exact {
      StopExact(policy, fs, path, destPath, old(c.denied), c.denied, WhenAgreed(c.conflictPolicy) != policy);
    }
  }

  /** The way is free: a directory is made or merged, a leaf is copied. */
  method PutCopy(k: Kernel, c: Child, path: Path, destPath: Path, info: Node, ghost policy: ConflictPolicy,
                 ghost fs: Tree)
    requires k.Valid() && WellFormed(fs) && destPath != [] && Disjoint(path, destPath)
    requires Cleared(fs, k.nodes, destPath) && SameAt(fs, k.nodes, path) && Get(fs, path) == Some(info)
    requires k.nodes == fs || (destPath !in k.nodes && !Merges(info, Get(fs, destPath)))
    requires destPath in k.nodes ==> k.blind(destPath) || Merges(info, Get(k.nodes, destPath))
    requires k.Reliable() && c.conflictPolicy == SkipExisting ==> destPath !in fs
    requires policy == WhenAgreed(c.conflictPolicy)
    modifies k, c
    decreases Below(k.nodes, path), 3
    ensures k.Valid() && (c.actionLeaf == old(c.actionLeaf) || c.actionLeaf == None)
    ensures Elsewhere(fs, k.nodes, destPath) && AnyRun(fs, k.nodes, path, destPath)
    ensures Honoured(fs, k.nodes, destPath, old(c.denied), c.denied)
    ensures old(c.Unattended()) ==> c.Unattended() && c.denied == old(c.denied)
    ensures StaysOrSkips(old(c.conflictPolicy), c.conflictPolicy)
    ensures c.denied == old(c.denied) ==> WhenAgreed(c.conflictPolicy) == policy
    ensures old(Sure(k, c, fs, path, destPath)) ==>
      ExactBut(policy, fs, k.nodes, path, destPath, old(c.denied), c.denied, WhenAgreed(c.conflictPolicy) != policy)
  {
    assert Get(k.nodes, path) == Get(fs, path);
    if info.Dir? {
      CopyDir(k, c, path, destPath, fs);
    } else {
      ClearedAny(fs, k.nodes, path, destPath);
      CopyLeaf(k, path, destPath, info, policy, fs);
      NothingDeclined(policy, fs, k.nodes, path, destPath, c.denied);
    }
  }

  /** A link is made anew; anything else goes through `cp -p`. */
  method CopyLeaf(k: Kernel, path: Path, destPath: Path, info: Node, ghost policy: ConflictPolicy, ghost fs: Tree)
    requires k.Valid() && WellFormed(fs) && destPath != [] && IsLeaf(fs, path)
    requires Get(k.nodes, path) == Some(info) == Get(fs, path)
    requires Cleared(fs, k.nodes, destPath) && (destPath in k.nodes ==> k.blind(destPath))
    requires AnyRun(fs, k.nodes, path, destPath)
    modifies k
    ensures k.Valid() && Elsewhere(fs, k.nodes, destPath) && AnyRun(fs, k.nodes, path, destPath)
    ensures (k.Reliable() && IsDir(fs, Parent(destPath)) &&
             Goes(policy, info, Get(fs, destPath), HasChild(fs, destPath))) ==>
      Exact(policy, fs, k.nodes, path, destPath)
  {
    ghost var cleared := k.nodes;
    ghost var goes := Goes(policy, info, Get(fs, destPath), HasChild(fs, destPath));
    var err;
    if info.Link? {
      err := k.Symlink(info.target, destPath);
    } else {
      err := k.CopyFile(path, destPath);
    }
    if err == OK {
      ghost var node := if info.Link? then Link(info.target, k.clock) else info;
      LeafAny(fs, cleared, path, destPath, node, k.clock);
      if goes {
        LeafExact(policy, fs, cleared, path, destPath, node, k.clock);
      }
    }
  }

  /** An object is not copied onto or into itself; the caller sees to the other direction. */
  method DoCopy(k: Kernel, c: Child, path: Path, dest: Path) returns (refused: bool)
    requires k.Valid() && (path != [] ==> !(c.DestPath(path, dest) <= path && c.DestPath(path, dest) != path))
    modifies k, c
    ensures k.Valid() && refused == (path == [] || path <= old(c.DestPath(path, dest)))
    ensures refused ==> k.nodes == old(k.nodes)
    ensures !refused ==>
      Elsewhere(old(k.nodes), k.nodes, old(c.DestPath(path, dest))) &&
      SameAt(old(k.nodes), k.nodes, path) &&
      AnyRun(old(k.nodes), k.nodes, path, old(c.DestPath(path, dest))) &&
      Honoured(old(k.nodes), k.nodes, old(c.DestPath(path, dest)), old(c.denied), c.denied)
    ensures old(c.Unattended()) ==> c.denied == old(c.denied)
    ensures !refused && k.Reliable() && old(IsDir(k.nodes, dest)) ==>
      ExactBut(WhenAgreed(old(c.conflictPolicy)), old(k.nodes), k.nodes, path, old(c.DestPath(path, dest)),
               old(c.denied), c.denied, WhenAgreed(c.conflictPolicy) != WhenAgreed(old(c.conflictPolicy)))
    ensures !refused && k.Reliable() && old(IsDir(k.nodes, dest)) && c.denied == old(c.denied) ==>
      Exact(WhenAgreed(old(c.conflictPolicy)), old(k.nodes), k.nodes, path, old(c.DestPath(path, dest)))
  {
    if path == [] || path <= c.DestPath(path, dest) {
      return true;
    }
    ghost var fs, dst := k.nodes, c.DestPath(path, dest);
    DoCopy2(k, c, path, dest);
    ElsewhereSame(fs, k.nodes, dst, path);
    NothingDeclined(WhenAgreed(old(c.conflictPolicy)), fs, k.nodes, path, dst, c.denied);
    return false;
  }
}
