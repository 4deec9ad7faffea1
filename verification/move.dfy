/** Moving one selected path with the classic engine. */
module Moving {
  import opened Wrappers
  import opened Paths
  import opened Kernels
  import opened Children
  import opened Conflicts

  /**
   * What any run keeps, for a source path and its image. Without a source, nothing
   * changes. Directories that merge stay where they are, or the source's one goes. Anything
   * else is, with all its data, either still at its old path or at its image and only
   * there; the image can be lost when it was cleared away for a move that then failed,
   * but never when it had something in it.
   */
  predicate Conserves(fs: Tree, now: Tree, src: Path, dst: Path, q: Path)
    requires src <= q
  {
    var p := Rebase(src, dst, q);
    var s, d, s', d' := Get(fs, q), Get(fs, p), Get(now, q), Get(now, p);
    if s == None then s' == None && d' == d
    else if Merges(s.value, d) then LikeOption(d, d') && (s' == None || LikeOption(s, s'))
    else
      || (s' == s && (d' == d || (d' == None && !HasChild(fs, p))))
      || (s' == None && d' == s && !HasChild(fs, p))
  }

  ghost predicate AnyMove(fs: Tree, now: Tree, src: Path, dst: Path) {
    forall q :: src <= q ==> Conserves(fs, now, src, dst, q)
  }

  /** A leaf that an automatic policy leaves in the source. */
  predicate Refused(policy: ConflictPolicy, fs: Tree, src: Path, dst: Path, q: Path)
    requires src <= q
  {
    var p := Rebase(src, dst, q);
    IsLeaf(fs, q) && !Goes(policy, fs[q], Get(fs, p), HasChild(fs, p))
  }

  /** What is left in the source: refused leaves, and what was to go to the places that are held. */
  ghost predicate Left(policy: ConflictPolicy, fs: Tree, src: Path, dst: Path, q: Path, held: set<Path>)
    requires src <= q
  {
    Refused(policy, fs, src, dst, q) || (q in fs && Rebase(src, dst, q) in held)
  }

  ghost predicate Stays(policy: ConflictPolicy, fs: Tree, src: Path, dst: Path, q: Path, held: set<Path>)
    requires src <= q
  {
    exists l :: q <= l && Left(policy, fs, src, dst, l, held)
  }

  /** What a policy does outside the held places: a merged directory goes exactly when nothing is left below it. */
  ghost predicate Moved(policy: ConflictPolicy, fs: Tree, now: Tree, src: Path, dst: Path, q: Path, held: set<Path>)
    requires src <= q
  {
    var p := Rebase(src, dst, q);
    var s, d, s', d' := Get(fs, q), Get(fs, p), Get(now, q), Get(now, p);
    if s == None || (policy == SkipExisting && dst in fs) || !Goes(policy, s.value, d, HasChild(fs, p)) then
      s' == s && d' == d
    else if Merges(s.value, d) then
      LikeOption(d, d') && (if Stays(policy, fs, src, dst, q, held) then LikeOption(s, s') else s' == None)
    else
      s' == None && d' == s
  }

  ghost predicate Under(held: set<Path>, p: Path) {
    exists r :: r in held && r <= p
  }

  /** Exactly the plan, but for the held places. */
  ghost predicate ExactBut(policy: ConflictPolicy, fs: Tree, now: Tree, src: Path, dst: Path, held: set<Path>) {
    forall q :: src <= q ==>
      Under(held, Rebase(src, dst, q)) || Moved(policy, fs, now, src, dst, q, held)
  }

  /** The same with nothing held. */
  ghost predicate Exact(policy: ConflictPolicy, fs: Tree, now: Tree, src: Path, dst: Path) {
    forall q :: src <= q ==> Moved(policy, fs, now, src, dst, q, {})
  }

  /** A held place is as it was, and so is what was to go there. */
  ghost predicate Held(fs: Tree, now: Tree, src: Path, dst: Path, held: set<Path>) {
    forall r :: r in held ==> dst <= r && Rebase(dst, src, r) in fs && BothSame(fs, now, src, dst, r)
  }

  ghost predicate PartHeld(fs: Tree, now: Tree, src: Path, dst: Path, done: set<Name>, held: set<Path>) {
    forall r :: r in held ==>
      dst <= r && r != dst && r[|dst|] in done && Rebase(dst, src, r) in fs && BothSame(fs, now, src, dst, r)
  }

  /** A place is held for a no of the user, or because it stood below `dst` when the answer was to skip such places. */
  ghost predicate HeldFor(fs: Tree, dst: Path, held: set<Path>,
                          before: multiset<Path>, denied: multiset<Path>, skipping: bool)
  {
    forall r :: r in held ==> Added(before, denied, r) || (skipping && r in fs && r != dst)
  }

  /** Who says no to nothing gets everything. */
  lemma NothingHeld(policy: ConflictPolicy, fs: Tree, now: Tree, src: Path, dst: Path, held: set<Path>,
                    denied: multiset<Path>)
    requires HeldFor(fs, dst, held, denied, denied, false)
    ensures held == {} && (ExactBut(policy, fs, now, src, dst, held) <==> Exact(policy, fs, now, src, dst))
  {
    assert forall r :: !Added(denied, denied, r);
  }

  /** What had nothing in its way has been moved. */
  lemma FreeMoves(policy: ConflictPolicy, fs: Tree, now: Tree, src: Path, dst: Path, q: Path, held: set<Path>,
                  before: multiset<Path>, denied: multiset<Path>, skipping: bool)
    requires ExactBut(policy, fs, now, src, dst, held) && HeldFor(fs, dst, held, before, denied, skipping)
    requires Held(fs, now, src, dst, held) && src <= q && !Declined(before, denied, Rebase(src, dst, q))
    requires forall r :: dst <= r && r != dst && r <= Rebase(src, dst, q) ==> r !in fs
    ensures Moved(policy, fs, now, src, dst, q, held)
  {
  }

  lemma StaysSame(policy: ConflictPolicy, fs: Tree, src: Path, dst: Path, q: Path, held: set<Path>, held': set<Path>)
    requires src <= q
    requires forall l :: q <= l ==> (Rebase(src, dst, l) in held <==> Rebase(src, dst, l) in held')
    ensures Stays(policy, fs, src, dst, q, held) <==> Stays(policy, fs, src, dst, q, held')
  {
    forall l | q <= l
      ensures Left(policy, fs, src, dst, l, held) <==> Left(policy, fs, src, dst, l, held')
    {
    }
  }

  /**
   * Two directories that meet: nothing of them has changed, or the source's is gone exactly when
   * nothing is left in it.
   */
  ghost predicate Tidy(fs: Tree, now: Tree, src: Path, dst: Path, q: Path)
    requires src <= q
  {
    IsDir(fs, q) && IsDir(fs, Rebase(src, dst, q)) ==>
      (SameAt(fs, now, q) && SameAt(fs, now, Rebase(src, dst, q))) || (q in now <==> HasChild(now, q))
  }

  ghost predicate AllTidy(fs: Tree, now: Tree, src: Path, dst: Path) {
    forall q :: src <= q ==> Tidy(fs, now, src, dst, q)
  }

  /** Outside both subtrees only the two directories above them are stamped. */
  ghost predicate Outside(fs: Tree, now: Tree, src: Path, dst: Path)
    requires src != [] && dst != []
  {
    && LikeOption(Get(fs, Parent(src)), Get(now, Parent(src)))
    && LikeOption(Get(fs, Parent(dst)), Get(now, Parent(dst)))
    && forall q :: !(src <= q) && !(dst <= q) && q != Parent(src) && q != Parent(dst) ==> Get(now, q) == Get(fs, q)
  }

  /** A walk over the contents of two directories that merge, the names in `done` being settled. */
  ghost predicate Progress(fs: Tree, now: Tree, src: Path, dst: Path, done: set<Name>) {
    && LikeOption(Get(fs, src), Get(now, src)) && LikeOption(Get(fs, dst), Get(now, dst))
    && (forall q :: !(src <= q) && !(dst <= q) ==> Get(now, q) == Get(fs, q))
    && (forall q :: src <= q && q != src && q[|src|] in done ==> Conserves(fs, now, src, dst, q))
    && (forall q :: src <= q && q != src && q[|src|] !in done ==> Waits(fs, now, src, dst, q))
  }

  predicate Waits(fs: Tree, now: Tree, src: Path, dst: Path, q: Path)
    requires src <= q
  {
    Get(now, q) == Get(fs, q) && Get(now, Rebase(src, dst, q)) == Get(fs, Rebase(src, dst, q))
  }

  lemma WaitingSubtree(fs: Tree, mid: Tree, src: Path, dst: Path, done: set<Name>, n: Name)
    requires Progress(fs, mid, src, dst, done) && n !in done
    ensures SameAt(fs, mid, src + [n]) && SameAt(fs, mid, dst + [n])
  {
    forall q | src + [n] <= q
      ensures Get(mid, q) == Get(fs, q)
    {
      assert Waits(fs, mid, src, dst, q);
    }
    forall p | dst + [n] <= p
      ensures Get(mid, p) == Get(fs, p)
    {
      RebaseChild(dst, src, n, p);
      RebaseInverse(dst, src, p);
      assert src + [n] <= Rebase(dst, src, p);
      assert Waits(fs, mid, src, dst, Rebase(dst, src, p));
    }
  }

  /** Of the other children, neither the subtree in the source nor the one in the destination changes. */
  lemma OtherChild(mid: Tree, now: Tree, src: Path, dst: Path, n: Name, q: Path)
    requires Disjoint(src, dst) && Outside(mid, now, src + [n], dst + [n])
    requires src <= q && q != src && q[|src|] != n
    ensures Waits(mid, now, src, dst, q)
  {
    var p := Rebase(src, dst, q);
    assert p[|dst|] == q[|src|];
    assert Parent(src + [n]) == src && Parent(dst + [n]) == dst;
    NotBoth(src, dst, q);
    NotBoth(src, dst, p);
  }

  lemma StepProgress(fs: Tree, mid: Tree, now: Tree, src: Path, dst: Path, done: set<Name>, n: Name)
    requires Progress(fs, mid, src, dst, done) && n !in done && Disjoint(src, dst)
    requires AnyMove(mid, now, src + [n], dst + [n]) && Outside(mid, now, src + [n], dst + [n])
    ensures Progress(fs, now, src, dst, done + {n})
  {
    WaitingSubtree(fs, mid, src, dst, done, n);
    assert Parent(src + [n]) == src && Parent(dst + [n]) == dst;
    forall q | src <= q && q != src
      ensures q[|src|] in done + {n} ==> Conserves(fs, now, src, dst, q)
      ensures q[|src|] !in done + {n} ==> Waits(fs, now, src, dst, q)
    {
      if q[|src|] == n {
        assert src + [n] <= q;
        RebaseChild(src, dst, n, q);
        assert Conserves(mid, now, src + [n], dst + [n], q);
        NamesAgree(fs, mid, Rebase(src, dst, q));
      } else {
        OtherChild(mid, now, src, dst, n, q);
        if q[|src|] in done {
          assert Conserves(fs, mid, src, dst, q);
        } else {
          assert Waits(fs, mid, src, dst, q);
        }
      }
    }
    forall q | !(src <= q) && !(dst <= q)
      ensures Get(now, q) == Get(fs, q)
    {
      assert !(src + [n] <= q) && !(dst + [n] <= q);
    }
  }

  ghost predicate PartExact(policy: ConflictPolicy, fs: Tree, now: Tree, src: Path, dst: Path, done: set<Name>,
                            held: set<Path>)
  {
    forall q :: src <= q && q != src && q[|src|] in done ==>
      Under(held, Rebase(src, dst, q)) || Moved(policy, fs, now, src, dst, q, held)
  }

  ghost predicate PartTidy(fs: Tree, now: Tree, src: Path, dst: Path, done: set<Name>) {
    forall q :: src <= q && q != src && q[|src|] in done ==> Tidy(fs, now, src, dst, q)
  }

  lemma StaysAgrees(policy: ConflictPolicy, fs: Tree, mid: Tree, src: Path, dst: Path, n: Name, q: Path,
                    held: set<Path>)
    requires SameAt(fs, mid, src + [n]) && SameAt(fs, mid, dst + [n]) && src + [n] <= q
    ensures Stays(policy, mid, src + [n], dst + [n], q, held) <==> Stays(policy, fs, src, dst, q, held)
  {
    forall l | q <= l
      ensures Left(policy, mid, src + [n], dst + [n], l, held) <==> Left(policy, fs, src, dst, l, held)
    {
      RebaseChild(src, dst, n, l);
      NamesAgree(fs, mid, Rebase(src, dst, l));
      assert Get(mid, l) == Get(fs, l);
    }
  }

  lemma StepExact(policy: ConflictPolicy, fs: Tree, mid: Tree, now: Tree, src: Path, dst: Path,
                  done: set<Name>, n: Name, held: set<Path>, more: set<Path>)
    requires Progress(fs, mid, src, dst, done) && n !in done && Disjoint(src, dst) && policy != SkipExisting
    requires PartExact(policy, fs, mid, src, dst, done, held) && PartHeld(fs, mid, src, dst, done, held)
    requires ExactBut(policy, mid, now, src + [n], dst + [n], more) && Held(mid, now, src + [n], dst + [n], more)
    requires Outside(mid, now, src + [n], dst + [n])
    ensures PartExact(policy, fs, now, src, dst, done + {n}, held + more)
  {
    WaitingSubtree(fs, mid, src, dst, done, n);
    forall q | src <= q && q != src && q[|src|] in done + {n}
      ensures Under(held + more, Rebase(src, dst, q)) || Moved(policy, fs, now, src, dst, q, held + more)
    {
      var p := Rebase(src, dst, q);
      if q[|src|] == n {
        assert src + [n] <= q;
        RebaseChild(src, dst, n, q);
      }
      if Under(held, p) || Under(more, p) {
        var r :| (r in held || r in more) && r <= p;
        assert r in held + more;
      } else {
        StepMoved(policy, fs, mid, now, src, dst, done, n, q, held, more);
      }
    }
  }

  lemma StepMoved(policy: ConflictPolicy, fs: Tree, mid: Tree, now: Tree, src: Path, dst: Path,
                  done: set<Name>, n: Name, q: Path, held: set<Path>, more: set<Path>)
    requires SameAt(fs, mid, src + [n]) && SameAt(fs, mid, dst + [n]) && Disjoint(src, dst) && policy != SkipExisting
    requires Outside(mid, now, src + [n], dst + [n]) && src <= q && q != src && n !in done
    requires PartHeld(fs, mid, src, dst, done, held) && Held(mid, now, src + [n], dst + [n], more)
    requires if q[|src|] == n then src + [n] <= q && Moved(policy, mid, now, src + [n], dst + [n], q, more)
             else Moved(policy, fs, mid, src, dst, q, held)
    ensures Moved(policy, fs, now, src, dst, q, held + more)
  {
    forall l | q <= l
      ensures Rebase(src, dst, l) in held + more <==>
              if q[|src|] == n then Rebase(src, dst, l) in more else Rebase(src, dst, l) in held
    {
      assert Rebase(src, dst, l)[|dst|] == q[|src|];
    }
    if q[|src|] == n {
      RebaseChild(src, dst, n, q);
      NamesAgree(fs, mid, Rebase(src, dst, q));
      StaysAgrees(policy, fs, mid, src, dst, n, q, more);
      StaysSame(policy, fs, src, dst, q, more, held + more);
    } else {
      OtherChild(mid, now, src, dst, n, q);
      StaysSame(policy, fs, src, dst, q, held, held + more);
    }
  }

  /** With the policy to skip what exists, a child is left alone as a whole or everything is free. */
  lemma Skipped(policy: ConflictPolicy, mid: Tree, now: Tree, src: Path, dst: Path, held: set<Path>)
    returns (more: set<Path>)
    requires WellFormed(mid) && src in mid && policy != SkipExisting
    requires ExactBut(SkipExisting, mid, now, src, dst, held) && Held(mid, now, src, dst, held)
    ensures more == (if dst in mid then {dst} else held)
    ensures ExactBut(policy, mid, now, src, dst, more) && Held(mid, now, src, dst, more)
  {
    more := if dst in mid then {dst} else held;
    assert Rebase(dst, src, dst) == src && Rebase(src, dst, src) == dst;
    if dst in mid {
      SkippedSame(mid, now, src, dst, held);
      assert forall q :: src <= q ==> dst <= Rebase(src, dst, q);
    } else {
      AbsentBelow(mid, dst);
      forall q | src <= q
        ensures Under(held, Rebase(src, dst, q)) || Moved(policy, mid, now, src, dst, q, held)
      {
        AbsentBelow(mid, Rebase(src, dst, q));
      }
    }
  }

  lemma SkippedSame(mid: Tree, now: Tree, src: Path, dst: Path, held: set<Path>)
    requires dst in mid && ExactBut(SkipExisting, mid, now, src, dst, held) && Held(mid, now, src, dst, held)
    ensures BothSame(mid, now, src, dst, dst)
  {
    assert Rebase(dst, src, dst) == src;
    forall q | src <= q
      ensures Get(now, q) == Get(mid, q) && Get(now, Rebase(src, dst, q)) == Get(mid, Rebase(src, dst, q))
    {
      var p := Rebase(src, dst, q);
      if Under(held, p) {
        var r :| r in held && r <= p;
        RebaseInverse(src, dst, q);
        assert SameAt(mid, now, r) && SameAt(mid, now, Rebase(dst, src, r)) && Rebase(dst, src, r) <= q;
      } else {
        assert Moved(SkipExisting, mid, now, src, dst, q, held);
      }
    }
    forall p | dst <= p
      ensures Get(now, p) == Get(mid, p)
    {
      RebaseInverse(dst, src, p);
      assert src <= Rebase(dst, src, p);
    }
  }

  lemma TidyKept(fs: Tree, mid: Tree, now: Tree, src: Path, dst: Path, q: Path)
    requires src <= q && Tidy(fs, mid, src, dst, q)
    requires SameAt(mid, now, q) && SameAt(mid, now, Rebase(src, dst, q))
    ensures Tidy(fs, now, src, dst, q)
  {
    NamesAgree(mid, now, q);
    assert Get(now, q) == Get(mid, q);
    if SameAt(fs, mid, q) {
      forall l | q <= l
        ensures Get(now, l) == Get(fs, l)
      {
        assert Get(mid, l) == Get(fs, l);
      }
    }
    if SameAt(fs, mid, Rebase(src, dst, q)) {
      forall l | Rebase(src, dst, q) <= l
        ensures Get(now, l) == Get(fs, l)
      {
        assert Get(mid, l) == Get(fs, l);
      }
    }
  }

  lemma OtherSubtree(mid: Tree, now: Tree, src: Path, dst: Path, n: Name, q: Path)
    requires Disjoint(src, dst) && Outside(mid, now, src + [n], dst + [n])
    requires src <= q && q != src && q[|src|] != n
    ensures SameAt(mid, now, q) && SameAt(mid, now, Rebase(src, dst, q))
  {
    forall l | q <= l
      ensures Get(now, l) == Get(mid, l)
    {
      OtherChild(mid, now, src, dst, n, l);
    }
    var p := Rebase(src, dst, q);
    forall l | p <= l
      ensures Get(now, l) == Get(mid, l)
    {
      RebaseInverse(dst, src, l);
      RebaseInverse(src, dst, q);
      assert l[|dst|] == q[|src|];
      OtherChild(mid, now, src, dst, n, Rebase(dst, src, l));
    }
  }

  lemma StepTidy(fs: Tree, mid: Tree, now: Tree, src: Path, dst: Path, done: set<Name>, n: Name)
    requires Progress(fs, mid, src, dst, done) && n !in done && Disjoint(src, dst)
    requires PartTidy(fs, mid, src, dst, done)
    requires AllTidy(mid, now, src + [n], dst + [n]) && Outside(mid, now, src + [n], dst + [n])
    ensures PartTidy(fs, now, src, dst, done + {n})
  {
    WaitingSubtree(fs, mid, src, dst, done, n);
    forall q | src <= q && q != src && q[|src|] in done + {n}
      ensures Tidy(fs, now, src, dst, q)
    {
      if q[|src|] == n {
        RebaseChild(src, dst, n, q);
        TidyLater(fs, mid, now, src, dst, n, q);
      } else {
        OtherSubtree(mid, now, src, dst, n, q);
        assert Tidy(fs, mid, src, dst, q);
        TidyKept(fs, mid, now, src, dst, q);
      }
    }
  }

  lemma TidyLater(fs: Tree, mid: Tree, now: Tree, src: Path, dst: Path, n: Name, q: Path)
    requires SameAt(fs, mid, src + [n]) && SameAt(fs, mid, dst + [n]) && src + [n] <= q
    requires AllTidy(mid, now, src + [n], dst + [n])
    ensures Tidy(fs, now, src, dst, q)
  {
    RebaseChild(src, dst, n, q);
    var p := Rebase(src, dst, q);
    assert Tidy(mid, now, src + [n], dst + [n], q);
    assert Get(mid, q) == Get(fs, q) && Get(mid, p) == Get(fs, p);
    if SameAt(mid, now, q) && SameAt(mid, now, p) {
      forall l | q <= l || p <= l
        ensures Get(now, l) == Get(fs, l)
      {
        assert Get(now, l) == Get(mid, l);
        assert if q <= l then src + [n] <= l else dst + [n] <= l;
      }
    }
  }

  lemma BelowWaits(fs: Tree, mid: Tree, src: Path, dst: Path, done: set<Name>, n: Name)
    requires Progress(fs, mid, src, dst, done) && n !in done && src in fs
    ensures Below(mid, src + [n]) < Below(fs, src)
  {
    WaitingSubtree(fs, mid, src, dst, done, n);
    assert src in Below(fs, src) && src !in Below(mid, src + [n]);
    forall q | q in Below(mid, src + [n])
      ensures q in Below(fs, src)
    {
      assert Get(mid, q) == Get(fs, q);
    }
  }

  /** A place the user has said no to is as it was, and so is what was to go there. */
  ghost predicate BothSame(fs: Tree, now: Tree, src: Path, dst: Path, r: Path)
    requires dst <= r
  {
    SameAt(fs, now, r) && SameAt(fs, now, Rebase(dst, src, r))
  }

  ghost predicate BothHonoured(fs: Tree, now: Tree, src: Path, dst: Path, before: multiset<Path>,
                               denied: multiset<Path>)
  {
    && before <= denied
    && forall r :: Added(before, denied, r) ==> dst <= r && Rebase(dst, src, r) in fs && BothSame(fs, now, src, dst, r)
  }

  ghost predicate PartHonoured(fs: Tree, now: Tree, src: Path, dst: Path, done: set<Name>,
                               before: multiset<Path>, denied: multiset<Path>) {
    && before <= denied
    && forall r :: Added(before, denied, r) ==>
         dst <= r && r != dst && r[|dst|] in done && Rebase(dst, src, r) in fs && BothSame(fs, now, src, dst, r)
  }

  lemma SameOn(fs: Tree, mid: Tree, now: Tree, q: Path)
    requires SameAt(fs, mid, q) && SameAt(mid, now, q)
    ensures SameAt(fs, now, q)
  {
    forall l | q <= l
      ensures Get(now, l) == Get(fs, l)
    {
      assert Get(mid, l) == Get(fs, l);
    }
  }

  lemma SameBelow(fs: Tree, now: Tree, p: Path, q: Path)
    requires SameAt(fs, now, p) && p <= q
    ensures SameAt(fs, now, q)
  {
  }

  /** A place under another child stays as it is. */
  lemma SameLater(fs: Tree, mid: Tree, now: Tree, src: Path, dst: Path, n: Name, r: Path)
    requires Disjoint(src, dst) && Outside(mid, now, src + [n], dst + [n])
    requires dst <= r && r != dst && r[|dst|] != n && BothSame(fs, mid, src, dst, r)
    ensures BothSame(fs, now, src, dst, r)
  {
    var q := Rebase(dst, src, r);
    RebaseInverse(dst, src, r);
    OtherSubtree(mid, now, src, dst, n, q);
    SameOn(fs, mid, now, r);
    SameOn(fs, mid, now, q);
  }

  /** And one under the child at hand has waited until now. */
  lemma SameInTurn(fs: Tree, mid: Tree, now: Tree, src: Path, dst: Path, n: Name, r: Path)
    requires SameAt(fs, mid, src + [n]) && SameAt(fs, mid, dst + [n])
    requires dst + [n] <= r && BothSame(mid, now, src + [n], dst + [n], r) && Rebase(dst + [n], src + [n], r) in mid
    ensures r != dst && r[|dst|] == n && Rebase(dst, src, r) in fs && BothSame(fs, now, src, dst, r)
  {
    RebaseChild(dst, src, n, r);
    var q := Rebase(dst, src, r);
    SameBelow(fs, mid, dst + [n], r);
    SameBelow(fs, mid, src + [n], q);
    assert Get(mid, q) == Get(fs, q);
    SameOn(fs, mid, now, r);
    SameOn(fs, mid, now, q);
  }

  lemma StepHonoured(fs: Tree, mid: Tree, now: Tree, src: Path, dst: Path, done: set<Name>, n: Name,
                     before: multiset<Path>, then_: multiset<Path>, denied: multiset<Path>)
    requires PartHonoured(fs, mid, src, dst, done, before, then_) && n !in done && Disjoint(src, dst)
    requires Progress(fs, mid, src, dst, done) && Outside(mid, now, src + [n], dst + [n])
    requires BothHonoured(mid, now, src + [n], dst + [n], then_, denied)
    ensures PartHonoured(fs, now, src, dst, done + {n}, before, denied)
  {
    WaitingSubtree(fs, mid, src, dst, done, n);
    forall r | Added(before, denied, r)
      ensures dst <= r && r != dst && r[|dst|] in done + {n}
      ensures Rebase(dst, src, r) in fs && BothSame(fs, now, src, dst, r)
    {
      AddedLater(before, then_, denied, r);
      if Added(before, then_, r) {
        SameLater(fs, mid, now, src, dst, n, r);
      } else {
        SameInTurn(fs, mid, now, src, dst, n, r);
      }
    }
  }

  lemma StepHeld(fs: Tree, mid: Tree, now: Tree, src: Path, dst: Path, done: set<Name>, n: Name,
                 held: set<Path>, more: set<Path>)
    requires PartHeld(fs, mid, src, dst, done, held) && n !in done && Disjoint(src, dst)
    requires Progress(fs, mid, src, dst, done) && Outside(mid, now, src + [n], dst + [n])
    requires Held(mid, now, src + [n], dst + [n], more)
    ensures PartHeld(fs, now, src, dst, done + {n}, held + more)
  {
    WaitingSubtree(fs, mid, src, dst, done, n);
    forall r | r in held + more
      ensures dst <= r && r != dst && r[|dst|] in done + {n}
      ensures Rebase(dst, src, r) in fs && BothSame(fs, now, src, dst, r)
    {
      if r in held {
        SameLater(fs, mid, now, src, dst, n, r);
      } else {
        SameInTurn(fs, mid, now, src, dst, n, r);
      }
    }
  }

  lemma StepHeldFor(fs: Tree, mid: Tree, src: Path, dst: Path, done: set<Name>, n: Name,
                    held: set<Path>, more: set<Path>, before: multiset<Path>, then_: multiset<Path>,
                    denied: multiset<Path>, skipped: bool, skipping: bool)
    requires HeldFor(fs, dst, held, before, then_, skipped) && before <= then_ <= denied && (skipped ==> skipping)
    requires HeldFor(mid, dst + [n], more, then_, denied, skipping)
             || (skipping && more == {dst + [n]} && dst + [n] in mid)
    requires Progress(fs, mid, src, dst, done) && n !in done && forall r :: r in more ==> dst + [n] <= r
    ensures HeldFor(fs, dst, held + more, before, denied, skipping)
  {
    WaitingSubtree(fs, mid, src, dst, done, n);
    forall r | r in held + more
      ensures Added(before, denied, r) || (skipping && r in fs && r != dst)
    {
      AddedLater(before, then_, denied, r);
      if r in more {
        assert Get(mid, r) == Get(fs, r);
      }
    }
  }

  /** All that is known of a walk over the contents of two directories that merge. */
  ghost predicate Walking(k: Kernel, c: Child, fs: Tree, src: Path, dst: Path, done: set<Name>,
                          held: set<Path>, asked: multiset<Path>, policy: ConflictPolicy)
    reads k, c
  {
    && k.Valid() && c.actionLeaf == None && IsDir(k.nodes, dst)
    && Progress(fs, k.nodes, src, dst, done)
    && PartHonoured(fs, k.nodes, src, dst, done, asked, c.denied)
    && (k.Reliable() ==> PartTidy(fs, k.nodes, src, dst, done))
    && (WhenAgreed(c.conflictPolicy) == policy || (c.conflictPolicy == SkipExisting && c.denied != asked))
    && PartHeld(fs, k.nodes, src, dst, done, held)
    && HeldFor(fs, dst, held, asked, c.denied, WhenAgreed(c.conflictPolicy) != policy)
    && (k.Reliable() && policy != SkipExisting ==> PartExact(policy, fs, k.nodes, src, dst, done, held))
  }

  method MoveEntry(k: Kernel, c: Child, src: Path, dst: Path, n: Name, ghost fs: Tree, ghost done: set<Name>,
                   ghost held: set<Path>, ghost asked: multiset<Path>, ghost policy: ConflictPolicy)
    returns (ghost held': set<Path>)
    requires Disjoint(src, dst) && n !in done && Walking(k, c, fs, src, dst, done, held, asked, policy)
    requires src + [n] in k.nodes
    modifies k, c
    decreases Below(k.nodes, src + [n]), 4
    ensures Walking(k, c, fs, src, dst, done + {n}, held', asked, policy)
    ensures old(c.Unattended()) ==> c.Unattended() && c.denied == old(c.denied)
  {
    ghost var mid, then_, was := k.nodes, c.denied, c.conflictPolicy;
    ChildrenDisjoint(src, dst, n);
    ghost var more := DoMove2(k, c, src + [n], dst);
    if k.Reliable() {
      StepTidy(fs, mid, k.nodes, src, dst, done, n);
      if policy != SkipExisting {
        if WhenAgreed(was) != policy {
          more := Skipped(policy, mid, k.nodes, src + [n], dst + [n], more);
        }
        StepExact(policy, fs, mid, k.nodes, src, dst, done, n, held, more);
      }
    }
    StepHeld(fs, mid, k.nodes, src, dst, done, n, held, more);
    StepHeldFor(fs, mid, src, dst, done, n, held, more, asked, then_, c.denied,
                WhenAgreed(was) != policy, WhenAgreed(c.conflictPolicy) != policy);
    StepProgress(fs, mid, k.nodes, src, dst, done, n);
    StepHonoured(fs, mid, k.nodes, src, dst, done, n, asked, then_, c.denied);
    held' := held + more;
  }

  method MoveContents(k: Kernel, c: Child, src: Path, dst: Path) returns (ghost done: set<Name>, ghost held: set<Path>)
    requires k.Valid() && IsDir(k.nodes, src) && IsDir(k.nodes, dst) && Disjoint(src, dst)
    requires c.actionLeaf == None
    modifies k, c
    decreases Below(k.nodes, src), 0
    ensures Walking(k, c, old(k.nodes), src, dst, done, held, old(c.denied), WhenAgreed(old(c.conflictPolicy)))
    ensures k.Reliable() ==> done == Names(old(k.nodes), src)
    ensures old(c.Unattended()) ==> c.Unattended() && c.denied == old(c.denied)
  {
    ghost var policy, fs, asked := WhenAgreed(c.conflictPolicy), k.nodes, c.denied;
    done, held := {}, {};
    var names := k.ReadDir(src);
    if names == None {
      return;
    }
    var i := |names.value|;
    while i > 0
      invariant 0 <= i <= |names.value|
      invariant forall n :: n in Names(fs, src) <==> n in done || n in names.value[..i]
      invariant forall n :: n in names.value[..i] ==> n !in done
      invariant Walking(k, c, fs, src, dst, done, held, asked, policy)
      invariant old(c.Unattended()) ==> c.Unattended() && c.denied == asked
    {
      i := i - 1;
      BelowWaits(fs, k.nodes, src, dst, done, names.value[i]);
      StillThere(fs, k.nodes, src, dst, done, names.value[i]);
      held := MoveEntry(k, c, src, dst, names.value[i], fs, done, held, asked, policy);
      done := done + {names.value[i]};
      NamesSplit(names.value, i);
    }
  }

  lemma StillThere(fs: Tree, mid: Tree, src: Path, dst: Path, done: set<Name>, n: Name)
    requires Progress(fs, mid, src, dst, done) && n !in done && n in Names(fs, src)
    ensures src + [n] in mid
  {
    NamesAreChildren(fs, src);
    assert Waits(fs, mid, src, dst, src + [n]);
  }

  /** A run that stops before moving anything. */
  lemma StopAny(fs: Tree, cleared: Tree, src: Path, dst: Path)
    requires src != [] && dst != [] && Disjoint(src, dst) && Cleared(fs, cleared, dst)
    requires Get(cleared, dst) == Get(fs, dst) || (src in fs && !Merges(fs[src], Get(fs, dst)))
    ensures Outside(fs, cleared, src, dst) && AnyMove(fs, cleared, src, dst) && AllTidy(fs, cleared, src, dst)
  {
    ElsewhereSame(fs, cleared, dst, src);
    assert Rebase(src, dst, src) == dst;
    ParentApart(src, dst);
    ParentApart(dst, src);
    forall q | src <= q
      ensures Conserves(fs, cleared, src, dst, q) && Tidy(fs, cleared, src, dst, q)
    {
      assert Get(cleared, q) == Get(fs, q);
      assert q != src ==> Get(cleared, Rebase(src, dst, q)) == Get(fs, Rebase(src, dst, q));
      if IsDir(fs, q) && IsDir(fs, Rebase(src, dst, q)) {
        forall l | q <= l
          ensures Get(cleared, l) == Get(fs, l)
        {
          assert src <= l;
        }
      }
    }
  }

  lemma ParentApart(p: Path, q: Path)
    requires p != [] && Disjoint(p, q)
    ensures !(q <= Parent(p)) && !(p <= Parent(p))
  {
    if |q| < |p| {
      assert Parent(p)[..|q|] == p[..|q|];
    }
  }

  lemma StopHonoured(fs: Tree, src: Path, dst: Path, before: multiset<Path>, denied: multiset<Path>)
    requires denied == before || (denied == before + multiset{dst} && src in fs)
    ensures BothHonoured(fs, fs, src, dst, before, denied)
  {
    assert Rebase(dst, src, dst) == src;
  }

  /** Nothing planned: no source, an automatic policy that does not let it go, or a no from the user. */
  /** What a run that stops at once has held: the place itself, if the user has said no to it. */
  function HeldAtOnce(dst: Path, before: multiset<Path>, denied: multiset<Path>): set<Path> {
    if denied == before then {} else {dst}
  }

  /** Nothing planned: no source, an automatic policy that does not let it go, or a no from the user. */
  lemma StopExact(policy: ConflictPolicy, fs: Tree, src: Path, dst: Path,
                  before: multiset<Path>, denied: multiset<Path>)
    requires WellFormed(fs) && (denied == before || denied == before + multiset{dst})
    requires denied == before ==> src !in fs || !Goes(policy, fs[src], Get(fs, dst), HasChild(fs, dst))
    ensures ExactBut(policy, fs, fs, src, dst, HeldAtOnce(dst, before, denied))
  {
    assert Rebase(src, dst, src) == dst;
    forall q | src <= q
      ensures Under(HeldAtOnce(dst, before, denied), Rebase(src, dst, q)) ||
              Moved(policy, fs, fs, src, dst, q, HeldAtOnce(dst, before, denied))
    {
      if denied != before {
        assert dst in HeldAtOnce(dst, before, denied) && dst <= Rebase(src, dst, q);
      } else if q in fs && q != src {
        AncestorIsDir(fs, src, q);
      }
    }
  }

  lemma StopHeld(fs: Tree, src: Path, dst: Path, before: multiset<Path>, denied: multiset<Path>, skipping: bool)
    requires denied == before || (denied == before + multiset{dst} && src in fs)
    ensures Held(fs, fs, src, dst, HeldAtOnce(dst, before, denied))
    ensures HeldFor(fs, dst, HeldAtOnce(dst, before, denied), before, denied, skipping)
  {
    assert Rebase(dst, src, dst) == src;
  }

  lemma Stopped(policy: ConflictPolicy, exact: bool, fs: Tree, src: Path, dst: Path,
                before: multiset<Path>, denied: multiset<Path>, skipping: bool)
    requires WellFormed(fs) && src != [] && dst != [] && Disjoint(src, dst)
    requires denied == before || (denied == before + multiset{dst} && src in fs)
    requires exact && denied == before ==> src !in fs || !Goes(policy, fs[src], Get(fs, dst), HasChild(fs, dst))
    ensures Outside(fs, fs, src, dst) && AnyMove(fs, fs, src, dst) && AllTidy(fs, fs, src, dst)
    ensures BothHonoured(fs, fs, src, dst, before, denied)
    ensures Held(fs, fs, src, dst, HeldAtOnce(dst, before, denied))
    ensures HeldFor(fs, dst, HeldAtOnce(dst, before, denied), before, denied, skipping)
    ensures exact ==> ExactBut(policy, fs, fs, src, dst, HeldAtOnce(dst, before, denied))
  {
    StopAny(fs, fs, src, dst);
    StopHonoured(fs, src, dst, before, denied);
    StopHeld(fs, src, dst, before, denied, skipping);
    if exact {
      StopExact(policy, fs, src, dst, before, denied);
    }
  }

  lemma MvOutside(fs: Tree, cleared: Tree, src: Path, dst: Path, t: int)
    requires src != [] && dst != [] && Disjoint(src, dst) && Cleared(fs, cleared, dst)
    ensures Outside(fs, Relocated(cleared, src, dst, t), src, dst)
  {
    ParentApart(src, dst);
    ParentApart(dst, src);
    forall q | !(src <= q) && !(dst <= q)
      ensures Get(Renamed(cleared, src, dst), q) == Get(cleared, q)
    {
      assert Get(Renamed(cleared, src, dst), q) == RenamedAt(cleared, src, dst, q);
    }
  }

  lemma MvAt(fs: Tree, cleared: Tree, src: Path, dst: Path, t: int, q: Path)
    requires src != [] && dst != [] && Disjoint(src, dst) && src <= q && SameAt(fs, cleared, src)
    requires q in fs || Rebase(src, dst, q) !in cleared
    ensures q !in Relocated(cleared, src, dst, t)
    ensures Get(Relocated(cleared, src, dst, t), Rebase(src, dst, q)) == Get(fs, q)
  {
    ParentApart(src, dst);
    ParentApart(dst, src);
    RebaseInverse(src, dst, q);
    var p := Rebase(src, dst, q);
    NotBoth(src, dst, q);
    NotBoth(src, dst, p);
    assert Get(Renamed(cleared, src, dst), p) == RenamedAt(cleared, src, dst, p);
    assert Get(Renamed(cleared, src, dst), q) == RenamedAt(cleared, src, dst, q);
    assert Get(cleared, q) == Get(fs, q);
  }

  lemma MvDone(fs: Tree, cleared: Tree, src: Path, dst: Path, t: int)
    requires WellFormed(fs) && src != [] && dst != [] && Disjoint(src, dst)
    requires Cleared(fs, cleared, dst) && dst !in cleared && src in fs && !Merges(fs[src], Get(fs, dst))
    ensures Outside(fs, Relocated(cleared, src, dst, t), src, dst)
    ensures forall q :: src <= q ==> q !in Relocated(cleared, src, dst, t)
    ensures forall q :: src <= q ==> Get(Relocated(cleared, src, dst, t), Rebase(src, dst, q)) == Get(fs, q)
    ensures !HasChild(fs, dst) && forall p :: dst <= p && p != dst ==> p !in fs
  {
    MvOutside(fs, cleared, src, dst, t);
    ElsewhereSame(fs, cleared, dst, src);
    if dst !in fs {
      AbsentBelow(fs, dst);
    }
    EmptyBelow(fs, dst);
    forall q | src <= q
      ensures q !in Relocated(cleared, src, dst, t)
      ensures Get(Relocated(cleared, src, dst, t), Rebase(src, dst, q)) == Get(fs, q)
    {
      var p := Rebase(src, dst, q);
      assert p != dst ==> Get(cleared, p) == Get(fs, p);
      MvAt(fs, cleared, src, dst, t, q);
    }
  }

  lemma MvKeeps(policy: ConflictPolicy, fs: Tree, now: Tree, src: Path, dst: Path)
    requires WellFormed(fs) && src in fs && !Merges(fs[src], Get(fs, dst)) && !HasChild(fs, dst)
    requires forall q :: src <= q ==> q !in now && Get(now, Rebase(src, dst, q)) == Get(fs, q)
    requires forall p :: dst <= p && p != dst ==> p !in fs
    ensures AnyMove(fs, now, src, dst) && AllTidy(fs, now, src, dst)
    ensures Goes(policy, fs[src], Get(fs, dst), HasChild(fs, dst)) ==> Exact(policy, fs, now, src, dst)
  {
    assert Rebase(src, dst, src) == dst;
    forall q | src <= q
      ensures Conserves(fs, now, src, dst, q) && Tidy(fs, now, src, dst, q)
      ensures Goes(policy, fs[src], Get(fs, dst), HasChild(fs, dst)) ==>
        Moved(policy, fs, now, src, dst, q, {})
    {
      var p := Rebase(src, dst, q);
      if q != src {
        assert p != dst && p !in fs;
        AbsentBelow(fs, p);
      }
    }
  }

  /** The source directory after its contents: gone, or left with something in it or for want of permission. */
  ghost predicate Closed(mid: Tree, now: Tree, src: Path, sure: bool)
    requires src != []
  {
    || (now == mid && (sure ==> HasChild(mid, src)))
    || (!HasChild(mid, src) && exists t :: now == Removing(mid, src, t))
  }

  lemma ClosedAny(fs: Tree, mid: Tree, now: Tree, src: Path, dst: Path, done: set<Name>, sure: bool)
    requires WellFormed(fs) && WellFormed(mid) && src != [] && dst != [] && Disjoint(src, dst)
    requires IsDir(fs, src) && IsDir(fs, dst) && Progress(fs, mid, src, dst, done) && Closed(mid, now, src, sure)
    ensures AnyMove(fs, now, src, dst) && Outside(fs, now, src, dst)
    ensures sure && PartTidy(fs, mid, src, dst, done) && Names(fs, src) <= done ==> AllTidy(fs, now, src, dst)
  {
    assert Rebase(src, dst, src) == dst;
    ParentApart(src, dst);
    ParentApart(dst, src);
    BelowSame(mid, now, src, sure);
    forall q | src <= q && q != src
      ensures Get(now, q) == Get(mid, q)
      ensures Get(now, Rebase(src, dst, q)) == Get(mid, Rebase(src, dst, q))
    {
      ImageApart(src, dst, q);
    }
    assert Get(now, dst) == Get(mid, dst);
    forall q | src <= q
      ensures Conserves(fs, now, src, dst, q)
    {
      if q != src {
        assert if q[|src|] in done then Conserves(fs, mid, src, dst, q) else Waits(fs, mid, src, dst, q);
      }
    }
    if sure && PartTidy(fs, mid, src, dst, done) && Names(fs, src) <= done {
      forall q | src <= q
        ensures Tidy(fs, now, src, dst, q)
      {
        ClosedTidy(fs, mid, now, src, dst, done, q);
      }
    }
  }

  lemma BelowSame(mid: Tree, now: Tree, src: Path, sure: bool)
    requires WellFormed(mid) && src != [] && IsDir(mid, src) && Closed(mid, now, src, sure)
    ensures forall q :: q != src && q != Parent(src) ==> Get(now, q) == Get(mid, q)
    ensures LikeOption(Get(mid, Parent(src)), Get(now, Parent(src)))
    ensures now == mid || src !in now
    ensures HasChild(now, src) == HasChild(mid, src)
  {
    NamesAreChildren(mid, src);
    NamesAreChildren(now, src);
    assert Parent(src) != src;
    forall n: Name
      ensures n in Names(now, src) <==> n in Names(mid, src)
    {
      assert src + [n] != Parent(src);
    }
    assert Names(now, src) == Names(mid, src);
  }

  lemma ImageApart(src: Path, dst: Path, q: Path)
    requires Disjoint(src, dst) && src <= q
    ensures !(src <= Rebase(src, dst, q)) && !(dst <= q)
  {
    NotBoth(src, dst, Rebase(src, dst, q));
    NotBoth(src, dst, q);
  }

  lemma ClosedTidy(fs: Tree, mid: Tree, now: Tree, src: Path, dst: Path, done: set<Name>, q: Path)
    requires WellFormed(fs) && WellFormed(mid) && src != [] && dst != [] && Disjoint(src, dst) && src <= q
    requires IsDir(fs, src) && IsDir(fs, dst) && Progress(fs, mid, src, dst, done) && Closed(mid, now, src, true)
    requires PartTidy(fs, mid, src, dst, done) && Names(fs, src) <= done
    ensures Tidy(fs, now, src, dst, q)
  {
    if q == src {
      BelowSame(mid, now, src, true);
    } else if q[|src|] in done {
      assert Tidy(fs, mid, src, dst, q);
      ClosedSubtrees(mid, now, src, dst, q, true);
      TidyKept(fs, mid, now, src, dst, q);
    } else {
      ChildMissing(fs, src, q);
    }
  }

  lemma ClosedSubtrees(mid: Tree, now: Tree, src: Path, dst: Path, q: Path, sure: bool)
    requires WellFormed(mid) && src != [] && Disjoint(src, dst) && src <= q && q != src
    requires IsDir(mid, src) && Closed(mid, now, src, sure)
    ensures SameAt(mid, now, q) && SameAt(mid, now, Rebase(src, dst, q))
  {
    BelowSame(mid, now, src, sure);
    ParentApart(src, dst);
    var p := Rebase(src, dst, q);
    forall l | q <= l
      ensures Get(now, l) == Get(mid, l)
    {
    }
    forall l | p <= l
      ensures Get(now, l) == Get(mid, l)
    {
      assert dst <= l;
      NotBoth(src, dst, l);
    }
  }

  /** A refused leaf has something at its image, so the directories above it merge. */
  lemma RefusedMerges(policy: ConflictPolicy, fs: Tree, src: Path, dst: Path, q: Path, l: Path,
                      held: set<Path>)
    requires WellFormed(fs) && src <= q && q <= l && q != l && Refused(policy, fs, src, dst, l)
    ensures IsDir(fs, q) && IsDir(fs, Rebase(src, dst, q)) && Stays(policy, fs, src, dst, q, held)
  {
    assert Left(policy, fs, src, dst, l, held);
    assert Rebase(src, dst, l) in fs;
    RebaseBelow(src, dst, q, l);
    AncestorIsDir(fs, q, l);
    AncestorIsDir(fs, Rebase(src, dst, q), Rebase(src, dst, l));
  }

  /** A held place has its source where it was. */
  lemma HeldSame(fs: Tree, mid: Tree, src: Path, dst: Path, done: set<Name>, q: Path,
                     held: set<Path>)
    requires PartHeld(fs, mid, src, dst, done, held) && src <= q
    requires Rebase(src, dst, q) in held
    ensures q in fs && Get(mid, q) == Get(fs, q)
  {
    RebaseInverse(src, dst, q);
    assert BothSame(fs, mid, src, dst, Rebase(src, dst, q));
  }

  /** Of a child of the directory, nothing above it can be held. */
  lemma ChildHeld(fs: Tree, mid: Tree, src: Path, dst: Path, done: set<Name>, n: Name,
                      held: set<Path>)
    requires PartHeld(fs, mid, src, dst, done, held) && Under(held, dst + [n])
    ensures dst + [n] in held
  {
    var r :| r in held && r <= dst + [n];
    assert r == dst + [n];
  }

  lemma LeftChild(policy: ConflictPolicy, fs: Tree, mid: Tree, src: Path, dst: Path, l: Path,
                  held: set<Path>)
    requires WellFormed(fs) && WellFormed(mid) && policy != SkipExisting && src <= l && l != src
    requires Left(policy, fs, src, dst, l, held)
    requires PartExact(policy, fs, mid, src, dst, Names(fs, src), held)
    requires PartHeld(fs, mid, src, dst, Names(fs, src), held)
    ensures HasChild(mid, src)
  {
    var q := src + [l[|src|]];
    BelowChild(src, l);
    NamesAreChildren(fs, src);
    NamesAreChildren(mid, src);
    if Rebase(src, dst, l) in held {
      HeldSame(fs, mid, src, dst, Names(fs, src), l, held);
      if q != l {
        AncestorIsDir(mid, q, l);
      }
    } else {
      RefusedChild(policy, fs, mid, src, dst, q, l, held);
    }
    assert q in mid;
  }

  lemma RefusedChild(policy: ConflictPolicy, fs: Tree, mid: Tree, src: Path, dst: Path, q: Path, l: Path,
                     held: set<Path>)
    requires WellFormed(fs) && policy != SkipExisting && src <= l && l != src
    requires q == src + [l[|src|]] && q <= l && Refused(policy, fs, src, dst, l)
    requires PartExact(policy, fs, mid, src, dst, Names(fs, src), held)
    requires PartHeld(fs, mid, src, dst, Names(fs, src), held)
    ensures q in mid
  {
    NamesAreChildren(fs, src);
    if q != l {
      RefusedMerges(policy, fs, src, dst, q, l, held);
    }
    assert Rebase(src, dst, q) == dst + [l[|src|]];
    if Under(held, Rebase(src, dst, q)) {
      ChildHeld(fs, mid, src, dst, Names(fs, src), l[|src|], held);
      HeldSame(fs, mid, src, dst, Names(fs, src), q, held);
    } else {
      assert Moved(policy, fs, mid, src, dst, q, held);
    }
  }

  lemma RebaseBelow(src: Path, dst: Path, q: Path, l: Path)
    requires src <= q && q <= l && q != l
    ensures Rebase(src, dst, q) <= Rebase(src, dst, l) && Rebase(src, dst, q) != Rebase(src, dst, l)
  {
    assert l[|src|..][..|q| - |src|] == q[|src|..];
  }

  lemma ChildGone(policy: ConflictPolicy, fs: Tree, mid: Tree, src: Path, dst: Path, n: Name,
                  held: set<Path>)
    requires policy != SkipExisting && !Stays(policy, fs, src, dst, src, held)
    requires Progress(fs, mid, src, dst, Names(fs, src))
    requires PartExact(policy, fs, mid, src, dst, Names(fs, src), held)
    requires PartHeld(fs, mid, src, dst, Names(fs, src), held)
    ensures src + [n] !in mid
  {
    var q := src + [n];
    NamesAreChildren(fs, src);
    if n in Names(fs, src) {
      assert Rebase(src, dst, q) == dst + [n];
      assert !Left(policy, fs, src, dst, q, held);
      if Under(held, dst + [n]) {
        ChildHeld(fs, mid, src, dst, Names(fs, src), n, held);
        assert false;
      }
      assert Moved(policy, fs, mid, src, dst, q, held);
      assert !Stays(policy, fs, src, dst, q, held) by {
        assert forall l :: q <= l ==> !Left(policy, fs, src, dst, l, held);
      }
    } else {
      assert Waits(fs, mid, src, dst, q);
    }
  }

  /** Something is left in the source directory exactly when a refused leaf or a held place is below it. */
  lemma LeftOver(policy: ConflictPolicy, fs: Tree, mid: Tree, src: Path, dst: Path,
                 held: set<Path>)
    requires WellFormed(fs) && WellFormed(mid) && IsDir(fs, src) && IsDir(fs, dst) && policy != SkipExisting
    requires Progress(fs, mid, src, dst, Names(fs, src))
    requires PartExact(policy, fs, mid, src, dst, Names(fs, src), held)
    requires PartHeld(fs, mid, src, dst, Names(fs, src), held)
    ensures HasChild(mid, src) <==> Stays(policy, fs, src, dst, src, held)
  {
    if Stays(policy, fs, src, dst, src, held) {
      var l :| src <= l && Left(policy, fs, src, dst, l, held);
      assert Rebase(src, dst, src) == dst && l != src;
      LeftChild(policy, fs, mid, src, dst, l, held);
    } else {
      NamesAreChildren(mid, src);
      forall n: Name
        ensures src + [n] !in mid
      {
        ChildGone(policy, fs, mid, src, dst, n, held);
      }
    }
  }

  lemma ClosedExactBelow(policy: ConflictPolicy, fs: Tree, mid: Tree, now: Tree, src: Path, dst: Path, q: Path,
                         held: set<Path>)
    requires WellFormed(fs) && src <= q && q != src && Progress(fs, mid, src, dst, Names(fs, src))
    requires PartExact(policy, fs, mid, src, dst, Names(fs, src), held) && Waits(mid, now, src, dst, q)
    ensures Under(held, Rebase(src, dst, q)) || Moved(policy, fs, now, src, dst, q, held)
  {
    if q[|src|] !in Names(fs, src) {
      assert Waits(fs, mid, src, dst, q);
      ChildMissing(fs, src, q);
    } else {
      assert Under(held, Rebase(src, dst, q)) || Moved(policy, fs, mid, src, dst, q, held);
    }
  }

  /** Taking the directory away, or leaving it, changes nothing of what was in the two. */
  lemma ClosedBelow(mid: Tree, now: Tree, src: Path, dst: Path, q: Path)
    requires WellFormed(mid) && src != [] && Disjoint(src, dst) && src <= q && q != src
    requires IsDir(mid, src) && Closed(mid, now, src, true)
    ensures Waits(mid, now, src, dst, q)
  {
    BelowSame(mid, now, src, true);
    ParentApart(src, dst);
    ImageApart(src, dst, q);
  }

  lemma ClosedExact(policy: ConflictPolicy, fs: Tree, mid: Tree, now: Tree, src: Path, dst: Path,
                    held: set<Path>)
    requires WellFormed(fs) && WellFormed(mid) && src != [] && dst != [] && Disjoint(src, dst)
    requires IsDir(fs, src) && IsDir(fs, dst) && policy != SkipExisting
    requires Progress(fs, mid, src, dst, Names(fs, src)) && Closed(mid, now, src, true)
    requires PartExact(policy, fs, mid, src, dst, Names(fs, src), held)
    requires PartHeld(fs, mid, src, dst, Names(fs, src), held)
    ensures ExactBut(policy, fs, now, src, dst, held)
  {
    forall q | src <= q
      ensures Under(held, Rebase(src, dst, q)) || Moved(policy, fs, now, src, dst, q, held)
    {
      if q == src {
        TopMoved(policy, fs, mid, now, src, dst, held);
      } else {
        ClosedBelow(mid, now, src, dst, q);
        ClosedExactBelow(policy, fs, mid, now, src, dst, q, held);
      }
    }
  }

  lemma TopMoved(policy: ConflictPolicy, fs: Tree, mid: Tree, now: Tree, src: Path, dst: Path,
                 held: set<Path>)
    requires WellFormed(fs) && WellFormed(mid) && src != [] && dst != [] && Disjoint(src, dst)
    requires IsDir(fs, src) && IsDir(fs, dst) && policy != SkipExisting
    requires Progress(fs, mid, src, dst, Names(fs, src)) && Closed(mid, now, src, true)
    requires PartExact(policy, fs, mid, src, dst, Names(fs, src), held)
    requires PartHeld(fs, mid, src, dst, Names(fs, src), held)
    ensures Moved(policy, fs, now, src, dst, src, held)
  {
    assert Rebase(src, dst, src) == dst;
    LeftOver(policy, fs, mid, src, dst, held);
    BelowSame(mid, now, src, true);
    ParentApart(src, dst);
    ImageApart(src, dst, src);
    assert Get(now, dst) == Get(mid, dst);
  }

  lemma ClosedSame(fs: Tree, mid: Tree, now: Tree, src: Path, dst: Path, r: Path, sure: bool)
    requires WellFormed(mid) && src != [] && dst != [] && Disjoint(src, dst)
    requires IsDir(mid, src) && Closed(mid, now, src, sure)
    requires dst <= r && r != dst && BothSame(fs, mid, src, dst, r)
    ensures BothSame(fs, now, src, dst, r)
  {
    var q := Rebase(dst, src, r);
    RebaseInverse(dst, src, r);
    ClosedSubtrees(mid, now, src, dst, q, sure);
    SameOn(fs, mid, now, r);
    SameOn(fs, mid, now, q);
  }

  lemma ClosedHeld(fs: Tree, mid: Tree, now: Tree, src: Path, dst: Path, done: set<Name>, held: set<Path>, sure: bool)
    requires WellFormed(mid) && src != [] && dst != [] && Disjoint(src, dst)
    requires IsDir(mid, src) && Closed(mid, now, src, sure) && PartHeld(fs, mid, src, dst, done, held)
    ensures Held(fs, now, src, dst, held)
  {
    forall r | r in held
      ensures BothSame(fs, now, src, dst, r)
    {
      ClosedSame(fs, mid, now, src, dst, r, sure);
    }
  }

  lemma ClosedHonoured(fs: Tree, mid: Tree, now: Tree, src: Path, dst: Path, done: set<Name>,
                       before: multiset<Path>, denied: multiset<Path>, sure: bool)
    requires WellFormed(mid) && src != [] && dst != [] && Disjoint(src, dst)
    requires IsDir(mid, src) && Closed(mid, now, src, sure)
    requires PartHonoured(fs, mid, src, dst, done, before, denied)
    ensures BothHonoured(fs, now, src, dst, before, denied)
  {
    forall r | Added(before, denied, r)
      ensures Rebase(dst, src, r) in fs && BothSame(fs, now, src, dst, r)
    {
      ClosedSame(fs, mid, now, src, dst, r, sure);
    }
  }

  method MergeDirs(k: Kernel, c: Child, path: Path, destPath: Path) returns (ghost held: set<Path>)
    requires k.Valid() && path != [] && destPath != [] && Disjoint(path, destPath)
    requires IsDir(k.nodes, path) && IsDir(k.nodes, destPath)
    modifies k, c
    decreases Below(k.nodes, path), 1
    ensures k.Valid() && c.actionLeaf == None
    ensures Outside(old(k.nodes), k.nodes, path, destPath) && AnyMove(old(k.nodes), k.nodes, path, destPath)
    ensures BothHonoured(old(k.nodes), k.nodes, path, destPath, old(c.denied), c.denied)
    ensures old(c.Unattended()) ==> c.Unattended() && c.denied == old(c.denied)
    ensures k.Reliable() ==> AllTidy(old(k.nodes), k.nodes, path, destPath)
    ensures StaysOrSkips(old(c.conflictPolicy), c.conflictPolicy)
    ensures c.denied == old(c.denied) ==> WhenAgreed(c.conflictPolicy) == WhenAgreed(old(c.conflictPolicy))
    ensures Held(old(k.nodes), k.nodes, path, destPath, held)
    ensures HeldFor(old(k.nodes), destPath, held, old(c.denied), c.denied,
                    WhenAgreed(c.conflictPolicy) != WhenAgreed(old(c.conflictPolicy)))
    ensures k.Reliable() && old(c.conflictPolicy) != SkipExisting ==>
      ExactBut(WhenAgreed(old(c.conflictPolicy)), old(k.nodes), k.nodes, path, destPath, held)
  {
    ghost var fs, policy := k.nodes, WhenAgreed(c.conflictPolicy);
    c.actionLeaf := None;
    ghost var done;
    done, held := MoveContents(k, c, path, destPath);
    ghost var mid := k.nodes;
    var err := k.Rmdir(path);
    assert err == OK ==> k.nodes == Removing(mid, path, k.clock);
    assert Closed(mid, k.nodes, path, k.Reliable());
    ClosedAny(fs, mid, k.nodes, path, destPath, done, k.Reliable());
    ClosedHonoured(fs, mid, k.nodes, path, destPath, done, old(c.denied), c.denied, k.Reliable());
    ClosedHeld(fs, mid, k.nodes, path, destPath, done, held, k.Reliable());
    if k.Reliable() && policy != SkipExisting {
      ClosedExact(policy, fs, mid, k.nodes, path, destPath, held);
    }
  }

  method DoMove2(k: Kernel, c: Child, path: Path, dest: Path) returns (ghost held: set<Path>)
    requires k.Valid() && path != []
    requires Disjoint(path, c.DestPath(path, dest))
    modifies k, c
    decreases Below(k.nodes, path), 3
    ensures k.Valid() && (c.actionLeaf == old(c.actionLeaf) || c.actionLeaf == None)
    ensures Outside(old(k.nodes), k.nodes, path, old(c.DestPath(path, dest)))
    ensures AnyMove(old(k.nodes), k.nodes, path, old(c.DestPath(path, dest)))
    ensures k.Reliable() ==> AllTidy(old(k.nodes), k.nodes, path, old(c.DestPath(path, dest)))
    ensures BothHonoured(old(k.nodes), k.nodes, path, old(c.DestPath(path, dest)), old(c.denied), c.denied)
    ensures old(c.Unattended()) ==> c.Unattended() && c.denied == old(c.denied)
    ensures StaysOrSkips(old(c.conflictPolicy), c.conflictPolicy)
    ensures c.denied == old(c.denied) ==> WhenAgreed(c.conflictPolicy) == WhenAgreed(old(c.conflictPolicy))
    ensures Held(old(k.nodes), k.nodes, path, old(c.DestPath(path, dest)), held)
    ensures HeldFor(old(k.nodes), old(c.DestPath(path, dest)), held, old(c.denied), c.denied,
                    WhenAgreed(c.conflictPolicy) != WhenAgreed(old(c.conflictPolicy)))
    ensures k.Reliable() && old(IsDir(k.nodes, dest)) ==>
      ExactBut(WhenAgreed(old(c.conflictPolicy)), old(k.nodes), k.nodes, path, old(c.DestPath(path, dest)), held)
  {
    hide Outside, AnyMove, AllTidy, BothHonoured, Held, HeldFor, ExactBut, SameAt;
    c.CheckFlags();
    ghost var fs := k.nodes;
    var destPath := c.DestPath(path, dest);
    ghost var policy := WhenAgreed(c.conflictPolicy);
    ghost var exact := k.Reliable() && IsDir(fs, dest);
    var info := k.Lstat(path);
    if info.Some? {
      var go := MakeWay(k, c, info.value, destPath);
      if go {
        ElsewhereSame(fs, k.nodes, destPath, path);
        BelowAgrees(fs, k.nodes, path);
        held := PutMove(k, c, path, destPath, info.value, policy, fs);
        return;
      }
    }
    held := HeldAtOnce(destPath, old(c.denied), c.denied);
    Stopped(policy, exact, fs, path, destPath, old(c.denied), c.denied, WhenAgreed(c.conflictPolicy) != policy);
  }

  /** The way is free: two directories are merged, anything else is moved as a whole. */
  method PutMove(k: Kernel, c: Child, path: Path, destPath: Path, info: Node, ghost policy: ConflictPolicy,
                 ghost fs: Tree)
    returns (ghost held: set<Path>)
    requires k.Valid() && WellFormed(fs) && path != [] && destPath != [] && Disjoint(path, destPath)
    requires Cleared(fs, k.nodes, destPath) && SameAt(fs, k.nodes, path) && Get(fs, path) == Some(info)
    requires k.nodes == fs || (destPath !in k.nodes && !Merges(info, Get(fs, destPath)))
    requires destPath in k.nodes ==> k.blind(destPath) || Merges(info, Get(k.nodes, destPath))
    requires k.Reliable() && c.conflictPolicy == SkipExisting ==> destPath !in fs
    requires policy == WhenAgreed(c.conflictPolicy)
    modifies k, c
    decreases Below(k.nodes, path), 2
    ensures k.Valid() && (c.actionLeaf == old(c.actionLeaf) || c.actionLeaf == None)
    ensures Outside(fs, k.nodes, path, destPath) && AnyMove(fs, k.nodes, path, destPath)
    ensures k.Reliable() ==> AllTidy(fs, k.nodes, path, destPath)
    ensures BothHonoured(fs, k.nodes, path, destPath, old(c.denied), c.denied)
    ensures old(c.Unattended()) ==> c.Unattended() && c.denied == old(c.denied)
    ensures StaysOrSkips(old(c.conflictPolicy), c.conflictPolicy)
    ensures c.denied == old(c.denied) ==> WhenAgreed(c.conflictPolicy) == policy
    ensures Held(fs, k.nodes, path, destPath, held)
    ensures HeldFor(fs, destPath, held, old(c.denied), c.denied, WhenAgreed(c.conflictPolicy) != policy)
    ensures (k.Reliable() && IsDir(fs, Parent(destPath)) &&
             Goes(policy, info, Get(fs, destPath), HasChild(fs, destPath))) ==>
      ExactBut(policy, fs, k.nodes, path, destPath, held)
  {
    assert Get(k.nodes, path) == Get(fs, path);
    held := {};
    if info.Dir? {
      var destInfo := k.Lstat(destPath);
      if destInfo.Some? && !destInfo.value.Dir? {
        return;
      }
      if destInfo.Some? {
        held := MergeDirs(k, c, path, destPath);
        return;
      }
    }
    MoveAway(k, path, destPath, policy, fs);
  }

  /** The actual `mv`. */
  method MoveAway(k: Kernel, path: Path, destPath: Path, ghost policy: ConflictPolicy, ghost fs: Tree)
    requires k.Valid() && WellFormed(fs) && path != [] && destPath != [] && Disjoint(path, destPath)
    requires path in k.nodes && path in fs && Cleared(fs, k.nodes, destPath)
    requires if destPath in k.nodes then k.blind(destPath) else !Merges(fs[path], Get(fs, destPath))
    modifies k
    ensures k.Valid()
    ensures Outside(fs, k.nodes, path, destPath) && AnyMove(fs, k.nodes, path, destPath)
    ensures AllTidy(fs, k.nodes, path, destPath)
    ensures (k.Reliable() && IsDir(fs, Parent(destPath)) &&
             Goes(policy, fs[path], Get(fs, destPath), HasChild(fs, destPath))) ==>
      Exact(policy, fs, k.nodes, path, destPath)
  {
    ghost var cleared := k.nodes;
    StopAny(fs, cleared, path, destPath);
    var err := k.Mv(path, destPath);
    if err == OK {
      MvDone(fs, cleared, path, destPath, k.clock);
      MvKeeps(policy, fs, k.nodes, path, destPath);
    }
  }

  /** An object is not moved onto or into itself; the caller sees to the other direction. */
  method DoMove(k: Kernel, c: Child, path: Path, dest: Path) returns (refused: bool, ghost held: set<Path>)
    requires k.Valid() && (path != [] ==> !(c.DestPath(path, dest) <= path && c.DestPath(path, dest) != path))
    modifies k, c
    ensures k.Valid() && refused == (path == [] || path <= old(c.DestPath(path, dest)))
    ensures refused ==> k.nodes == old(k.nodes)
    ensures !refused ==>
      Outside(old(k.nodes), k.nodes, path, old(c.DestPath(path, dest))) &&
      AnyMove(old(k.nodes), k.nodes, path, old(c.DestPath(path, dest))) &&
      BothHonoured(old(k.nodes), k.nodes, path, old(c.DestPath(path, dest)), old(c.denied), c.denied)
    ensures !refused && k.Reliable() ==>
      AllTidy(old(k.nodes), k.nodes, path, old(c.DestPath(path, dest)))
    ensures old(c.Unattended()) ==> c.denied == old(c.denied)
    ensures !refused ==>
      Held(old(k.nodes), k.nodes, path, old(c.DestPath(path, dest)), held) &&
      HeldFor(old(k.nodes), old(c.DestPath(path, dest)), held, old(c.denied), c.denied,
              WhenAgreed(c.conflictPolicy) != WhenAgreed(old(c.conflictPolicy)))
    ensures !refused && k.Reliable() && old(IsDir(k.nodes, dest)) ==>
      ExactBut(WhenAgreed(old(c.conflictPolicy)), old(k.nodes), k.nodes, path, old(c.DestPath(path, dest)), held)
    ensures !refused && k.Reliable() && old(IsDir(k.nodes, dest)) && c.denied == old(c.denied) ==>
      Exact(WhenAgreed(old(c.conflictPolicy)), old(k.nodes), k.nodes, path, old(c.DestPath(path, dest)))
  {
    if path == [] || path <= c.DestPath(path, dest) {
      return true, {};
    }
    hide Outside, AnyMove, AllTidy, BothHonoured, Held, HeldFor, ExactBut, Exact;
    ghost var fs, destPath, policy, denied := k.nodes, c.DestPath(path, dest), WhenAgreed(c.conflictPolicy), c.denied;
    held := DoMove2(k, c, path, dest);
    if c.denied == denied {
      NothingHeld(policy, fs, k.nodes, path, destPath, held, denied);
    }
    return false, held;
  }

  /**
   * In every run, a leaf of the source ends where it was or at its image, and at just one of the two;
   * what has something in it is safe.
   */
  lemma LeafAtOnePlace(fs: Tree, now: Tree, src: Path, dst: Path, q: Path)
    requires AnyMove(fs, now, src, dst) && src <= q && IsLeaf(fs, q)
    ensures var p := Rebase(src, dst, q);
            && (Get(now, q) == Get(fs, q) || (q !in now && Get(now, p) == Get(fs, q)))
            && (q in now ==> Get(now, p) == Get(fs, p) || p !in now)
            && (HasChild(fs, p) ==> Get(now, p) == Get(fs, p))
  {
    assert Conserves(fs, now, src, dst, q);
  }
}
