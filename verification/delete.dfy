/** Deleting one selected path. */
module Deleting {
  import opened Wrappers
  import opened Paths
  import opened Kernels
  import opened Children
  import opened Conflicts

  /** `spared`: subtrees left whole. `stuck`: single entries that would not go. */
  predicate Survives(spared: set<Path>, stuck: set<Path>, p: Path) {
    || (exists r :: r in spared && (r <= p || p <= r))
    || (exists r :: r in stuck && p <= r)
  }

  predicate Settled(fs: Tree, now: Tree, spared: set<Path>, stuck: set<Path>, p: Path) {
    if p in fs && Survives(spared, stuck, p) then LikeOption(Get(fs, p), Get(now, p)) else p !in now
  }

  ghost predicate Deleted(fs: Tree, now: Tree, path: Path, spared: set<Path>, stuck: set<Path>) {
    forall p :: path <= p ==> Settled(fs, now, spared, stuck, p)
  }

  /** Nothing is spared or stuck that was not there below `path` and is not there still. */
  ghost predicate Present(fs: Tree, now: Tree, path: Path, held: set<Path>) {
    forall r :: r in held ==> path <= r && r in fs && r in now
  }

  /**
   * Everything spared has a cause since the start of the run, when `asked` and `failed` had
   * been denied and had failed: a no from the user, or a call that failed on it.
   */
  ghost predicate Caused(k: Kernel, asked: multiset<Path>, denied: multiset<Path>,
                         failed: multiset<Path>, failures: multiset<Path>, spared: set<Path>, stuck: set<Path>)
  {
    && (forall r :: r in spared ==> Added(asked, denied, r) || Added(failed, failures, r) || k.blind(r))
    && (forall r :: r in stuck ==> Added(failed, failures, r))
  }

  lemma CausedOn(k: Kernel, asked: multiset<Path>, asked': multiset<Path>, denied: multiset<Path>,
                 failed: multiset<Path>, failed': multiset<Path>, failures: multiset<Path>,
                 spared: set<Path>, stuck: set<Path>, spared': set<Path>, stuck': set<Path>)
    requires asked <= asked' <= denied && failed <= failed' <= failures
    requires Caused(k, asked, asked', failed, failed', spared, stuck)
    requires Caused(k, asked', denied, failed', failures, spared', stuck')
    ensures Caused(k, asked, denied, failed, failures, spared + spared', stuck + stuck')
  {
    forall r: Path
      ensures Added(asked, asked', r) || Added(asked', denied, r) ==> Added(asked, denied, r)
      ensures Added(failed, failed', r) || Added(failed', failures, r) ==> Added(failed, failures, r)
    {
      AddedLater(asked, asked', denied, r);
      AddedLater(failed, failed', failures, r);
    }
  }

  lemma HonouredOn(asked: multiset<Path>, asked': multiset<Path>, denied: multiset<Path>,
                   spared: set<Path>, spared': set<Path>)
    requires asked <= asked' <= denied && Honoured(asked, asked', spared) && Honoured(asked', denied, spared')
    ensures Honoured(asked, denied, spared + spared')
  {
    forall r | Added(asked, denied, r)
      ensures r in spared + spared'
    {
      AddedLater(asked, asked', denied, r);
    }
  }

  /** Every no since `before` is honoured. */
  ghost predicate Honoured(before: multiset<Path>, denied: multiset<Path>, spared: set<Path>) {
    forall r :: Added(before, denied, r) ==> r in spared
  }

  /** What is not to go without a question. */
  predicate MustAsk(k: Kernel, fs: Tree, p: Path, quiet: bool, force: bool)
    requires p in fs
  {
    !quiet || (k.protected(p) && !fs[p].Link? && !force)
  }

  /** Whatever has gone has been asked about since `before` if it had to be, and there has been no other question. */
  ghost predicate Questioned(k: Kernel, fs: Tree, now: Tree, path: Path, quiet: bool, force: bool,
                             before: multiset<Path>, asked: multiset<Path>)
  {
    && before <= asked
    && (forall p :: path <= p && p in fs && p !in now && MustAsk(k, fs, p, quiet, force) ==> Added(before, asked, p))
    && (forall p :: Added(before, asked, p) ==> path <= p && p in fs && MustAsk(k, fs, p, quiet, force))
  }

  /** With nobody at the window the flags stay as they are, and the questions are those due. */
  ghost predicate Dutiful(k: Kernel, c: Child, fs: Tree, path: Path, quiet: bool, force: bool, before: multiset<Path>)
    reads k, c
  {
    !c.attended ==>
      && c.quiet == quiet && c.force == force
      && Questioned(k, fs, k.nodes, path, quiet, force, before, c.asked)
  }

  /**
   * So a run that is not quiet removes nothing unasked, nor does one without force anything
   * protected; and a quiet run only asks about what is protected, with force about nothing.
   */
  lemma QuestionsDue(k: Kernel, fs: Tree, now: Tree, path: Path, quiet: bool, force: bool,
                     before: multiset<Path>, asked: multiset<Path>)
    requires Questioned(k, fs, now, path, quiet, force, before, asked)
    ensures !quiet ==> forall p :: path <= p && p in fs && p !in now ==> Added(before, asked, p)
    ensures !force ==> forall p :: path <= p && p in fs && p !in now && !fs[p].Link? && k.protected(p) ==>
                         Added(before, asked, p)
    ensures quiet && force ==> asked == before
    ensures quiet ==> forall p :: Added(before, asked, p) ==> k.protected(p) && p in fs && !fs[p].Link?
  {
    if quiet && force {
      forall p: Path
        ensures asked[p] == before[p]
      {
        assert before[p] <= asked[p] && !Added(before, asked, p);
      }
    }
  }

  /** One child more, which waited as it was until its turn. */
  lemma QuestionedOn(k: Kernel, fs: Tree, mid: Tree, now: Tree, path: Path, done: set<Name>, n: Name,
                     spared: set<Path>, stuck: set<Path>, quiet: bool, force: bool,
                     before: multiset<Path>, then_: multiset<Path>, asked: multiset<Path>)
    requires Progress(fs, mid, path, done, spared, stuck) && n !in done && Elsewhere(mid, now, path + [n])
    requires Questioned(k, fs, mid, path, quiet, force, before, then_)
    requires Questioned(k, mid, now, path + [n], quiet, force, then_, asked)
    ensures Questioned(k, fs, now, path, quiet, force, before, asked)
  {
    forall p | path <= p && p in fs && p !in now && MustAsk(k, fs, p, quiet, force)
      ensures Added(before, asked, p)
    {
      if p in mid {
        GoneInTurn(fs, mid, now, path, done, n, spared, stuck, p);
      }
      AddedLater(before, then_, asked, p);
    }
    forall p | Added(before, asked, p)
      ensures path <= p && p in fs && MustAsk(k, fs, p, quiet, force)
    {
      AddedLater(before, then_, asked, p);
      if path + [n] <= p {
        assert p[|path|] == n;
      }
    }
  }

  lemma StaysElsewhere(mid: Tree, now: Tree, path: Path, n: Name, p: Path)
    requires Elsewhere(mid, now, path + [n]) && p in mid && !(path + [n] <= p)
    ensures p in now
  {
    assert Parent(path + [n]) == path;
    assert if p == path then LikeOption(Get(mid, p), Get(now, p)) else Get(now, p) == Get(mid, p);
  }

  lemma GoneInTurn(fs: Tree, mid: Tree, now: Tree, path: Path, done: set<Name>, n: Name,
                   spared: set<Path>, stuck: set<Path>, p: Path)
    requires Progress(fs, mid, path, done, spared, stuck) && n !in done && Elsewhere(mid, now, path + [n])
    requires path <= p && p in mid && p !in now
    ensures path + [n] <= p && Get(mid, p) == Get(fs, p)
  {
    if !(path + [n] <= p) {
      StaysElsewhere(mid, now, path, n, p);
    }
    assert p[|path|] == n;
  }

  /** No call fails and no question comes up. */
  ghost predicate Smooth(k: Kernel, c: Child)
    reads c
  {
    k.Reliable() && !c.attended && c.quiet && (c.force || forall p :: !k.protected(p))
  }

  ghost predicate Progress(fs: Tree, now: Tree, path: Path, done: set<Name>, spared: set<Path>, stuck: set<Path>) {
    && LikeOption(Get(fs, path), Get(now, path))
    && (forall q :: !(path <= q) ==> Get(now, q) == Get(fs, q))
    && (forall q :: path <= q && q != path && q[|path|] in done ==> Settled(fs, now, spared, stuck, q))
    && (forall q :: path <= q && q != path && q[|path|] !in done ==> Get(now, q) == Get(fs, q))
    && (forall r :: r in spared + stuck ==> path <= r && r != path && r[|path|] in done && r in fs && r in now)
  }

  lemma NothingDone(k: Kernel, fs: Tree, path: Path, denied: multiset<Path>, failures: multiset<Path>)
    ensures Progress(fs, fs, path, {}, {}, {}) && Honoured(denied, denied, {})
    ensures Caused(k, denied, denied, failures, failures, {}, {})
    ensures Caused(k, denied, denied, failures, failures + multiset{path}, {}, {})
  {
  }

  lemma ApartFromChild(path: Path, n: Name, p: Path, r: Path)
    requires path <= p && p != path && p[|path|] != n && path + [n] <= r
    ensures !(r <= p) && !(p <= r)
  {
  }

  predicate Apart(q: Path, held: set<Path>) {
    forall r :: r in held ==> !(r <= q) && !(q <= r)
  }

  /** What is held below other children has nothing to do with q. */
  lemma OthersApart(path: Path, q: Path, held: set<Path>)
    requires path <= q && q != path
    requires forall r :: r in held ==> path <= r && r != path && r[|path|] != q[|path|]
    ensures Apart(q, held)
  {
    forall r | r in held
      ensures !(r <= q) && !(q <= r)
    {
      ApartFromChild(path, r[|path|], q, r);
    }
  }

  lemma ApartAdds(spared: set<Path>, stuck: set<Path>, spared': set<Path>, stuck': set<Path>, q: Path)
    requires Apart(q, spared + stuck)
    ensures Survives(spared + spared', stuck + stuck', q) <==> Survives(spared', stuck', q)
    ensures Survives(spared' + spared, stuck' + stuck, q) <==> Survives(spared', stuck', q)
  {
  }

  lemma StepProgress(fs: Tree, mid: Tree, now: Tree, path: Path, done: set<Name>, n: Name,
                     spared: set<Path>, stuck: set<Path>, spared': set<Path>, stuck': set<Path>)
    requires Progress(fs, mid, path, done, spared, stuck) && n !in done
    requires Elsewhere(mid, now, path + [n]) && Deleted(mid, now, path + [n], spared', stuck')
    requires Present(mid, now, path + [n], spared' + stuck')
    ensures Progress(fs, now, path, done + {n}, spared + spared', stuck + stuck')
  {
    assert Parent(path + [n]) == path;
    forall q | path <= q && q != path
      ensures q[|path|] in done + {n} ==> Settled(fs, now, spared + spared', stuck + stuck', q)
      ensures q[|path|] !in done + {n} ==> Get(now, q) == Get(fs, q)
    {
      if q[|path|] == n {
        assert path + [n] <= q;
        assert Settled(mid, now, spared', stuck', q) && Get(mid, q) == Get(fs, q);
        OthersApart(path, q, spared + stuck);
        ApartAdds(spared, stuck, spared', stuck', q);
      } else {
        assert Get(now, q) == Get(mid, q);
        OthersApart(path, q, spared' + stuck');
        ApartAdds(spared', stuck', spared, stuck, q);
        assert q[|path|] in done ==> Settled(fs, mid, spared, stuck, q);
      }
    }
    forall r | r in spared + spared' + (stuck + stuck')
      ensures path <= r && r != path && r[|path|] in done + {n} && r in fs && r in now
    {
      StepHeld(fs, mid, now, path, done, n, spared + stuck, spared' + stuck', r);
    }
  }

  lemma StepHeld(fs: Tree, mid: Tree, now: Tree, path: Path, done: set<Name>, n: Name,
                 held: set<Path>, held': set<Path>, r: Path)
    requires Elsewhere(mid, now, path + [n]) && Present(mid, now, path + [n], held') && r in held + held'
    requires forall q :: path <= q && q != path && q[|path|] !in done ==> Get(mid, q) == Get(fs, q)
    requires forall q :: q in held ==> path <= q && q != path && q[|path|] in done && q in fs && q in mid
    requires n !in done
    ensures path <= r && r != path && r[|path|] in done + {n} && r in fs && r in now
  {
    if r in held' {
      assert path + [n] <= r && r[|path|] == n;
      assert Get(mid, r) == Get(fs, r);
    } else {
      assert Parent(path + [n]) == path && !(path + [n] <= r);
      assert Get(now, r) == Get(mid, r);
    }
  }

  /** All that is known of a walk over the contents of a directory. */
  ghost predicate Walking(k: Kernel, c: Child, fs: Tree, path: Path, done: set<Name>, spared: set<Path>,
                          stuck: set<Path>, asked: multiset<Path>, failed: multiset<Path>, smooth: bool)
    reads k, c
  {
    && k.Valid() && asked <= c.denied && failed <= k.failures
    && Progress(fs, k.nodes, path, done, spared, stuck)
    && Caused(k, asked, c.denied, failed, k.failures, spared, stuck) && Honoured(asked, c.denied, spared)
    && (smooth ==> Smooth(k, c) && spared == stuck == {})
  }

  method DeleteEntry(k: Kernel, c: Child, path: Path, n: Name, ghost fs: Tree, ghost done: set<Name>,
                     ghost spared: set<Path>, ghost stuck: set<Path>,
                     ghost asked: multiset<Path>, ghost failed: multiset<Path>, ghost smooth: bool,
                     ghost quiet: bool, ghost force: bool, ghost before: multiset<Path>)
    returns (ghost spared': set<Path>, ghost stuck': set<Path>)
    requires n !in done && Walking(k, c, fs, path, done, spared, stuck, asked, failed, smooth)
    requires Dutiful(k, c, fs, path, quiet, force, before)
    modifies k, c
    decreases Below(k.nodes, path + [n]), 4
    ensures Walking(k, c, fs, path, done + {n}, spared', stuck', asked, failed, smooth)
    ensures old(c.asked) <= c.asked
    ensures Dutiful(k, c, fs, path, quiet, force, before)
  {
    hide Progress, Caused, Honoured, Deleted, Present, Elsewhere, Questioned;
    ghost var mid, denied, failures, then_ := k.nodes, c.denied, k.failures, c.asked;
    ghost var more, moreStuck := DoDelete(k, c, path + [n]);
    if !c.attended {
      QuestionedOn(k, fs, mid, k.nodes, path, done, n, spared, stuck, quiet, force, before, then_, c.asked);
    }
    StepProgress(fs, mid, k.nodes, path, done, n, spared, stuck, more, moreStuck);
    CausedOn(k, asked, denied, c.denied, failed, failures, k.failures, spared, stuck, more, moreStuck);
    HonouredOn(asked, denied, c.denied, spared, more);
    spared', stuck' := spared + more, stuck + moreStuck;
  }

  method DeleteContents(k: Kernel, c: Child, path: Path, ghost before: multiset<Path>)
    returns (listed: bool, ghost spared: set<Path>, ghost stuck: set<Path>)
    requires k.Valid() && IsDir(k.nodes, path) && Dutiful(k, c, k.nodes, path, c.quiet, c.force, before)
    modifies k, c
    decreases Below(k.nodes, path), 0
    ensures !listed ==> k.nodes == old(k.nodes) && c.denied == old(c.denied) && spared == stuck == {}
    ensures !listed ==> Added(old(k.failures), k.failures, path)
    ensures listed ==> Progress(old(k.nodes), k.nodes, path, Names(old(k.nodes), path), spared, stuck)
    ensures k.Valid() && old(c.denied) <= c.denied && old(k.failures) <= k.failures
    ensures Caused(k, old(c.denied), c.denied, old(k.failures), k.failures, spared, stuck)
    ensures Honoured(old(c.denied), c.denied, spared)
    ensures old(Smooth(k, c)) ==> Smooth(k, c) && listed && spared == stuck == {}
    ensures old(c.asked) <= c.asked
    ensures Dutiful(k, c, old(k.nodes), path, old(c.quiet), old(c.force), before)
  {
    hide Progress, Caused, Honoured, Questioned;
    ghost var fs, asked, failed, smooth := k.nodes, c.denied, k.failures, Smooth(k, c);
    ghost var quiet, force := c.quiet, c.force;
    NothingDone(k, fs, path, asked, failed);
    ghost var done: set<Name> := {};
    spared, stuck := {}, {};
    var names := k.ReadDir(path);
    if names == None {
      return false, spared, stuck;
    }
    var i := |names.value|;
    while i > 0
      invariant 0 <= i <= |names.value|
      invariant forall n :: n in Names(fs, path) <==> n in done || n in names.value[..i]
      invariant forall n :: n in names.value[..i] ==> n !in done
      invariant Walking(k, c, fs, path, done, spared, stuck, asked, failed, smooth)
      invariant old(c.asked) <= c.asked && Dutiful(k, c, fs, path, quiet, force, before)
    {
      i := i - 1;
      BelowWaits(fs, k.nodes, path, done, names.value[i], spared, stuck);
      spared, stuck := DeleteEntry(k, c, path, names.value[i], fs, done, spared, stuck, asked, failed, smooth,
                                   quiet, force, before);
      done := done + {names.value[i]};
      NamesSplit(names.value, i);
    }
    assert done == Names(fs, path);
    return true, spared, stuck;
  }

  lemma BelowWaits(fs: Tree, mid: Tree, path: Path, done: set<Name>, n: Name, spared: set<Path>, stuck: set<Path>)
    requires Progress(fs, mid, path, done, spared, stuck) && n !in done && path in fs
    ensures Below(mid, path + [n]) < Below(fs, path)
  {
    assert path in Below(fs, path) && path !in Below(mid, path + [n]);
    forall q | q in Below(mid, path + [n])
      ensures q in Below(fs, path)
    {
      assert Get(mid, q) == Get(fs, q);
    }
  }

  lemma HeldMeansChild(fs: Tree, mid: Tree, path: Path, spared: set<Path>, stuck: set<Path>, r: Path)
    requires WellFormed(mid) && Progress(fs, mid, path, Names(fs, path), spared, stuck) && r in spared + stuck
    ensures HasChild(mid, path)
  {
    NamesAreChildren(mid, path);
    var q := path + [r[|path|]];
    BelowChild(path, r);
    if q != r {
      AncestorIsDir(mid, q, r);
    }
  }

  lemma ChildMeansHeld(fs: Tree, mid: Tree, path: Path, spared: set<Path>, stuck: set<Path>)
    requires Progress(fs, mid, path, Names(fs, path), spared, stuck) && HasChild(mid, path)
    ensures spared + stuck != {}
  {
    NamesAreChildren(fs, path);
    NamesAreChildren(mid, path);
    var n :| n in Names(mid, path);
    assert n in Names(fs, path) && Settled(fs, mid, spared, stuck, path + [n]);
  }

  lemma BelowSettled(fs: Tree, mid: Tree, path: Path, spared: set<Path>, stuck: set<Path>, p: Path)
    requires WellFormed(fs) && Progress(fs, mid, path, Names(fs, path), spared, stuck) && path <= p && p != path
    ensures Settled(fs, mid, spared, stuck, p)
  {
    if p[|path|] !in Names(fs, path) {
      ChildMissing(fs, path, p);
      assert Get(mid, p) == Get(fs, p);
    }
  }

  /** An emptied directory holds nothing back, and only an emptied one goes. */
  lemma HeldBack(fs: Tree, mid: Tree, path: Path, spared: set<Path>, stuck: set<Path>)
    requires WellFormed(fs) && WellFormed(mid) && IsDir(fs, path)
    requires Progress(fs, mid, path, Names(fs, path), spared, stuck)
    ensures HasChild(mid, path) <==> spared + stuck != {}
    ensures Survives(spared, stuck, path) <==> spared + stuck != {}
  {
    if spared + stuck != {} {
      var r :| r in spared + stuck;
      HeldMeansChild(fs, mid, path, spared, stuck, r);
    }
    if HasChild(mid, path) {
      ChildMeansHeld(fs, mid, path, spared, stuck);
    }
  }

  lemma HeldHere(spared: set<Path>, stuck: set<Path>, held: set<Path>, path: Path)
    requires held <= {path}
    ensures Survives(spared, stuck + held, path) <==> held == {path} || Survives(spared, stuck, path)
  {
    if held == {path} {
      assert path in stuck + held && path <= path;
    } else {
      assert held == {} && stuck + held == stuck;
    }
  }

  lemma HeldBelow(spared: set<Path>, stuck: set<Path>, held: set<Path>, path: Path, p: Path)
    requires held <= {path} && path <= p && p != path
    ensures Survives(spared, stuck + held, p) <==> Survives(spared, stuck, p)
  {
  }

  /** The directory itself after its contents: still there, or removed when nothing is left in it. */
  ghost predicate Closed(mid: Tree, now: Tree, path: Path, held: set<Path>)
    requires path != []
  {
    if held == {path} || HasChild(mid, path) then now == mid else exists t :: now == Removing(mid, path, t)
  }

  lemma ClosedSame(mid: Tree, now: Tree, path: Path, held: set<Path>)
    requires path != [] && Closed(mid, now, path, held)
    ensures forall p :: p != path && p != Parent(path) ==> Get(now, p) == Get(mid, p)
    ensures LikeOption(Get(mid, Parent(path)), Get(now, Parent(path)))
    ensures Get(now, path) == if held == {path} || HasChild(mid, path) then Get(mid, path) else None
  {
    assert Parent(path) != path;
  }

  lemma DirDeleted(fs: Tree, mid: Tree, now: Tree, path: Path, spared: set<Path>, stuck: set<Path>, held: set<Path>)
    requires WellFormed(fs) && WellFormed(mid) && IsDir(fs, path) && path != [] && held <= {path}
    requires Progress(fs, mid, path, Names(fs, path), spared, stuck) && Closed(mid, now, path, held)
    ensures Deleted(fs, now, path, spared, stuck + held)
  {
    ClosedSame(mid, now, path, held);
    HeldBack(fs, mid, path, spared, stuck);
    HeldHere(spared, stuck, held, path);
    forall p | path <= p
      ensures Settled(fs, now, spared, stuck + held, p)
    {
      if p != path {
        BelowSettled(fs, mid, path, spared, stuck, p);
        assert Get(now, p) == Get(mid, p);
        HeldBelow(spared, stuck, held, path, p);
      }
    }
  }

  lemma DirElsewhere(fs: Tree, mid: Tree, now: Tree, path: Path, spared: set<Path>, stuck: set<Path>, held: set<Path>)
    requires WellFormed(fs) && WellFormed(mid) && IsDir(fs, path) && path != [] && held <= {path}
    requires Progress(fs, mid, path, Names(fs, path), spared, stuck) && Closed(mid, now, path, held)
    ensures Elsewhere(fs, now, path) && Present(fs, now, path, spared + (stuck + held))
  {
    ClosedSame(mid, now, path, held);
    forall r | r in spared + (stuck + held)
      ensures path <= r && r in fs && r in now
    {
      if r in spared + stuck {
        assert path <= r && r != path && r in fs && r in mid;
        assert r != Parent(path) && Get(now, r) == Get(mid, r);
      }
    }
    forall q | !(path <= q) && q != Parent(path)
      ensures Get(now, q) == Get(fs, q)
    {
      assert Get(now, q) == Get(mid, q) && Get(mid, q) == Get(fs, q);
    }
  }

  method DeleteDir(k: Kernel, c: Child, path: Path, ghost before: multiset<Path>)
    returns (ghost spared: set<Path>, ghost stuck: set<Path>)
    requires k.Valid() && path != [] && IsDir(k.nodes, path) && Dutiful(k, c, k.nodes, path, c.quiet, c.force, before)
    requires !c.attended && MustAsk(k, k.nodes, path, c.quiet, c.force) ==> Added(before, c.asked, path)
    modifies k, c
    decreases Below(k.nodes, path), 1
    ensures k.Valid() && old(c.denied) <= c.denied && old(k.failures) <= k.failures
    ensures Elsewhere(old(k.nodes), k.nodes, path)
    ensures Deleted(old(k.nodes), k.nodes, path, spared, stuck)
    ensures Present(old(k.nodes), k.nodes, path, spared + stuck)
    ensures Caused(k, old(c.denied), c.denied, old(k.failures), k.failures, spared, stuck)
    ensures Honoured(old(c.denied), c.denied, spared)
    ensures old(Smooth(k, c)) ==> Smooth(k, c) && spared == stuck == {}
    ensures old(c.asked) <= c.asked
    ensures Dutiful(k, c, old(k.nodes), path, old(c.quiet), old(c.force), before)
  {
    ghost var fs, asked, failed := k.nodes, c.denied, k.failures;
    var listed;
    listed, spared, stuck := DeleteContents(k, c, path, before);
    ghost var mid := k.nodes;
    if listed {
      stuck := RemoveEmptied(k, path, fs, spared, stuck, asked, c.denied, failed);
    } else {
      spared := RemoveUnread(k, path, asked, c.denied, failed);
    }
    if !c.attended {
      TopGone(k, fs, mid, k.nodes, path, c.quiet, c.force, before, c.asked);
    }
  }

  /** At most `path` itself is gone. */
  ghost predicate OnlyGone(fs: Tree, now: Tree, path: Path) {
    forall p :: p in fs && p != path ==> p in now
  }

  lemma NoQuestion(k: Kernel, fs: Tree, path: Path, quiet: bool, force: bool, before: multiset<Path>)
    ensures Questioned(k, fs, fs, path, quiet, force, before, before)
  {
  }

  lemma OneQuestion(k: Kernel, fs: Tree, path: Path, quiet: bool, force: bool,
                    before: multiset<Path>, asked: multiset<Path>)
    requires path in fs
    requires asked == if MustAsk(k, fs, path, quiet, force) then before + multiset{path} else before
    ensures Questioned(k, fs, fs, path, quiet, force, before, asked)
    ensures MustAsk(k, fs, path, quiet, force) ==> Added(before, asked, path)
  {
  }

  lemma TopGone(k: Kernel, fs: Tree, mid: Tree, now: Tree, path: Path, quiet: bool, force: bool,
                before: multiset<Path>, asked: multiset<Path>)
    requires Questioned(k, fs, mid, path, quiet, force, before, asked) && OnlyGone(mid, now, path)
    requires path in fs && (MustAsk(k, fs, path, quiet, force) ==> Added(before, asked, path))
    ensures Questioned(k, fs, now, path, quiet, force, before, asked)
  {
  }

  /** The end of a directory whose contents have been gone through. */
  method RemoveEmptied(k: Kernel, path: Path, ghost fs: Tree, ghost spared: set<Path>, ghost stuck: set<Path>,
                       ghost asked: multiset<Path>, ghost denied: multiset<Path>, ghost failed: multiset<Path>)
    returns (ghost stuck': set<Path>)
    requires k.Valid() && path != [] && WellFormed(fs) && IsDir(fs, path)
    requires Progress(fs, k.nodes, path, Names(fs, path), spared, stuck)
    requires failed <= k.failures && Caused(k, asked, denied, failed, k.failures, spared, stuck)
    modifies k
    ensures k.Valid() && old(k.failures) <= k.failures
    ensures OnlyGone(old(k.nodes), k.nodes, path)
    ensures Elsewhere(fs, k.nodes, path) && Deleted(fs, k.nodes, path, spared, stuck')
    ensures Present(fs, k.nodes, path, spared + stuck') && Caused(k, asked, denied, failed, k.failures, spared, stuck')
    ensures k.Reliable() ==> stuck' == stuck
  {
    ghost var mid := k.nodes;
    var err := k.Rmdir(path);
    ghost var held := if err == EACCES then {path} else {};
    assert held == {} && err == OK ==> k.nodes == Removing(mid, path, k.clock);
    DirDeleted(fs, mid, k.nodes, path, spared, stuck, held);
    DirElsewhere(fs, mid, k.nodes, path, spared, stuck, held);
    stuck' := stuck + held;
  }

  /** The end of a directory that would not be read: it goes only when it is empty. */
  method RemoveUnread(k: Kernel, path: Path,
                      ghost asked: multiset<Path>, ghost denied: multiset<Path>, ghost failed: multiset<Path>)
    returns (ghost spared: set<Path>)
    requires k.Valid() && path != [] && IsDir(k.nodes, path)
    requires failed <= k.failures && Added(failed, k.failures, path)
    modifies k
    ensures k.Valid() && old(k.failures) <= k.failures
    ensures OnlyGone(old(k.nodes), k.nodes, path)
    ensures Elsewhere(old(k.nodes), k.nodes, path) && Deleted(old(k.nodes), k.nodes, path, spared, {})
    ensures Present(old(k.nodes), k.nodes, path, spared) && Caused(k, asked, denied, failed, k.failures, spared, {})
  {
    ghost var fs := k.nodes;
    var err := k.Rmdir(path);
    spared := {};
    if err != OK {
      Untouched(fs, path);
      spared := {path};
    } else {
      RemovedDeletes(fs, path, k.clock);
    }
  }

  method DoDelete(k: Kernel, c: Child, path: Path) returns (ghost spared: set<Path>, ghost stuck: set<Path>)
    requires k.Valid() && path != []
    modifies k, c
    decreases Below(k.nodes, path), 3
    ensures k.Valid() && old(c.denied) <= c.denied && old(k.failures) <= k.failures
    ensures Elsewhere(old(k.nodes), k.nodes, path)
    ensures Deleted(old(k.nodes), k.nodes, path, spared, stuck)
    ensures Present(old(k.nodes), k.nodes, path, spared + stuck)
    ensures Caused(k, old(c.denied), c.denied, old(k.failures), k.failures, spared, stuck)
    ensures Honoured(old(c.denied), c.denied, spared)
    ensures old(Smooth(k, c)) ==> Smooth(k, c) && spared == stuck == {}
    ensures old(c.asked) <= c.asked
    ensures Dutiful(k, c, old(k.nodes), path, old(c.quiet), old(c.force), old(c.asked))
  {
    hide Questioned;
    ghost var fs, before, quiet, force := k.nodes, c.asked, c.quiet, c.force;
    spared, stuck := {}, {};
    c.CheckFlags();
    var info := k.Lstat(path);
    if info == None {
      NoQuestion(k, fs, path, quiet, force, before);
      Untouched(fs, path);
      spared := if path in fs then {path} else {};
      return;
    }
    var yes := MayDelete(k, c, path, info.value);
    if !c.attended {
      OneQuestion(k, fs, path, quiet, force, before, c.asked);
    }
    if !yes {
      Untouched(fs, path);
      spared := {path};
      return;
    }
    spared, stuck := DeleteNow(k, c, path, info.value, before);
  }

  method DeleteNow(k: Kernel, c: Child, path: Path, info: Node, ghost before: multiset<Path>)
    returns (ghost spared: set<Path>, ghost stuck: set<Path>)
    requires k.Valid() && path != [] && Get(k.nodes, path) == Some(info)
    requires Dutiful(k, c, k.nodes, path, c.quiet, c.force, before)
    requires !c.attended && MustAsk(k, k.nodes, path, c.quiet, c.force) ==> Added(before, c.asked, path)
    modifies k, c
    decreases Below(k.nodes, path), 2
    ensures k.Valid() && old(c.denied) <= c.denied && old(k.failures) <= k.failures
    ensures Elsewhere(old(k.nodes), k.nodes, path)
    ensures Deleted(old(k.nodes), k.nodes, path, spared, stuck)
    ensures Present(old(k.nodes), k.nodes, path, spared + stuck)
    ensures Caused(k, old(c.denied), c.denied, old(k.failures), k.failures, spared, stuck)
    ensures Honoured(old(c.denied), c.denied, spared)
    ensures old(Smooth(k, c)) ==> Smooth(k, c) && spared == stuck == {}
    ensures old(c.asked) <= c.asked
    ensures Dutiful(k, c, old(k.nodes), path, old(c.quiet), old(c.force), before)
  {
    hide Questioned;
    ghost var fs := k.nodes;
    if info.Dir? {
      spared, stuck := DeleteDir(k, c, path, before);
    } else {
      spared := {};
      stuck := RemoveLeaf(k, path);
      if !c.attended {
        TopGone(k, fs, fs, k.nodes, path, c.quiet, c.force, before, c.asked);
      }
    }
  }

  /** Nobody is asked about a link for want of permission to write to it, nor about anything when forced and quiet. */
  method MayDelete(k: Kernel, c: Child, path: Path, info: Node) returns (yes: bool)
    requires Get(k.nodes, path) == Some(info) && !k.blind(path) && c.current
    modifies c
    ensures c.denied == if yes then old(c.denied) else old(c.denied) + multiset{path}
    ensures old(Smooth(k, c)) ==> Smooth(k, c) && yes
    ensures c.asked == if MustAsk(k, k.nodes, path, old(c.quiet), old(c.force)) then old(c.asked) + multiset{path}
                       else old(c.asked)
    ensures !c.attended ==> c.Now() == old(c.Now())
  {
    var writable := k.Writable(path);
    var writeProt := !info.Link? && !writable;
    yes := true;
    if (writeProt && !c.force) || !c.quiet {
      yes := c.Reply(writeProt && !c.force, path);
    }
  }

  method RemoveLeaf(k: Kernel, path: Path) returns (ghost stuck: set<Path>)
    requires k.Valid() && path != [] && IsLeaf(k.nodes, path)
    modifies k
    ensures k.Valid() && old(k.failures) <= k.failures
    ensures OnlyGone(old(k.nodes), k.nodes, path)
    ensures Elsewhere(old(k.nodes), k.nodes, path) && Deleted(old(k.nodes), k.nodes, path, {}, stuck)
    ensures Present(old(k.nodes), k.nodes, path, stuck)
    ensures Caused(k, multiset{}, multiset{}, old(k.failures), k.failures, {}, stuck)
    ensures k.Reliable() ==> stuck == {}
  {
    ghost var fs := k.nodes;
    LeafHasNoChild(fs, path);
    var err := k.Unlink(path);
    if err == OK {
      RemovedDeletes(fs, path, k.clock);
      stuck := {};
    } else {
      Untouched(fs, path);
      stuck := {path};
    }
  }

  lemma Untouched(fs: Tree, path: Path)
    requires WellFormed(fs) && path != []
    ensures Elsewhere(fs, fs, path)
    ensures path in fs ==> Deleted(fs, fs, path, {path}, {})
    ensures path !in fs ==> Deleted(fs, fs, path, {}, {})
    ensures IsLeaf(fs, path) ==> Deleted(fs, fs, path, {}, {path})
  {
    if !IsDir(fs, path) {
      AbsentBelow(fs, path);
    }
  }

  lemma RemovedDeletes(fs: Tree, path: Path, t: int)
    requires WellFormed(fs) && path != [] && path in fs && !HasChild(fs, path)
    ensures Elsewhere(fs, Removing(fs, path, t), path) && Deleted(fs, Removing(fs, path, t), path, {}, {})
  {
    EmptyBelow(fs, path);
  }
}
