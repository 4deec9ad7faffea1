/** The part of the kernel that the forked action process talks to. */
module Kernels {
  import opened Wrappers
  import opened Paths

  // Permission bits of a mode, and the 0700 that mkdir adds to them.
  type Mode = bv12
  const OWNER_RWX: Mode := 0x1C0

  datatype Node =
    | File(content: string, mode: Mode, mtime: int)
    | Link(target: string, mtime: int)
    | Dir(mode: Mode, mtime: int)

  type Tree = map<Path, Node>

  datatype Errno = OK | ENOENT | ENOTEMPTY | EEXIST | EISDIR | ENOTDIR | EACCES

  /** Equal but for what the kernel stamps on its own: the time of a directory or of a link. */
  predicate Like(a: Node, b: Node) {
    match (a, b)
    case (File(_, _, _), File(_, _, _)) => a == b
    case (Link(s, _), Link(t, _)) => s == t
    case (Dir(m, _), Dir(n, _)) => m == n
    case _ => false
  }

  predicate LikeOption(a: Option<Node>, b: Option<Node>) {
    (a == None && b == None) || (a.Some? && b.Some? && Like(a.value, b.value))
  }

  predicate IsDir(fs: Tree, p: Path) {
    p in fs && fs[p].Dir?
  }

  predicate IsLeaf(fs: Tree, p: Path) {
    p in fs && !fs[p].Dir?
  }

  function Names(fs: Tree, p: Path): set<Name> {
    set q | q in fs && |q| == |p| + 1 && p <= q :: q[|p|]
  }

  predicate HasChild(fs: Tree, p: Path) {
    Names(fs, p) != {}
  }

  function Below(fs: Tree, p: Path): set<Path> {
    set q | q in fs && p <= q
  }

  /** Every entry sits in a directory. */
  ghost predicate WellFormed(fs: Tree) {
    IsDir(fs, []) && forall p :: p in fs && p != [] ==> IsDir(fs, Parent(p))
  }

  lemma {:induction false} AncestorIsDir(fs: Tree, q: Path, p: Path)
    requires WellFormed(fs) && p in fs && q <= p && q != p
    ensures IsDir(fs, q)
    decreases |p|
  {
    if Parent(p) != q {
      AncestorIsDir(fs, q, Parent(p));
    }
  }

  lemma NamesAreChildren(fs: Tree, p: Path)
    ensures forall n :: n in Names(fs, p) <==> p + [n] in fs
  {
    forall n | p + [n] in fs
      ensures n in Names(fs, p)
    {
      assert (p + [n])[|p|] == n;
    }
    forall n | n in Names(fs, p)
      ensures p + [n] in fs
    {
      var q :| q in fs && |q| == |p| + 1 && p <= q && q[|p|] == n;
      assert q == p + [n];
    }
  }

  /** What changing the entries of a directory does to it. */
  function Touch(fs: Tree, p: Path, now: int): Tree {
    if IsDir(fs, p) then fs[p := Dir(fs[p].mode, now)] else fs
  }

  function Adding(fs: Tree, p: Path, node: Node, now: int): Tree
    requires p != []
  {
    Touch(fs, Parent(p), now)[p := node]
  }

  function Removing(fs: Tree, p: Path, now: int): Tree
    requires p != []
  {
    Touch(fs - {p}, Parent(p), now)
  }

  function Relocated(fs: Tree, from: Path, to: Path, now: int): Tree
    requires from != [] && to != [] && Disjoint(from, to)
  {
    Touch(Touch(Renamed(fs, from, to), Parent(from), now), Parent(to), now)
  }

  function RenamedAt(fs: Tree, from: Path, to: Path, p: Path): Option<Node> {
    if to <= p && Rebase(to, from, p) in fs then Some(fs[Rebase(to, from, p)])
    else if from <= p then None
    else Get(fs, p)
  }

  /** `mv` to a free name: the whole subtree changes place. */
  function Renamed(fs: Tree, from: Path, to: Path): (r: Tree)
    requires Disjoint(from, to)
    ensures forall p :: Get(r, p) == RenamedAt(fs, from, to, p)
  {
    var keys := (set p | p in fs && !(from <= p)) + (set p | p in fs && from <= p :: Rebase(from, to, p));
    forall p {:trigger p in keys} | to <= p && Rebase(to, from, p) in fs
      ensures p in keys
    {
      RebaseInverse(to, from, p);
    }
    forall q | q in fs && from <= q
      ensures Rebase(to, from, Rebase(from, to, q)) == q
    {
      RebaseInverse(from, to, q);
    }
    map p | p in keys :: if to <= p && Rebase(to, from, p) in fs then fs[Rebase(to, from, p)] else fs[p]
  }

  /**
   * The file tree and the system calls on it. A call can always fail for want of
   * permission on a path in `blind` (then every call naming that path fails), and any
   * call can fail for no visible reason when `faulty`.
   */
  class Kernel {
    var nodes: Tree
    var clock: int
    const faulty: bool
    const blind: Path -> bool
    const umask: Mode
    /** Entries the process may not write to. */
    const protected: Path -> bool
    /** The paths some call has failed on, other than for what the tree forbids, as often as that happened. */
    ghost var failures: multiset<Path>

    constructor (nodes: Tree, clock: int, faulty: bool, blind: Path -> bool, umask: Mode, protected: Path -> bool)
      requires WellFormed(nodes)
      ensures Valid() && this.nodes == nodes && this.faulty == faulty && failures == multiset{}
      ensures this.blind == blind && this.umask == umask && this.protected == protected
    {
      this.nodes, this.clock, this.failures := nodes, clock, multiset{};
      this.faulty, this.blind, this.umask, this.protected := faulty, blind, umask, protected;
    }

    ghost predicate Valid()
      reads this
    {
      WellFormed(nodes)
    }

    /** No call fails but for what the tree itself forbids. */
    ghost predicate Reliable() {
      !faulty && forall p :: !blind(p)
    }

    method Fails(p: Path) returns (fails: bool)
      modifies this`failures
      ensures failures == if fails then old(failures) + multiset{p} else old(failures)
      ensures blind(p) ==> fails
      ensures Reliable() ==> !fails
    {
      var fault: bool := *;
      fails := blind(p) || (faulty && fault);
      failures := if fails then failures + multiset{p} else failures;
    }

    method Tick()
      modifies this`clock
      ensures clock >= old(clock)
    {
      var now: int := *;
      clock := if now > clock then now else clock;
    }

    method Lstat(p: Path) returns (info: Option<Node>)
      ensures info == if blind(p) then None else Get(nodes, p)
    {
      info := if blind(p) then None else Get(nodes, p);
    }

    /** `access(p, W_OK)`: whether the process may write to the entry. */
    method Writable(p: Path) returns (yes: bool)
      ensures yes == (!protected(p) && !blind(p))
    {
      yes := !protected(p) && !blind(p);
    }

    method Mkdir(p: Path, mode: Mode) returns (err: Errno)
      requires Valid() && p != []
      modifies this
      ensures Valid()
      ensures err == OK ==> p !in old(nodes) && IsDir(old(nodes), Parent(p)) && !blind(p)
      ensures err == OK ==> nodes == Adding(old(nodes), p, Dir(mode & !umask, clock), clock)
      ensures err != OK ==> nodes == old(nodes)
      ensures Reliable() && p !in old(nodes) && IsDir(old(nodes), Parent(p)) ==> err == OK
    {
      var fails := Fails(p);
      if fails {
        return EACCES;
      } else if p in nodes {
        return EEXIST;
      } else if !IsDir(nodes, Parent(p)) {
        return ENOENT;
      }
      Tick();
      AddingWellFormed(nodes, p, Dir(mode & !umask, clock), clock);
      nodes := Adding(nodes, p, Dir(mode & !umask, clock), clock);
      return OK;
    }

    method Unlink(p: Path) returns (err: Errno)
      requires Valid() && p != []
      modifies this
      ensures Valid()
      ensures err == OK ==> IsLeaf(old(nodes), p) && nodes == Removing(old(nodes), p, clock)
      ensures failures == if err == EACCES then old(failures) + multiset{p} else old(failures)
      ensures err != OK ==> nodes == old(nodes)
      ensures err == ENOENT ==> p !in nodes
      ensures IsLeaf(old(nodes), p) ==> err == OK || (err == EACCES && !Reliable())
    {
      var fails := Fails(p);
      if fails {
        return EACCES;
      } else if p !in nodes {
        return ENOENT;
      } else if nodes[p].Dir? {
        return EISDIR;
      }
      Tick();
      LeafHasNoChild(nodes, p);
      RemovingWellFormed(nodes, p, clock);
      nodes := Removing(nodes, p, clock);
      return OK;
    }

    method Rmdir(p: Path) returns (err: Errno)
      requires Valid() && p != []
      modifies this
      ensures Valid()
      ensures err == OK ==> IsDir(old(nodes), p) && !HasChild(old(nodes), p)
      ensures err == OK ==> nodes == Removing(old(nodes), p, clock)
      ensures failures == if err == EACCES then old(failures) + multiset{p} else old(failures)
      ensures err != OK ==> nodes == old(nodes)
      ensures err == ENOENT ==> p !in nodes
      ensures IsDir(old(nodes), p) && !HasChild(old(nodes), p) ==> err == OK || (err == EACCES && !Reliable())
      ensures err == EACCES ==> !Reliable()
    {
      var fails := Fails(p);
      if fails {
        return EACCES;
      } else if p !in nodes {
        return ENOENT;
      } else if !nodes[p].Dir? {
        return ENOTDIR;
      } else if HasChild(nodes, p) {
        return ENOTEMPTY;
      }
      Tick();
      RemovingWellFormed(nodes, p, clock);
      nodes := Removing(nodes, p, clock);
      return OK;
    }

    method Symlink(target: string, p: Path) returns (err: Errno)
      requires Valid() && p != []
      modifies this
      ensures Valid()
      ensures err == OK ==> p !in old(nodes) && IsDir(old(nodes), Parent(p))
      ensures err == OK ==> nodes == Adding(old(nodes), p, Link(target, clock), clock)
      ensures err != OK ==> nodes == old(nodes)
      ensures Reliable() && p !in old(nodes) && IsDir(old(nodes), Parent(p)) ==> err == OK
    {
      var fails := Fails(p);
      if fails {
        return EACCES;
      } else if p in nodes {
        return EEXIST;
      } else if !IsDir(nodes, Parent(p)) {
        return ENOENT;
      }
      Tick();
      AddingWellFormed(nodes, p, Link(target, clock), clock);
      nodes := Adding(nodes, p, Link(target, clock), clock);
      return OK;
    }

    /** `cp -p` of one file to a free name. */
    method CopyFile(from: Path, to: Path) returns (err: Errno)
      requires Valid() && to != []
      requires from in nodes && nodes[from].File?
      requires to in nodes ==> blind(to)
      modifies this
      ensures Valid()
      ensures err == OK ==> to !in old(nodes) && IsDir(old(nodes), Parent(to))
      ensures err == OK ==> nodes == Adding(old(nodes), to, old(nodes[from]), clock)
      ensures err != OK ==> nodes == old(nodes)
      ensures Reliable() && to !in old(nodes) && IsDir(old(nodes), Parent(to)) ==> err == OK
    {
      var fails := Fails(to);
      if fails {
        return EACCES;
      } else if !IsDir(nodes, Parent(to)) {
        return ENOENT;
      }
      Tick();
      AddingWellFormed(nodes, to, nodes[from], clock);
      nodes := Adding(nodes, to, nodes[from], clock);
      return OK;
    }

    /** `mv -f` to a free name: all of the subtree or nothing. */
    method Mv(from: Path, to: Path) returns (err: Errno)
      requires Valid() && from != [] && to != [] && Disjoint(from, to)
      requires from in nodes
      requires to in nodes ==> blind(to)
      modifies this
      ensures Valid()
      ensures err == OK ==> to !in old(nodes)
      ensures err == OK ==> nodes == Relocated(old(nodes), from, to, clock)
      ensures err != OK ==> nodes == old(nodes)
      ensures Reliable() && to !in old(nodes) && IsDir(old(nodes), Parent(to)) ==> err == OK
    {
      var fails := Fails(to);
      if fails {
        return EACCES;
      } else if !IsDir(nodes, Parent(to)) {
        return ENOENT;
      }
      Tick();
      RelocatedWellFormed(nodes, from, to, clock);
      nodes := Relocated(nodes, from, to, clock);
      return OK;
    }

    method Chmod(p: Path, mode: Mode) returns (err: Errno)
      requires Valid() && IsDir(nodes, p)
      modifies this`nodes, this`failures
      ensures Valid()
      ensures nodes == old(nodes) || nodes == old(nodes)[p := Dir(mode, old(nodes[p].mtime))]
      ensures Reliable() ==> nodes == old(nodes)[p := Dir(mode, old(nodes[p].mtime))]
    {
      var fails := Fails(p);
      if fails {
        return EACCES;
      }
      nodes := nodes[p := Dir(mode, nodes[p].mtime)];
      return OK;
    }

    method Utime(p: Path, mtime: int)
      requires Valid() && IsDir(nodes, p)
      modifies this`nodes, this`failures
      ensures Valid()
      ensures nodes == old(nodes) || nodes == old(nodes)[p := Dir(old(nodes[p].mode), mtime)]
      ensures Reliable() ==> nodes == old(nodes)[p := Dir(old(nodes[p].mode), mtime)]
    {
      var fails := Fails(p);
      if !fails {
        nodes := nodes[p := Dir(nodes[p].mode, mtime)];
      }
    }

    /** The names in a directory, in whatever order the directory yields them. */
    method ReadDir(p: Path) returns (names: Option<seq<Name>>)
      requires IsDir(nodes, p)
      modifies this`failures
      ensures failures == if names.Some? then old(failures) else old(failures) + multiset{p}
      ensures names.Some? ==> Enumerates(names.value, Names(nodes, p))
      ensures Reliable() ==> names.Some?
    {
      var fails := Fails(p);
      if fails {
        return None;
      }
      var left := Names(nodes, p);
      var list: seq<Name> := [];
      while left != {}
        invariant left <= Names(nodes, p)
        invariant Enumerates(list, Names(nodes, p) - left)
      {
        var n :| n in left;
        list := list + [n];
        left := left - {n};
      }
      return Some(list);
    }
  }

  ghost predicate Enumerates(list: seq<Name>, names: set<Name>) {
    && (forall n :: n in names <==> n in list)
    && (forall i, j :: 0 <= i < j < |list| ==> list[i] != list[j])
  }

  lemma ParentBelow(a: Path, p: Path)
    requires p != []
    ensures a <= Parent(p) ==> a <= p
    ensures a <= p && a != p ==> a <= Parent(p)
  {
  }

  /** A path that has come along with a subtree. */
  lemma ParentInside(fs: Tree, from: Path, to: Path, p: Path)
    requires WellFormed(fs) && to <= p && p != to && Rebase(to, from, p) in fs
    ensures to <= Parent(p) && Rebase(to, from, Parent(p)) in fs && fs[Rebase(to, from, Parent(p))].Dir?
  {
    var q := Rebase(to, from, p);
    assert Parent(q) == Rebase(to, from, Parent(p)) && IsDir(fs, Parent(q));
  }

  /** A path that has stayed where it was. */
  lemma ParentOutside(fs: Tree, from: Path, to: Path, p: Path)
    requires WellFormed(fs) && from != [] && to != [] && Disjoint(from, to) && p != []
    requires to !in fs && IsDir(fs, Parent(to)) && (p == to || (p in fs && !(from <= p)))
    ensures RenamedAt(fs, from, to, Parent(p)) == Get(fs, Parent(p)) && IsDir(fs, Parent(p))
  {
    ParentBelow(from, p);
    ParentBelow(to, p);
    if p != to && to <= p {
      AncestorIsDir(fs, to, p);
    }
  }

  lemma RenamedParent(fs: Tree, from: Path, to: Path, p: Path)
    requires WellFormed(fs) && from != [] && to != [] && Disjoint(from, to)
    requires to !in fs && IsDir(fs, Parent(to)) && RenamedAt(fs, from, to, p).Some? && p != []
    ensures var above := RenamedAt(fs, from, to, Parent(p)); above.Some? && above.value.Dir?
  {
    if to <= p && p != to && Rebase(to, from, p) in fs {
      ParentInside(fs, from, to, p);
    } else {
      ParentOutside(fs, from, to, p);
    }
  }

  lemma RenamedWellFormed(fs: Tree, from: Path, to: Path)
    requires WellFormed(fs) && from != [] && to != [] && Disjoint(from, to)
    requires to !in fs && from in fs && IsDir(fs, Parent(to))
    ensures WellFormed(Renamed(fs, from, to))
  {
    var r := Renamed(fs, from, to);
    assert Get(r, []) == Get(fs, []);
    forall p | p in r && p != []
      ensures IsDir(r, Parent(p))
    {
      assert Get(r, p) == RenamedAt(fs, from, to, p) && Get(r, Parent(p)) == RenamedAt(fs, from, to, Parent(p));
      RenamedParent(fs, from, to, p);
    }
  }

  lemma TouchWellFormed(fs: Tree, p: Path, now: int)
    requires WellFormed(fs)
    ensures WellFormed(Touch(fs, p, now))
  {
  }

  lemma AddingWellFormed(fs: Tree, p: Path, node: Node, now: int)
    requires WellFormed(fs) && p != [] && p !in fs && IsDir(fs, Parent(p))
    ensures WellFormed(Adding(fs, p, node, now))
  {
    TouchWellFormed(fs, Parent(p), now);
  }

  lemma RemovingWellFormed(fs: Tree, p: Path, now: int)
    requires WellFormed(fs) && p != [] && p in fs && !HasChild(fs, p)
    ensures WellFormed(Removing(fs, p, now))
  {
    NamesAreChildren(fs, p);
    forall q | q in fs && q != []
      ensures Parent(q) != p
    {
      assert q == Parent(q) + [Leaf(q)];
    }
    assert WellFormed(fs - {p});
    TouchWellFormed(fs - {p}, Parent(p), now);
  }

  lemma LeafHasNoChild(fs: Tree, p: Path)
    requires WellFormed(fs) && IsLeaf(fs, p)
    ensures !HasChild(fs, p)
  {
    NamesAreChildren(fs, p);
    forall n: Name
      ensures p + [n] !in fs
    {
      assert Parent(p + [n]) == p;
    }
  }

  lemma RelocatedWellFormed(fs: Tree, from: Path, to: Path, now: int)
    requires WellFormed(fs) && from != [] && to != [] && Disjoint(from, to)
    requires to !in fs && from in fs && IsDir(fs, Parent(to))
    ensures WellFormed(Relocated(fs, from, to, now))
  {
    RenamedWellFormed(fs, from, to);
    TouchWellFormed(Renamed(fs, from, to), Parent(from), now);
    TouchWellFormed(Touch(Renamed(fs, from, to), Parent(from), now), Parent(to), now);
  }
}
