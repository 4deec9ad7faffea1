/** Bulk rename: a pass that checks the whole list, then one rename after another, dropping the rows that are done. */
module BulkRenaming {
  import opened Wrappers

  /** A directory entry: a leaf name in some directory. */
  datatype Place = Place(folder: nat, leaf: string)

  /** A directory's id is the number its entries carry. */
  datatype Node = File(id: nat) | Folder(id: nat) | Link(id: nat, target: string)

  type Files = map<Place, Node>

  /** The entry a path names, all but its last component followed; None if a directory on the way is missing. */
  type Resolver = (Files, string) -> Option<Place>

  datatype Row = Row(before: string, after: string)

  const MAX_LINKS: nat := 40

  /** What `access(path, F_OK)` finds: links are followed, so a dangling one counts as nothing. */
  predicate Reaches(resolve: Resolver, files: Files, path: string, hops: nat)
    decreases hops
  {
    match resolve(files, path)
    case None => false
    case Some(p) =>
      p in files && (!files[p].Link? || (hops > 0 && Reaches(resolve, files, files[p].target, hops - 1)))
  }

  /** The directory f is d or lies below it, by way of entries in `left`, each taken once. */
  predicate Within(files: Files, left: set<Place>, f: nat, d: nat)
    decreases |left|
  {
    f == d || exists p :: p in left && p in files && files[p] == Folder(f) && Within(files, left - {p}, p.folder, d)
  }

  predicate Below(files: Files, f: nat, d: nat) {
    Within(files, files.Keys, f, d)
  }

  /**
   * What `rename` refuses although the entry is there and nothing that exists has the new name:
   * a directory onto a link, or into itself; or a slash after the new name of anything else.
   */
  predicate Refuses(files: Files, b: Place, a: Place, after: string)
    requires b in files
  {
    match files[b]
    case Folder(d) => a in files || Below(files, a.folder, d)
    case _ => after != "" && after[|after| - 1] == '/'
  }

  predicate Changed(row: Row) {
    row.after != "" && row.after != row.before
  }

  function InDir(dir: string, leaf: string): string {
    dir + "/" + leaf
  }

  function Dest(dir: string, after: string): string
    requires after != ""
  {
    if after[0] == '/' then after else InDir(dir, after)
  }

  function Moved(files: Files, b: Place, a: Place): Files
    requires b in files
  {
    (files - {b})[a := files[b]]
  }

  /** One row done, when nothing is in the way. */
  function Step(resolve: Resolver, dir: string, files: Files, row: Row): Files {
    if !Changed(row) then files
    else
      var b := resolve(files, InDir(dir, row.before));
      var a := resolve(files, Dest(dir, row.after));
      if b.Some? && a.Some? && b.value in files then Moved(files, b.value, a.value) else files
  }

  function Applied(resolve: Resolver, dir: string, files: Files, rows: seq<Row>): Files {
    if rows == [] then files
    else Step(resolve, dir, Applied(resolve, dir, files, rows[..|rows| - 1]), rows[|rows| - 1])
  }

  predicate Blocked(resolve: Resolver, dir: string, files: Files, row: Row) {
    Changed(row) && Reaches(resolve, files, Dest(dir, row.after), MAX_LINKS)
  }

  predicate Missing(resolve: Resolver, dir: string, files: Files, row: Row) {
    Changed(row)
    && var b := resolve(files, InDir(dir, row.before));
       var a := resolve(files, Dest(dir, row.after));
       b == None || a == None || b.value !in files
  }

  predicate Refused(resolve: Resolver, dir: string, files: Files, row: Row) {
    Changed(row) && !Missing(resolve, dir, files, row)
    && Refuses(files, resolve(files, InDir(dir, row.before)).value, resolve(files, Dest(dir, row.after)).value,
               Dest(dir, row.after))
  }

  predicate CanStep(resolve: Resolver, dir: string, files: Files, row: Row) {
    && !Blocked(resolve, dir, files, row) && !Missing(resolve, dir, files, row)
    && !Refused(resolve, dir, files, row)
  }

  predicate Apart(r: Row, s: Row) {
    && r.before != s.before
    && (Changed(r) ==> r.after != s.before)
    && (Changed(s) ==> s.after != r.before)
    && (Changed(r) && Changed(s) ==> r.after != s.after)
  }

  /** Each of the first n rows could be done with the rows before it done. */
  ghost predicate CouldStep(resolve: Resolver, dir: string, files: Files, rows: seq<Row>, n: nat)
    requires n <= |rows|
  {
    forall k {:trigger rows[..k]} :: 0 <= k < n ==>
      CanStep(resolve, dir, Applied(resolve, dir, files, rows[..k]), rows[k])
  }

  /** No name is used twice in the whole list, in whatever order the rows come. */
  ghost predicate NamesOnce(rows: seq<Row>) {
    forall i, j :: 0 <= i < j < |rows| ==> Apart(rows[i], rows[j])
  }

  ghost predicate Acceptable(resolve: Resolver, dir: string, files: Files, rows: seq<Row>) {
    NamesOnce(rows) && forall i :: 0 <= i < |rows| ==> !Blocked(resolve, dir, files, rows[i])
  }

  predicate SlashFree(rows: seq<Row>) {
    forall i :: 0 <= i < |rows| ==> '/' !in rows[i].before && '/' !in rows[i].after && rows[i].before != ""
  }

  function Names(rows: seq<Row>): set<string> {
    (set r | r in rows :: r.before) + set r | r in rows && Changed(r) :: r.after
  }

  /** The entries of `dir` keep their places whatever is renamed. */
  ghost predicate FlatAt(resolve: Resolver, dir: string, folder: nat) {
    forall files: Files, leaf: string :: leaf != "" && '/' !in leaf ==>
      resolve(files, InDir(dir, leaf)) == Some(Place(folder, leaf))
  }

  /** Every changed row takes its node from the old name to the new at once; all else is as it was. */
  ghost predicate Simultaneous(files: Files, folder: nat, rows: seq<Row>, result: Files) {
    && (forall r :: r in rows && Changed(r) ==>
          var b, a := Place(folder, r.before), Place(folder, r.after);
          b in files && b !in result && a in result && result[a] == files[b])
    && (forall p :: Untouched(folder, rows, p) ==>
         (p in result <==> p in files) && (p in files ==> result[p] == files[p]))
  }

  ghost predicate Untouched(folder: nat, rows: seq<Row>, p: Place) {
    p.folder == folder ==> forall r :: r in rows && Changed(r) ==> p.leaf != r.before && p.leaf != r.after
  }

  ghost predicate AllThere(files: Files, folder: nat, rows: seq<Row>) {
    forall r :: r in rows && Changed(r) ==> Place(folder, r.before) in files
  }

  /** What was something other than a link is still there, in one place or another. */
  ghost predicate Kept(before: Files, now: Files) {
    && (forall p :: p in before && !before[p].Link? ==> Somewhere(now, before[p]))
    && (forall q :: q in now ==> Somewhere(before, now[q]))
  }

  ghost predicate Somewhere(files: Files, n: Node) {
    exists p :: p in files && files[p] == n
  }

  /** Every directory and every link has one entry; files may have more. */
  ghost predicate OnePlaceEach(files: Files) {
    forall p, q :: p in files && q in files && files[p] == files[q] && !files[p].File? ==> p == q
  }

  /** A directory lies deeper than the one that its entry is in. */
  ghost predicate Ranked(files: Files, depth: nat -> nat) {
    forall p :: p in files && files[p].Folder? ==> depth(p.folder) < depth(files[p].id)
  }

  /** No directory lies below itself. */
  ghost predicate Tree(files: Files) {
    exists depth: nat -> nat :: Ranked(files, depth)
  }

  /** Where a run stands after `done` rows. */
  ghost predicate RowsDone(resolve: Resolver, dir: string, start: Files, now: Files, rows: seq<Row>, done: nat)
    requires done <= |rows|
  {
    && now == Applied(resolve, dir, start, rows[..done])
    && CouldStep(resolve, dir, start, rows, done)
    && Kept(start, now) && OnePlaceEach(now)
  }

  lemma RowDone(resolve: Resolver, dir: string, start: Files, was: Files, now: Files, rows: seq<Row>, done: nat)
    requires done < |rows| && RowsDone(resolve, dir, start, was, rows, done)
    requires CanStep(resolve, dir, was, rows[done]) && now == Step(resolve, dir, was, rows[done])
    ensures RowsDone(resolve, dir, start, now, rows, done + 1)
  {
    StepKeeps(resolve, dir, start, was, rows[done]);
    assert rows[..done + 1][..done] == rows[..done];
  }

  lemma StepKeeps(resolve: Resolver, dir: string, start: Files, files: Files, row: Row)
    requires CanStep(resolve, dir, files, row) && Kept(start, files) && OnePlaceEach(files)
    ensures var then_ := Step(resolve, dir, files, row);
            Kept(start, then_) && OnePlaceEach(then_)
  {
    if Changed(row) {
      var b := resolve(files, InDir(dir, row.before)).value;
      var a := resolve(files, Dest(dir, row.after)).value;
      var then_ := Moved(files, b, a);
      assert a in files ==> files[a].Link?;
      assert then_[a] == files[b];
      forall p | p in start && !start[p].Link?
        ensures Somewhere(then_, start[p])
      {
        assert Somewhere(files, start[p]);
        var q :| q in files && files[q] == start[p];
        assert q != a || q == b;
        assert then_[if q == b then a else q] == start[p];
      }
      forall q | q in then_
        ensures Somewhere(start, then_[q])
      {
        assert Somewhere(start, files[if q == a then b else q]);
      }
    }
  }

  /** Whatever it was, it is still there. */
  ghost predicate AllKept(before: Files, now: Files) {
    forall p :: p in before ==> Somewhere(now, before[p])
  }

  /** Something stands at the new name, and the file is not there already. */
  predicate Replaces(resolve: Resolver, dir: string, files: Files, row: Row) {
    Changed(row)
    && var b := resolve(files, InDir(dir, row.before));
       var a := resolve(files, Dest(dir, row.after));
       a.Some? && a.value in files && a != b
  }

  ghost predicate NothingReplaced(resolve: Resolver, dir: string, files: Files, rows: seq<Row>, n: nat)
    requires n <= |rows|
  {
    forall k {:trigger rows[..k]} :: 0 <= k < n ==>
      !Replaces(resolve, dir, Applied(resolve, dir, files, rows[..k]), rows[k])
  }

  /** A rename loses something exactly when it replaces something. */
  lemma StepLosesExactly(resolve: Resolver, dir: string, start: Files, files: Files, row: Row)
    requires CanStep(resolve, dir, files, row) && Kept(start, files) && OnePlaceEach(files)
    ensures AllKept(start, Step(resolve, dir, files, row)) <==>
            AllKept(start, files) && !Replaces(resolve, dir, files, row)
  {
    if Changed(row) {
      var b := resolve(files, InDir(dir, row.before)).value;
      var a := resolve(files, Dest(dir, row.after)).value;
      if AllKept(start, files) && !Replaces(resolve, dir, files, row) {
        MoveKeeps(start, files, b, a);
      }
      if AllKept(start, Moved(files, b, a)) {
        MoveLoses(start, files, b, a);
      }
    }
  }

  lemma MoveKeeps(start: Files, files: Files, b: Place, a: Place)
    requires b in files && AllKept(start, files) && (a in files ==> a == b)
    ensures AllKept(start, Moved(files, b, a))
  {
    forall p | p in start
      ensures Somewhere(Moved(files, b, a), start[p])
    {
      assert Somewhere(files, start[p]);
      var q :| q in files && files[q] == start[p];
      assert Moved(files, b, a)[if q == b then a else q] == start[p];
    }
  }

  lemma MoveLoses(start: Files, files: Files, b: Place, a: Place)
    requires b in files && OnePlaceEach(files) && Kept(start, files) && AllKept(start, Moved(files, b, a))
    requires a in files ==> files[a].Link?
    ensures AllKept(start, files) && (a in files ==> a == b)
  {
    var then_ := Moved(files, b, a);
    forall p | p in start
      ensures Somewhere(files, start[p])
    {
      assert Somewhere(then_, start[p]);
      var q :| q in then_ && then_[q] == start[p];
      assert files[if q == a then b else q] == start[p];
    }
    if a in files {
      assert Somewhere(start, files[a]);
      assert Somewhere(then_, files[a]);
      var q :| q in then_ && then_[q] == files[a];
      assert files[if q == a then b else q] == files[a];
    }
  }

  lemma {:induction false} RunKeeps(resolve: Resolver, dir: string, start: Files, rows: seq<Row>, n: nat)
    requires n <= |rows| && OnePlaceEach(start) && CouldStep(resolve, dir, start, rows, n)
    ensures RowsDone(resolve, dir, start, Applied(resolve, dir, start, rows[..n]), rows, n)
  {
    if n == 0 {
      assert rows[..0] == [];
      assert forall p :: p in start ==> Somewhere(start, start[p]);
    } else {
      RunKeeps(resolve, dir, start, rows, n - 1);
      AppliedNext(resolve, dir, start, rows, n - 1);
      var was := Applied(resolve, dir, start, rows[..n - 1]);
      RowDone(resolve, dir, start, was, Applied(resolve, dir, start, rows[..n]), rows, n - 1);
    }
  }

  lemma AppliedNext(resolve: Resolver, dir: string, files: Files, rows: seq<Row>, k: nat)
    requires k < |rows|
    ensures Applied(resolve, dir, files, rows[..k + 1])
         == Step(resolve, dir, Applied(resolve, dir, files, rows[..k]), rows[k])
  {
    assert rows[..k + 1][..k] == rows[..k];
  }

  lemma OneMoreRow(resolve: Resolver, dir: string, start: Files, rows: seq<Row>, n: nat)
    requires n < |rows| && CouldStep(resolve, dir, start, rows, n + 1)
    ensures CouldStep(resolve, dir, start, rows, n)
    ensures CanStep(resolve, dir, Applied(resolve, dir, start, rows[..n]), rows[n])
    ensures NothingReplaced(resolve, dir, start, rows, n + 1) <==>
            NothingReplaced(resolve, dir, start, rows, n)
            && !Replaces(resolve, dir, Applied(resolve, dir, start, rows[..n]), rows[n])
  {
    assert rows[..n] == rows[..n];
  }

  lemma KeptAtFirst(resolve: Resolver, dir: string, start: Files, rows: seq<Row>)
    ensures AllKept(start, Applied(resolve, dir, start, rows[..0]))
  {
    assert rows[..0] == [];
    assert forall p :: p in start ==> Somewhere(start, start[p]);
  }

  /** Any run keeps everything exactly when none of its renames replaces anything. */
  lemma {:induction false} RunLosesExactly(resolve: Resolver, dir: string, start: Files, rows: seq<Row>, n: nat)
    requires n <= |rows| && OnePlaceEach(start) && CouldStep(resolve, dir, start, rows, n)
    ensures AllKept(start, Applied(resolve, dir, start, rows[..n])) <==> NothingReplaced(resolve, dir, start, rows, n)
  {
    if n == 0 {
      KeptAtFirst(resolve, dir, start, rows);
    } else {
      hide Step, Replaces, Kept, OnePlaceEach, CanStep, AllKept, CouldStep, NothingReplaced, Applied;
      var was := Applied(resolve, dir, start, rows[..n - 1]);
      OneMoreRow(resolve, dir, start, rows, n - 1);
      RunLosesExactly(resolve, dir, start, rows, n - 1);
      RunKeeps(resolve, dir, start, rows, n - 1);
      AppliedNext(resolve, dir, start, rows, n - 1);
      StepLosesExactly(resolve, dir, start, was, rows[n - 1]);
    }
  }

  /** Below is deeper. */
  lemma {:induction false} WithinDeeper(files: Files, depth: nat -> nat, left: set<Place>, f: nat, d: nat)
    requires Ranked(files, depth) && Within(files, left, f, d)
    ensures depth(d) <= depth(f)
    decreases |left|
  {
    if f != d {
      var p :| p in left && p in files && files[p] == Folder(f) && Within(files, left - {p}, p.folder, d);
      WithinDeeper(files, depth, left - {p}, p.folder, d);
    }
  }

  lemma {:induction false} WithinMore(files: Files, left: set<Place>, more: set<Place>, f: nat, d: nat)
    requires Within(files, left, f, d) && left <= more
    ensures Within(files, more, f, d)
    decreases |left|
  {
    if f != d {
      var p :| p in left && p in files && files[p] == Folder(f) && Within(files, left - {p}, p.folder, d);
      WithinMore(files, left - {p}, more - {p}, p.folder, d);
    }
  }

  /** The way up does not come by anything deeper. */
  lemma {:induction false} WithinWithout(files: Files, depth: nat -> nat, left: set<Place>, f: nat, d: nat, q: Place)
    requires Ranked(files, depth) && Within(files, left, f, d)
    requires q in files && files[q].Folder? && depth(f) < depth(files[q].id)
    ensures Within(files, left - {q}, f, d)
    decreases |left|
  {
    if f != d {
      var p :| p in left && p in files && files[p] == Folder(f) && Within(files, left - {p}, p.folder, d);
      WithinWithout(files, depth, left - {p}, p.folder, d, q);
      assert left - {p} - {q} == left - {q} - {p};
    }
  }

  /** A directory other than d is below d exactly when the directory its entry is in is. */
  lemma BelowUp(files: Files, depth: nat -> nat, p: Place, d: nat)
    requires OnePlaceEach(files) && Ranked(files, depth) && p in files && files[p].Folder? && files[p].id != d
    ensures Below(files, files[p].id, d) <==> Below(files, p.folder, d)
  {
    var x := files[p].id;
    if Below(files, p.folder, d) {
      WithinWithout(files, depth, files.Keys, p.folder, d, p);
    }
    if Below(files, x, d) {
      var q :| q in files.Keys && files[q] == Folder(x) && Within(files, files.Keys - {q}, q.folder, d);
      assert q == p;
      WithinMore(files, files.Keys - {p}, files.Keys, p.folder, d);
    }
  }

  /** Moving d changes nothing of the ways up to d. */
  lemma {:induction false} WithinMoved(files: Files, left: set<Place>, f: nat, d: nat, b: Place, a: Place)
    requires Within(files, left, f, d) && b in files && files[b] == Folder(d) && a !in files
    ensures Within(Moved(files, b, a), left, f, d)
    decreases |left|
  {
    if f != d {
      var p :| p in left && p in files && files[p] == Folder(f) && Within(files, left - {p}, p.folder, d);
      WithinMoved(files, left - {p}, p.folder, d, b, a);
      assert p in Moved(files, b, a) && Moved(files, b, a)[p] == Folder(f);
    }
  }

  /** Moving a directory leaves a tree exactly when it is not moved into itself. */
  lemma FolderMoves(files: Files, depth: nat -> nat, b: Place, a: Place)
    requires OnePlaceEach(files) && Ranked(files, depth) && b in files && files[b].Folder? && a !in files
    ensures Tree(Moved(files, b, a)) <==> !Below(files, a.folder, files[b].id)
  {
    if Below(files, a.folder, files[b].id) {
      forall deeper: nat -> nat
        ensures !Ranked(Moved(files, b, a), deeper)
      {
        FolderLost(files, b, a, deeper);
      }
    } else {
      FolderDeeper(files, depth, b, a);
    }
  }

  lemma FolderLost(files: Files, b: Place, a: Place, deeper: nat -> nat)
    requires b in files && files[b].Folder? && a !in files && Below(files, a.folder, files[b].id)
    ensures !Ranked(Moved(files, b, a), deeper)
  {
    var d, then_ := files[b].id, Moved(files, b, a);
    WithinMoved(files, files.Keys, a.folder, d, b, a);
    assert then_[a] == Folder(d);
    if Ranked(then_, deeper) {
      WithinDeeper(then_, deeper, files.Keys, a.folder, d);
    }
  }

  /** What is below the directory comes to lie deeper, and nothing else does. */
  lemma FolderDeeper(files: Files, depth: nat -> nat, b: Place, a: Place)
    requires OnePlaceEach(files) && Ranked(files, depth) && b in files && files[b].Folder? && a !in files
    requires !Below(files, a.folder, files[b].id)
    ensures Tree(Moved(files, b, a))
  {
    var d, then_ := files[b].id, Moved(files, b, a);
    var deeper := (x: nat) => if Below(files, x, d) then depth(x) + depth(a.folder) + 1 else depth(x);
    forall p | p in then_ && then_[p].Folder?
      ensures deeper(p.folder) < deeper(then_[p].id)
    {
      if p != a {
        assert p in files && p != b && files[p].id != d;
        BelowUp(files, depth, p, d);
      }
    }
    assert Ranked(then_, deeper);
  }

  /** One rename leaves a tree a tree: no directory gets lost in itself. */
  lemma StepStaysTree(resolve: Resolver, dir: string, files: Files, row: Row)
    requires CanStep(resolve, dir, files, row) && OnePlaceEach(files) && Tree(files)
    ensures Tree(Step(resolve, dir, files, row))
  {
    var depth: nat -> nat :| Ranked(files, depth);
    if Changed(row) {
      var b := resolve(files, InDir(dir, row.before)).value;
      var a := resolve(files, Dest(dir, row.after)).value;
      if files[b].Folder? {
        FolderMoves(files, depth, b, a);
      } else {
        assert Ranked(Moved(files, b, a), depth);
      }
    }
  }

  /** And so does any run. */
  lemma {:induction false} RunStaysTree(resolve: Resolver, dir: string, start: Files, rows: seq<Row>, n: nat)
    requires n <= |rows| && OnePlaceEach(start) && Tree(start) && CouldStep(resolve, dir, start, rows, n)
    ensures Tree(Applied(resolve, dir, start, rows[..n]))
  {
    if n == 0 {
      assert rows[..0] == [];
    } else {
      var was := Applied(resolve, dir, start, rows[..n - 1]);
      RunStaysTree(resolve, dir, start, rows, n - 1);
      RunKeeps(resolve, dir, start, rows, n - 1);
      AppliedNext(resolve, dir, start, rows, n - 1);
      assert CanStep(resolve, dir, was, rows[n - 1]);
      StepStaysTree(resolve, dir, was, rows[n - 1]);
    }
  }

  class BulkRename {
    var files: Files
    var rows: seq<Row>
    const dir: string
    const resolve: Resolver
    /** Whether `rename` may fail for reasons that do not lie in the tree. */
    const faulty: bool

    constructor (dir: string, files: Files, rows: seq<Row>, resolve: Resolver, faulty: bool)
      ensures this.dir == dir && this.files == files && this.rows == rows && this.resolve == resolve
      ensures this.faulty == faulty
    {
      this.dir, this.files, this.rows, this.resolve, this.faulty := dir, files, rows, resolve, faulty;
    }

    method Rename(before: string, after: string) returns (ok: bool)
      requires !Reaches(resolve, files, after, MAX_LINKS)
      modifies this`files
      ensures !ok ==> files == old(files)
      ensures var b, a := resolve(old(files), before), resolve(old(files), after);
              var can := b.Some? && a.Some? && b.value in old(files) && !Refuses(old(files), b.value, a.value, after);
              (ok ==> can && files == Moved(old(files), b.value, a.value)) && (can && !faulty ==> ok)
    {
      var b, a := resolve(files, before), resolve(files, after);
      var fails: bool := *;
      ok := b.Some? && a.Some? && b.value in files && !Refuses(files, b.value, a.value, after) && !(faulty && fails);
      if ok {
        files := Moved(files, b.value, a.value);
      }
    }

    method DoRename(row: Row) returns (ok: bool)
      requires Changed(row)
      modifies this`files
      ensures ok ==> CanStep(resolve, dir, old(files), row) && files == Step(resolve, dir, old(files), row)
      ensures !ok ==> files == old(files) && (faulty || !CanStep(resolve, dir, files, row))
    {
      if Reaches(resolve, files, Dest(dir, row.after), MAX_LINKS) {
        return false;
      }
      ok := Rename(InDir(dir, row.before), Dest(dir, row.after));
    }

    method CheckRow(row: Row, names: set<string>) returns (ok: bool, more: set<string>)
      ensures ok <==>
        row.before !in names && (Changed(row) ==> row.after !in names) && !Blocked(resolve, dir, files, row)
      ensures ok ==> more == names + {row.before} + if Changed(row) then {row.after} else {}
    {
      more := names;
      if row.before in names {
        return false, more;
      }
      more := more + {row.before};
      if !Changed(row) {
        return true, more;
      }
      if row.after in more {
        return false, more;
      }
      more := more + {row.after};
      ok := !Reaches(resolve, files, Dest(dir, row.after), MAX_LINKS);
    }

    method DoRow(row: Row) returns (ok: bool)
      modifies this`files
      ensures ok ==> CanStep(resolve, dir, old(files), row) && files == Step(resolve, dir, old(files), row)
      ensures !ok ==> files == old(files) && (faulty || !CanStep(resolve, dir, files, row))
    {
      ok := true;
      if Changed(row) {
        ok := DoRename(row);
      }
    }

    /** The first pass; it stops at the first name used twice or taken. */
    method Validate() returns (ok: bool, slash: bool, nRenames: nat)
      ensures ok == Acceptable(resolve, dir, files, rows)
      ensures ok ==> slash == !forall r :: r in rows ==> '/' !in r.after
      ensures ok ==> (nRenames == 0 <==> forall r :: r in rows ==> !Changed(r))
    {
      var names: set<string> := {};
      slash, nRenames := false, 0;
      var i := 0;
      while i < |rows|
        invariant 0 <= i <= |rows| && names == Names(rows[..i]) && Acceptable(resolve, dir, files, rows[..i])
        invariant slash == !forall r :: r in rows[..i] ==> '/' !in r.after
        invariant nRenames == 0 <==> forall r :: r in rows[..i] ==> !Changed(r)
      {
        NamesNext(rows, i);
        AcceptNext(rows, i);
        slash := slash || '/' in rows[i].after;
        ok, names := CheckRow(rows[i], names);
        if !ok {
          if NamesOnce(rows) {
            PrefixOnce(rows, i + 1);
          }
          return;
        }
        nRenames := nRenames + if Changed(rows[i]) then 1 else 0;
        i := i + 1;
      }
      assert rows[..i] == rows;
      ok := true;
    }

    /** `confirm`: the answer if asked about slashes. `done`: the rows done. */
    method RenameItems(confirm: bool) returns (success: bool, ghost done: nat)
      requires OnePlaceEach(files)
      modifies this
      ensures done <= |old(rows)| && rows == old(rows)[done..]
      ensures files == Applied(resolve, dir, old(files), old(rows)[..done])
      ensures CouldStep(resolve, dir, old(files), old(rows), done)
      ensures done > 0 || success ==> Acceptable(resolve, dir, old(files), old(rows))
      ensures success ==> rows == [] && old(rows) != []
      ensures done > 0 || success ==> exists r :: r in old(rows) && r.after != "" && r.after != r.before
      ensures !confirm && (exists r :: r in old(rows) && '/' in r.after) ==>
        !success && done == 0 && files == old(files) && rows == old(rows)
      ensures !success && done > 0 ==> rows != [] && (faulty || !CanStep(resolve, dir, files, rows[0]))
      ensures Kept(old(files), files) && OnePlaceEach(files) && (old(Tree(files)) ==> Tree(files))
      ensures AllKept(old(files), files) <==> NothingReplaced(resolve, dir, old(files), old(rows), done)
      ensures (Acceptable(resolve, dir, old(files), old(rows)) &&
               (exists r :: r in old(rows) && r.after != "" && r.after != r.before) &&
               (confirm || forall r :: r in old(rows) ==> '/' !in r.after)) ==>
                success || (rows != [] && (faulty || !CanStep(resolve, dir, files, rows[0])))
    {
      success, done := false, 0;
      assert rows[..0] == [];
      RunLosesExactly(resolve, dir, files, rows, 0);
      if rows == [] {
        return;
      }
      var ok, slash, nRenames := Validate();
      if !ok || (slash && !confirm) || nRenames == 0 {
        return;
      }
      success, done := Process();
      RunLosesExactly(resolve, dir, old(files), old(rows), done);
      if old(Tree(files)) {
        RunStaysTree(resolve, dir, old(files), old(rows), done);
      }
    }

    method Process() returns (success: bool, ghost done: nat)
      requires rows != [] && OnePlaceEach(files)
      modifies this
      ensures done <= |old(rows)| && rows == old(rows)[done..] && (success <==> rows == [])
      ensures RowsDone(resolve, dir, old(files), files, old(rows), done)
      ensures !success ==> faulty || !CanStep(resolve, dir, files, rows[0])
    {
      hide Step, CanStep;
      success, done := true, 0;
      while success
        invariant 0 <= done < |old(rows)| && rows == old(rows)[done..]
        invariant RowsDone(resolve, dir, old(files), files, old(rows), done)
        invariant !success ==> faulty || !CanStep(resolve, dir, files, rows[0])
        decreases |rows|, success
      {
        ghost var was := files;
        success := DoRow(rows[0]);
        if success {
          RowDone(resolve, dir, old(files), was, files, old(rows), done);
          rows := rows[1..];
          done := done + 1;
          if rows == [] {
            break;
          }
        }
      }
    }
  }

  /** The names that a list uses: every old name, and every new one that is given and is another. */
  function Used(rows: seq<Row>): seq<string> {
    if rows == [] then []
    else
      var r := rows[|rows| - 1];
      Used(rows[..|rows| - 1]) + [r.before] + if r.after in {"", r.before} then [] else [r.after]
  }

  lemma {:induction false} UsedAre(rows: seq<Row>, name: string)
    ensures name in Used(rows) <==> exists r :: r in rows && (name == r.before || (Changed(r) && name == r.after))
  {
    if rows != [] {
      UsedAre(Front(rows), name);
      assert rows == Front(rows) + [rows[|rows| - 1]];
    }
  }

  predicate AllDifferent(names: seq<string>) {
    forall i, j :: 0 <= i < j < |names| ==> names[i] != names[j]
  }

  /** A list is refused for its names exactly when one of them is used twice. */
  lemma {:induction false} NamesOnceExactly(rows: seq<Row>)
    ensures NamesOnce(rows) <==> AllDifferent(Used(rows))
  {
    if rows != [] {
      var front, row := Front(rows), rows[|rows| - 1];
      NamesOnceExactly(front);
      assert rows == front + [row];
      OneMoreOnce(front, row);
      ApartFromUsed(front, row);
      DistinctAppend(Used(front), row);
    }
  }

  lemma ApartFromUsed(rows: seq<Row>, row: Row)
    ensures (forall r :: r in rows ==> Apart(r, row)) <==>
            row.before !in Used(rows) && (row.after !in {"", row.before} ==> row.after !in Used(rows))
  {
    UsedAre(rows, row.before);
    UsedAre(rows, row.after);
  }

  lemma OneMoreOnce(rows: seq<Row>, row: Row)
    ensures NamesOnce(rows + [row]) <==> NamesOnce(rows) && forall r :: r in rows ==> Apart(r, row)
  {
    assert Front(rows + [row]) == rows;
    if NamesOnce(rows + [row]) {
      LastApart(rows + [row]);
    }
  }

  lemma DistinctAppend(used: seq<string>, row: Row)
    ensures var more := used + [row.before] + if row.after in {"", row.before} then [] else [row.after];
            AllDifferent(more) <==>
            AllDifferent(used) && row.before !in used && (row.after !in {"", row.before} ==> row.after !in used)
  {
    var more := used + [row.before] + if row.after in {"", row.before} then [] else [row.after];
    assert forall i :: 0 <= i < |used| ==> more[i] == used[i];
    assert more[|used|] == row.before;
    if row.after !in {"", row.before} {
      assert more[|used| + 1] == row.after;
    }
  }

  /** An absolute new name means the same in every directory; any other lies in `dir`. */
  lemma WhereTo(dir: string, after: string)
    requires after != ""
    ensures after[0] == '/' ==> Dest(dir, after) == after
    ensures after[0] != '/' ==> Dest(dir, after) == dir + "/" + after
  {
  }

  /** What the checks of one more row amount to. */
  lemma AcceptNext(rows: seq<Row>, i: nat)
    requires i < |rows| && NamesOnce(rows[..i])
    ensures var names, row := Names(rows[..i]), rows[i];
            row.before !in names && (Changed(row) ==> row.after !in names) <==> NamesOnce(rows[..i + 1])
  {
    var shorter, longer, row := rows[..i], rows[..i + 1], rows[i];
    assert longer == shorter + [row] && Front(longer) == shorter;
    NamesApart(shorter, row);
    if NamesOnce(longer) {
      LastApart(longer);
    }
  }

  lemma NamesNext(rows: seq<Row>, i: nat)
    requires i < |rows|
    ensures rows[..i + 1] == rows[..i] + [rows[i]]
    ensures Names(rows[..i + 1]) ==
      Names(rows[..i]) + {rows[i].before} + if Changed(rows[i]) then {rows[i].after} else {}
  {
    assert rows[..i + 1] == rows[..i] + [rows[i]];
  }

  lemma PrefixOnce(rows: seq<Row>, i: nat)
    requires i <= |rows| && NamesOnce(rows)
    ensures NamesOnce(rows[..i])
  {
    assert forall j, k :: 0 <= j < k < i ==> Apart(rows[j], rows[k]);
  }

  /** Looking a row's names up in the table is comparing it with every row before. */
  lemma NamesApart(rows: seq<Row>, row: Row)
    ensures row.before !in Names(rows) && (Changed(row) ==> row.after !in Names(rows)) <==>
            forall r :: r in rows ==> Apart(r, row)
  {
  }

  /** One more row, with names of its own. */
  lemma OneMoved(files: Files, folder: nat, rows: seq<Row>, row: Row, was: Files)
    requires Simultaneous(files, folder, rows, was) && Changed(row) && Place(folder, row.before) in files
    requires forall r :: r in rows ==> Apart(r, row)
    ensures Place(folder, row.before) in was
    ensures Simultaneous(files, folder, rows + [row], Moved(was, Place(folder, row.before), Place(folder, row.after)))
  {
    var b, a := Place(folder, row.before), Place(folder, row.after);
    assert Untouched(folder, rows, b) && Untouched(folder, rows, a);
    forall p | Untouched(folder, rows + [row], p)
      ensures p != a && p != b && Untouched(folder, rows, p)
    {
      assert row in rows + [row];
    }
  }

  function Front(rows: seq<Row>): seq<Row>
    requires rows != []
  {
    rows[..|rows| - 1]
  }

  lemma LastApart(rows: seq<Row>)
    requires NamesOnce(rows) && rows != []
    ensures NamesOnce(Front(rows))
    ensures forall r :: r in Front(rows) ==> Apart(r, rows[|rows| - 1])
  {
    forall i, j | 0 <= i < j < |rows| - 1
      ensures Apart(Front(rows)[i], Front(rows)[j])
    {
      assert Apart(rows[i], rows[j]);
    }
    forall r | r in Front(rows)
      ensures Apart(r, rows[|rows| - 1])
    {
      var i :| 0 <= i < |rows| - 1 && rows[i] == r;
      assert Apart(rows[i], rows[|rows| - 1]);
    }
  }

  /** Rows that only give new names within the directory amount to one simultaneous renaming. */
  lemma {:induction false} AppliedIsSimultaneous(resolve: Resolver, dir: string, folder: nat, files: Files,
                                                 rows: seq<Row>)
    requires FlatAt(resolve, dir, folder) && SlashFree(rows) && NamesOnce(rows) && AllThere(files, folder, rows)
    ensures Simultaneous(files, folder, rows, Applied(resolve, dir, files, rows))
  {
    if rows != [] {
      var row := rows[|rows| - 1];
      assert rows == Front(rows) + [row];
      LastApart(rows);
      AppliedIsSimultaneous(resolve, dir, folder, files, Front(rows));
      var was := Applied(resolve, dir, files, Front(rows));
      if Changed(row) {
        OneMoved(files, folder, Front(rows), row, was);
        assert resolve(was, InDir(dir, row.before)) == Some(Place(folder, row.before));
        assert resolve(was, InDir(dir, row.after)) == Some(Place(folder, row.after));
      } else {
        assert forall p :: Untouched(folder, rows, p) ==> Untouched(folder, Front(rows), p);
      }
    }
  }

  /**
   * After any number of rows, the next old name is where it was, and whatever stands at the next new
   * name stood there before.
   */
  lemma NextUntouched(resolve: Resolver, dir: string, folder: nat, files: Files, rows: seq<Row>, k: nat)
    requires FlatAt(resolve, dir, folder) && SlashFree(rows) && NamesOnce(rows) && k < |rows| && Changed(rows[k])
    requires AllThere(files, folder, rows[..k])
    ensures var now := Applied(resolve, dir, files, rows[..k]);
            var b, a := Place(folder, rows[k].before), Place(folder, rows[k].after);
            && (b in now <==> b in files) && (b in files ==> now[b] == files[b])
            && (a in now <==> a in files) && (a in files ==> now[a] == files[a])
            && (Missing(resolve, dir, now, rows[k]) <==> b !in files)
  {
    var longer := rows[..k + 1];
    assert Front(longer) == rows[..k] && longer[k] == rows[k];
    assert forall i, j :: 0 <= i < j < |longer| ==> longer[i] == rows[i] && longer[j] == rows[j];
    LastApart(longer);
    AppliedIsSimultaneous(resolve, dir, folder, files, rows[..k]);
    var now := Applied(resolve, dir, files, rows[..k]);
    assert Untouched(folder, rows[..k], Place(folder, rows[k].before));
    assert Untouched(folder, rows[..k], Place(folder, rows[k].after));
    assert resolve(now, InDir(dir, rows[k].before)) == Some(Place(folder, rows[k].before));
    assert resolve(now, InDir(dir, rows[k].after)) == Some(Place(folder, rows[k].after));
  }

  function Olds(folder: nat, rows: seq<Row>): set<Place> {
    set r | r in rows && Changed(r) :: Place(folder, r.before)
  }

  /** The rows done all at once: the old names go, and each new name gets what stood at its old one. */
  function AtOnce(files: Files, folder: nat, rows: seq<Row>): Files
    requires NamesOnce(rows)
  {
    OneRowEach(rows);
    (files - Olds(folder, rows)) +
    map r | r in rows && Changed(r) && Place(folder, r.before) in files ::
      Place(folder, r.after) := files[Place(folder, r.before)]
  }

  lemma OneRowEach(rows: seq<Row>)
    requires NamesOnce(rows)
    ensures forall r, s :: r in rows && s in rows && r != s ==> Apart(r, s)
  {
    forall r, s | r in rows && s in rows && r != s
      ensures Apart(r, s)
    {
      var i :| 0 <= i < |rows| && rows[i] == r;
      var j :| 0 <= j < |rows| && rows[j] == s;
      assert if i < j then Apart(rows[i], rows[j]) else Apart(rows[j], rows[i]);
    }
  }

  lemma AtOnceAt(files: Files, folder: nat, rows: seq<Row>, r: Row)
    requires NamesOnce(rows) && r in rows && Changed(r) && Place(folder, r.before) in files
    ensures var atOnce, b, a := AtOnce(files, folder, rows), Place(folder, r.before), Place(folder, r.after);
            b !in atOnce && a in atOnce && atOnce[a] == files[b]
  {
    OneRowEach(rows);
    assert Place(folder, r.before) in Olds(folder, rows);
  }

  lemma AtOnceElsewhere(files: Files, folder: nat, rows: seq<Row>, p: Place)
    requires NamesOnce(rows) && Untouched(folder, rows, p)
    ensures var atOnce := AtOnce(files, folder, rows);
            (p in atOnce <==> p in files) && (p in files ==> atOnce[p] == files[p])
  {
  }

  lemma AtOnceIsSimultaneous(files: Files, folder: nat, rows: seq<Row>)
    requires NamesOnce(rows) && AllThere(files, folder, rows)
    ensures Simultaneous(files, folder, rows, AtOnce(files, folder, rows))
  {
    var atOnce := AtOnce(files, folder, rows);
    forall r | r in rows && Changed(r)
      ensures var b, a := Place(folder, r.before), Place(folder, r.after);
              b !in atOnce && a in atOnce && atOnce[a] == files[b]
    {
      AtOnceAt(files, folder, rows, r);
    }
    forall p | Untouched(folder, rows, p)
      ensures (p in atOnce <==> p in files) && (p in files ==> atOnce[p] == files[p])
    {
      AtOnceElsewhere(files, folder, rows, p);
    }
  }

  lemma SimultaneousIsOne(files: Files, folder: nat, rows: seq<Row>, one: Files, other: Files)
    requires Simultaneous(files, folder, rows, one) && Simultaneous(files, folder, rows, other)
    ensures one == other
  {
    forall p
      ensures (p in one <==> p in other) && (p in one ==> one[p] == other[p])
    {
      if !Untouched(folder, rows, p) {
        var r :| r in rows && Changed(r) && (p.leaf == r.before || p.leaf == r.after);
        assert p == Place(folder, p.leaf);
      }
    }
  }

  /** One row after another comes to doing them all at once. */
  lemma AppliedIsAtOnce(resolve: Resolver, dir: string, folder: nat, files: Files, rows: seq<Row>)
    requires FlatAt(resolve, dir, folder) && SlashFree(rows) && NamesOnce(rows) && AllThere(files, folder, rows)
    ensures Applied(resolve, dir, files, rows) == AtOnce(files, folder, rows)
  {
    AppliedIsSimultaneous(resolve, dir, folder, files, rows);
    AtOnceIsSimultaneous(files, folder, rows);
    SimultaneousIsOne(files, folder, rows, Applied(resolve, dir, files, rows), AtOnce(files, folder, rows));
  }

  /** A link stands at the k-th new name, and with the rows before done it leads somewhere. */
  predicate LinkReaches(resolve: Resolver, folder: nat, files: Files, rows: seq<Row>, k: nat)
    requires NamesOnce(rows) && k < |rows|
  {
    PrefixOnce(rows, k);
    var a := Place(folder, rows[k].after);
    Changed(rows[k]) && a in files && files[a].Link? &&
    Reaches(resolve, AtOnce(files, folder, rows[..k]), files[a].target, MAX_LINKS - 1)
  }

  /** Renaming within one directory leaves every depth as it is. */
  lemma AtOnceRanked(files: Files, depth: nat -> nat, folder: nat, rows: seq<Row>)
    requires NamesOnce(rows) && Ranked(files, depth)
    ensures Ranked(AtOnce(files, folder, rows), depth)
  {
    var atOnce := AtOnce(files, folder, rows);
    forall p | p in atOnce && atOnce[p].Folder?
      ensures depth(p.folder) < depth(atOnce[p].id)
    {
      if !(p in files && atOnce[p] == files[p]) {
        var r :| r in rows && Changed(r) && Place(folder, r.before) in files && p == Place(folder, r.after);
        AtOnceAt(files, folder, rows, r);
      }
    }
  }

  /** Within one directory, a rename is refused exactly when it takes a directory to a name where a link stands. */
  lemma RefusedExactly(resolve: Resolver, dir: string, folder: nat, files: Files, rows: seq<Row>, k: nat)
    requires FlatAt(resolve, dir, folder) && SlashFree(rows) && NamesOnce(rows) && Tree(files)
    requires k < |rows| && Changed(rows[k]) && AllThere(files, folder, rows[..k])
    requires Place(folder, rows[k].before) in files
    ensures Refused(resolve, dir, Applied(resolve, dir, files, rows[..k]), rows[k]) <==>
            FolderOnEntry(files, folder, rows[k])
  {
    NextUntouched(resolve, dir, folder, files, rows, k);
    PrefixOnce(rows, k);
    AppliedIsAtOnce(resolve, dir, folder, files, rows[..k]);
    var depth: nat -> nat :| Ranked(files, depth);
    AtOnceRanked(files, depth, folder, rows[..k]);
    var now, row := Applied(resolve, dir, files, rows[..k]), rows[k];
    assert resolve(now, InDir(dir, row.before)) == Some(Place(folder, row.before));
    assert resolve(now, Dest(dir, row.after)) == Some(Place(folder, row.after));
    FlatRefuses(now, depth, folder, row.before, row.after, InDir(dir, row.after));
  }

  lemma FlatRefuses(files: Files, depth: nat -> nat, folder: nat, before: string, after: string, path: string)
    requires Ranked(files, depth) && Place(folder, before) in files
    requires path != "" && path[|path| - 1] != '/'
    ensures Refuses(files, Place(folder, before), Place(folder, after), path) <==>
            files[Place(folder, before)].Folder? && Place(folder, after) in files
  {
    var node := files[Place(folder, before)];
    if node.Folder? && Below(files, folder, node.id) {
      WithinDeeper(files, depth, files.Keys, folder, node.id);
    }
  }

  /** A directory's new name is that of an entry. */
  predicate FolderOnEntry(files: Files, folder: nat, r: Row) {
    var b, a := Place(folder, r.before), Place(folder, r.after);
    Changed(r) && b in files && files[b].Folder? && a in files
  }

  ghost predicate NoFolderOnEntry(files: Files, folder: nat, rows: seq<Row>) {
    forall k :: 0 <= k < |rows| ==> !FolderOnEntry(files, folder, rows[k])
  }

  /** A list that was accepted runs into the k-th new name exactly when such a link stands there. */
  lemma CollisionExactly(resolve: Resolver, dir: string, folder: nat, files: Files, rows: seq<Row>, k: nat)
    requires FlatAt(resolve, dir, folder) && SlashFree(rows) && Acceptable(resolve, dir, files, rows)
    requires k < |rows| && AllThere(files, folder, rows[..k])
    ensures Blocked(resolve, dir, Applied(resolve, dir, files, rows[..k]), rows[k]) <==>
            LinkReaches(resolve, folder, files, rows, k)
  {
    if Changed(rows[k]) {
      NextUntouched(resolve, dir, folder, files, rows, k);
      PrefixOnce(rows, k);
      AppliedIsAtOnce(resolve, dir, folder, files, rows[..k]);
      assert !Blocked(resolve, dir, files, rows[k]);
      assert resolve(files, InDir(dir, rows[k].after)) == Some(Place(folder, rows[k].after));
      assert resolve(AtOnce(files, folder, rows[..k]), InDir(dir, rows[k].after)) == Some(Place(folder, rows[k].after));
    }
  }

  ghost predicate NoLinkReaches(resolve: Resolver, folder: nat, files: Files, rows: seq<Row>)
    requires NamesOnce(rows)
  {
    forall k :: 0 <= k < |rows| ==> !LinkReaches(resolve, folder, files, rows, k)
  }

  /**
   * An accepted list goes through exactly when every old name is there, no link at a new name comes
   * to lead anywhere, and no link at all stands at the new name of a directory.
   */
  lemma AcceptedGoesThrough(resolve: Resolver, dir: string, folder: nat, files: Files, rows: seq<Row>)
    requires FlatAt(resolve, dir, folder) && SlashFree(rows) && Tree(files) && Acceptable(resolve, dir, files, rows)
    ensures CouldStep(resolve, dir, files, rows, |rows|) <==> Passes(resolve, folder, files, rows)
  {
    assert rows[..|rows|] == rows;
    if CouldStep(resolve, dir, files, rows, |rows|) {
      ThereUpTo(resolve, dir, folder, files, rows, |rows|);
    }
    if AllThere(files, folder, rows) {
      forall k {:trigger rows[..k]} {:trigger rows[k]} | 0 <= k < |rows|
        ensures CanStep(resolve, dir, Applied(resolve, dir, files, rows[..k]), rows[k]) <==>
                !LinkReaches(resolve, folder, files, rows, k) && !FolderOnEntry(files, folder, rows[k])
      {
        StepsExactly(resolve, dir, folder, files, rows, k);
      }
    }
  }

  lemma StepsExactly(resolve: Resolver, dir: string, folder: nat, files: Files, rows: seq<Row>, k: nat)
    requires FlatAt(resolve, dir, folder) && SlashFree(rows) && Tree(files) && Acceptable(resolve, dir, files, rows)
    requires k < |rows| && AllThere(files, folder, rows)
    ensures CanStep(resolve, dir, Applied(resolve, dir, files, rows[..k]), rows[k]) <==>
            !LinkReaches(resolve, folder, files, rows, k) && !FolderOnEntry(files, folder, rows[k])
  {
    CollisionExactly(resolve, dir, folder, files, rows, k);
    if Changed(rows[k]) {
      NextUntouched(resolve, dir, folder, files, rows, k);
      RefusedExactly(resolve, dir, folder, files, rows, k);
    }
  }

  ghost predicate Passes(resolve: Resolver, folder: nat, files: Files, rows: seq<Row>)
    requires NamesOnce(rows)
  {
    && AllThere(files, folder, rows) && NoLinkReaches(resolve, folder, files, rows)
    && NoFolderOnEntry(files, folder, rows)
  }

  ghost predicate NoLinkAtNewNames(files: Files, folder: nat, rows: seq<Row>) {
    forall r :: r in rows && Changed(r) ==>
      Place(folder, r.after) in files ==> !files[Place(folder, r.after)].Link?
  }

  /** As far as it comes, it replaces nothing exactly when no link stands at a new name. */
  lemma ReplacesExactly(resolve: Resolver, dir: string, folder: nat, files: Files, rows: seq<Row>, n: nat)
    requires FlatAt(resolve, dir, folder) && SlashFree(rows) && Acceptable(resolve, dir, files, rows)
    requires n <= |rows| && CouldStep(resolve, dir, files, rows, n)
    ensures NothingReplaced(resolve, dir, files, rows, n) <==> NoLinkAtNewNames(files, folder, rows[..n])
  {
    forall k {:trigger rows[..k]} | 0 <= k < n
      ensures Replaces(resolve, dir, Applied(resolve, dir, files, rows[..k]), rows[k]) <==>
              Changed(rows[k]) && Place(folder, rows[k].after) in files && files[Place(folder, rows[k].after)].Link?
    {
      if Changed(rows[k]) {
        ReplacesAt(resolve, dir, folder, files, rows, k);
      }
    }
    if NoLinkAtNewNames(files, folder, rows[..n]) {
      assert forall k :: 0 <= k < n ==> rows[k] in rows[..n];
    }
    if NothingReplaced(resolve, dir, files, rows, n) {
      forall r | r in rows[..n] && Changed(r) && Place(folder, r.after) in files
        ensures !files[Place(folder, r.after)].Link?
      {
        var k :| 0 <= k < n && rows[k] == r;
        assert !Replaces(resolve, dir, Applied(resolve, dir, files, rows[..k]), rows[k]);
      }
    }
  }

  lemma ReplacesAt(resolve: Resolver, dir: string, folder: nat, files: Files, rows: seq<Row>, k: nat)
    requires FlatAt(resolve, dir, folder) && SlashFree(rows) && Acceptable(resolve, dir, files, rows)
    requires k < |rows| && CouldStep(resolve, dir, files, rows, k) && Changed(rows[k])
    ensures var a := Place(folder, rows[k].after);
            Replaces(resolve, dir, Applied(resolve, dir, files, rows[..k]), rows[k]) <==> a in files && files[a].Link?
  {
    ThereUpTo(resolve, dir, folder, files, rows, k);
    NextUntouched(resolve, dir, folder, files, rows, k);
    var now := Applied(resolve, dir, files, rows[..k]);
    assert !Blocked(resolve, dir, files, rows[k]);
    assert resolve(files, InDir(dir, rows[k].after)) == Some(Place(folder, rows[k].after));
    assert resolve(now, InDir(dir, rows[k].before)) == Some(Place(folder, rows[k].before));
    assert resolve(now, InDir(dir, rows[k].after)) == Some(Place(folder, rows[k].after));
  }

  /** An accepted list that goes through keeps everything exactly when no link stands at a new name. */
  lemma LosesExactly(resolve: Resolver, dir: string, folder: nat, files: Files, rows: seq<Row>)
    requires FlatAt(resolve, dir, folder) && SlashFree(rows) && Acceptable(resolve, dir, files, rows)
    requires OnePlaceEach(files) && CouldStep(resolve, dir, files, rows, |rows|)
    ensures AllKept(files, AtOnce(files, folder, rows)) <==> NoLinkAtNewNames(files, folder, rows)
  {
    assert rows[..|rows|] == rows;
    ThereUpTo(resolve, dir, folder, files, rows, |rows|);
    AppliedIsAtOnce(resolve, dir, folder, files, rows);
    RunLosesExactly(resolve, dir, files, rows, |rows|);
    ReplacesExactly(resolve, dir, folder, files, rows, |rows|);
  }

  lemma {:induction false} ThereUpTo(resolve: Resolver, dir: string, folder: nat, files: Files, rows: seq<Row>, n: nat)
    requires FlatAt(resolve, dir, folder) && SlashFree(rows) && NamesOnce(rows) && n <= |rows|
    requires CouldStep(resolve, dir, files, rows, n)
    ensures AllThere(files, folder, rows[..n])
  {
    if n > 0 {
      ThereUpTo(resolve, dir, folder, files, rows, n - 1);
      assert rows[..n] == rows[..n - 1] + [rows[n - 1]];
      assert CanStep(resolve, dir, Applied(resolve, dir, files, rows[..n - 1]), rows[n - 1]);
      if Changed(rows[n - 1]) {
        NextUntouched(resolve, dir, folder, files, rows, n - 1);
      }
    }
  }

  /**
   * New names within the directory: as far as it comes, the rows are done at once, and it goes through
   * exactly when it can.
   */
  method RenameWithin(b: BulkRename, folder: nat) returns (success: bool, ghost done: nat)
    requires FlatAt(b.resolve, b.dir, folder) && SlashFree(b.rows) && !b.faulty
    requires OnePlaceEach(b.files) && Tree(b.files)
    modifies b
    ensures done <= |old(b.rows)| && b.rows == old(b.rows)[done..] && NamesOnce(old(b.rows)[..done])
    ensures b.files == AtOnce(old(b.files), folder, old(b.rows)[..done])
    ensures success <==>
      && Acceptable(b.resolve, b.dir, old(b.files), old(b.rows)) && (exists r :: r in old(b.rows) && Changed(r))
      && Passes(b.resolve, folder, old(b.files), old(b.rows))
    ensures success ==> b.rows == []
    ensures AllKept(old(b.files), b.files) <==> NoLinkAtNewNames(old(b.files), folder, old(b.rows)[..done])
  {
    ghost var files, rows := b.files, b.rows;
    success, done := b.RenameItems(false);
    if Acceptable(b.resolve, b.dir, files, rows) {
      WithinOutcome(b.resolve, b.dir, folder, files, rows, done);
    } else {
      assert rows[..0] == [];
    }
  }

  lemma WithinOutcome(resolve: Resolver, dir: string, folder: nat, files: Files, rows: seq<Row>, done: nat)
    requires FlatAt(resolve, dir, folder) && SlashFree(rows) && Tree(files) && Acceptable(resolve, dir, files, rows)
    requires done <= |rows| && CouldStep(resolve, dir, files, rows, done)
    ensures NamesOnce(rows[..done])
    ensures Applied(resolve, dir, files, rows[..done]) == AtOnce(files, folder, rows[..done])
    ensures NothingReplaced(resolve, dir, files, rows, done) <==> NoLinkAtNewNames(files, folder, rows[..done])
    ensures CouldStep(resolve, dir, files, rows, |rows|) <==> Passes(resolve, folder, files, rows)
    ensures CouldStep(resolve, dir, files, rows, |rows|) && done < |rows| ==>
            CanStep(resolve, dir, Applied(resolve, dir, files, rows[..done]), rows[done..][0])
  {
    PrefixOnce(rows, done);
    ThereUpTo(resolve, dir, folder, files, rows, done);
    AppliedIsAtOnce(resolve, dir, folder, files, rows[..done]);
    ReplacesExactly(resolve, dir, folder, files, rows, done);
    AcceptedGoesThrough(resolve, dir, folder, files, rows);
  }

  /** A resolver that knows one directory. */
  function OneDirectory(dir: string): Resolver {
    (files, path) =>
      var n := |dir| + 1;
      if |path| > n && path[..n] == dir + "/" && '/' !in path[n..] then Some(Place(0, path[n..])) else None
  }

  lemma OneDirectoryFlat(dir: string)
    ensures FlatAt(OneDirectory(dir), dir, 0)
  {
    forall files: Files, leaf: string | leaf != "" && '/' !in leaf
      ensures OneDirectory(dir)(files, InDir(dir, leaf)) == Some(Place(0, leaf))
    {
      var n := |dir| + 1;
      assert InDir(dir, leaf)[..n] == dir + "/" && InDir(dir, leaf)[n..] == leaf;
    }
  }

  function TrapFiles(): Files {
    map[Place(0, "a") := File(1), Place(0, "b") := File(2), Place(0, "l") := Link(3, "d/x")]
  }

  function TrapRows(): seq<Row> {
    [Row("a", "x"), Row("b", "l")]
  }

  lemma TrapAccepted()
    ensures SlashFree(TrapRows()) && AllThere(TrapFiles(), 0, TrapRows()) && Tree(TrapFiles())
    ensures NoFolderOnEntry(TrapFiles(), 0, TrapRows())
    ensures Acceptable(OneDirectory("d"), "d", TrapFiles(), TrapRows())
  {
    var resolve := OneDirectory("d");
    OneDirectoryFlat("d");
    assert Ranked(TrapFiles(), (x: nat) => x);
    assert InDir("d", "x") == "d/x";
    assert Apart(TrapRows()[0], TrapRows()[1]);
    assert resolve(TrapFiles(), InDir("d", "x")) == Some(Place(0, "x"));
    assert resolve(TrapFiles(), InDir("d", "l")) == Some(Place(0, "l"));
  }

  /** From link to link: where each leads, and where the last one ends. */
  ghost predicate Chain(resolve: Resolver, files: Files, path: string, chain: seq<Place>)
    decreases |chain|
  {
    && chain != [] && resolve(files, path) == Some(chain[0]) && chain[0] in files
    && if |chain| == 1 then !files[chain[0]].Link?
       else files[chain[0]].Link? && Chain(resolve, files, files[chain[0]].target, chain[1..])
  }

  /** A path reaches something when so many links, and no more than that, lead to an entry that is none. */
  lemma {:induction false} ReachesExactly(resolve: Resolver, files: Files, path: string, hops: nat)
    ensures Reaches(resolve, files, path, hops) <==>
            exists chain :: |chain| <= hops + 1 && Chain(resolve, files, path, chain)
    decreases hops
  {
    var p := resolve(files, path);
    if p.Some? && p.value in files {
      var node := files[p.value];
      if !node.Link? {
        assert Chain(resolve, files, path, [p.value]);
      } else if hops > 0 {
        ReachesExactly(resolve, files, node.target, hops - 1);
        forall chain | |chain| <= hops && Chain(resolve, files, node.target, chain)
          ensures Chain(resolve, files, path, [p.value] + chain)
        {
          assert ([p.value] + chain)[1..] == chain;
        }
      }
    }
  }

  lemma ReachesSolid(resolve: Resolver, files: Files, path: string, p: Place, hops: nat)
    requires resolve(files, path) == Some(p) && p in files && !files[p].Link?
    ensures Reaches(resolve, files, path, hops)
  {
  }

  lemma TrapCloses()
    requires NamesOnce(TrapRows())
    ensures LinkReaches(OneDirectory("d"), 0, TrapFiles(), TrapRows(), 1)
  {
    OneDirectoryFlat("d");
    var first := TrapRows()[..1];
    PrefixOnce(TrapRows(), 1);
    AtOnceAt(TrapFiles(), 0, first, first[0]);
    var once := AtOnce(TrapFiles(), 0, first);
    assert InDir("d", "x") == "d/x";
    ReachesSolid(OneDirectory("d"), once, "d/x", Place(0, "x"), MAX_LINKS - 1);
  }

  /** A pass can fail halfway: the first row makes the target of a link that stands at the second new name. */
  lemma LinkGetsInTheWay()
    ensures FlatAt(OneDirectory("d"), "d", 0) && SlashFree(TrapRows()) && AllThere(TrapFiles(), 0, TrapRows())
    ensures Acceptable(OneDirectory("d"), "d", TrapFiles(), TrapRows()) && NoFolderOnEntry(TrapFiles(), 0, TrapRows())
    ensures !CouldStep(OneDirectory("d"), "d", TrapFiles(), TrapRows(), 2)
  {
    OneDirectoryFlat("d");
    TrapAccepted();
    TrapCloses();
    StepsExactly(OneDirectory("d"), "d", 0, TrapFiles(), TrapRows(), 1);
  }

  /** Something is to be renamed to the name of a link that dangles. */
  function OntoLink(node: Node): Files {
    map[Place(0, "a") := node, Place(0, "l") := Link(2, "d/zz")]
  }

  lemma OntoLinkAccepted(node: Node)
    requires !node.Link?
    ensures FlatAt(OneDirectory("d"), "d", 0) && SlashFree([Row("a", "l")])
    ensures Acceptable(OneDirectory("d"), "d", OntoLink(node), [Row("a", "l")])
    ensures Applied(OneDirectory("d"), "d", OntoLink(node), [Row("a", "l")][..0]) == OntoLink(node)
  {
    OneDirectoryFlat("d");
    assert InDir("d", "zz") == "d/zz";
    assert OneDirectory("d")(OntoLink(node), InDir("d", "zz")) == Some(Place(0, "zz"));
    assert OneDirectory("d")(OntoLink(node), InDir("d", "l")) == Some(Place(0, "l"));
  }

  /** And one that goes through can lose a link: it dangles, so its name counts as free, and is replaced. */
  lemma LinkIsLost()
    ensures var resolve, rows, files := OneDirectory("d"), [Row("a", "l")], OntoLink(File(1));
            && FlatAt(resolve, "d", 0) && SlashFree(rows) && Acceptable(resolve, "d", files, rows)
            && CouldStep(resolve, "d", files, rows, 1)
            && !Somewhere(Applied(resolve, "d", files, rows), Link(2, "d/zz"))
  {
    var resolve, rows, files := OneDirectory("d"), [Row("a", "l")], OntoLink(File(1));
    OntoLinkAccepted(File(1));
    assert resolve(files, InDir("d", "l")) == Some(Place(0, "l"));
    assert resolve(files, InDir("d", "a")) == Some(Place(0, "a"));
    assert Applied(resolve, "d", files, rows) == Moved(files, Place(0, "a"), Place(0, "l"));
  }

  lemma OneRowStops(resolve: Resolver, dir: string, folder: nat, files: Files, row: Row)
    requires FlatAt(resolve, dir, folder) && SlashFree([row]) && Tree(files) && Acceptable(resolve, dir, files, [row])
    requires FolderOnEntry(files, folder, row)
    ensures AllThere(files, folder, [row]) && NoLinkReaches(resolve, folder, files, [row])
    ensures !CouldStep(resolve, dir, files, [row], 1)
  {
    var rows := [row];
    assert rows[..0] == [] && Applied(resolve, dir, files, rows[..0]) == files;
    CollisionExactly(resolve, dir, folder, files, rows, 0);
    AcceptedGoesThrough(resolve, dir, folder, files, rows);
    assert FolderOnEntry(files, folder, rows[0]);
  }

  /** If it is a directory the pass stops, although no link comes to lead anywhere. */
  lemma FolderOntoLink()
    ensures FlatAt(OneDirectory("d"), "d", 0) && SlashFree([Row("a", "l")]) && Tree(OntoLink(Folder(1)))
    ensures Acceptable(OneDirectory("d"), "d", OntoLink(Folder(1)), [Row("a", "l")])
    ensures AllThere(OntoLink(Folder(1)), 0, [Row("a", "l")])
    ensures NoLinkReaches(OneDirectory("d"), 0, OntoLink(Folder(1)), [Row("a", "l")])
    ensures !CouldStep(OneDirectory("d"), "d", OntoLink(Folder(1)), [Row("a", "l")], 1)
  {
    OntoLinkAccepted(Folder(1));
    assert Ranked(OntoLink(Folder(1)), (x: nat) => x);
    hide OneDirectory, FlatAt, Acceptable, Tree, CouldStep, NoLinkReaches;
    OneRowStops(OneDirectory("d"), "d", 0, OntoLink(Folder(1)), Row("a", "l"));
  }

  /** Nor is it renamed into itself, although the list is accepted if the slash is. */
  lemma FolderIntoItself()
    ensures var resolve: Resolver := (files, path) => if path == "d/a" then Some(Place(0, "a"))
                                                      else if path == "d/a/b" then Some(Place(1, "b")) else None;
            var rows := [Row("a", "a/b")];
            var files: Files := map[Place(0, "a") := Folder(1)];
            && Tree(files) && Acceptable(resolve, "d", files, rows) && !Missing(resolve, "d", files, rows[0])
            && !CouldStep(resolve, "d", files, rows, 1)
  {
    var resolve: Resolver := (files, path) => if path == "d/a" then Some(Place(0, "a"))
                                              else if path == "d/a/b" then Some(Place(1, "b")) else None;
    var rows := [Row("a", "a/b")];
    var files: Files := map[Place(0, "a") := Folder(1)];
    assert Ranked(files, (x: nat) => x);
    assert InDir("d", "a") == "d/a" && InDir("d", "a/b") == "d/a/b";
    assert rows[..0] == [];
    assert Refuses(files, Place(0, "a"), Place(1, "b"), "d/a/b");
    assert !CanStep(resolve, "d", Applied(resolve, "d", files, rows[..0]), rows[0]);
  }
}
