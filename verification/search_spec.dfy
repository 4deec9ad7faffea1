/** What a file search is to find. */
module SearchSpec {
  datatype FileType = Regular | Directory | SymbolicLink | Special
  datatype SearchType = AnyType | Files | Directories | Symlinks

  /**
   * What a directory is known by: its file id, the same along whatever path it is met. Where the file
   * system gives none it is the URI, and every path to a directory is one of its own.
   */
  type Key = nat

  /**
   * One entry of a directory as it is reported to this search: `named` and `holds` stand
   * for the name and the content test, `target` is the directory it leads to.
   */
  datatype Entry = Entry(name: string, fileType: FileType, hidden: bool, isSymlink: bool, size: nat,
                         named: bool, holds: bool, target: Key)

  datatype Options = Options(searchType: SearchType, recursive: bool, hidden: bool, followLinks: bool,
                             oneFilesystem: bool, searchContent: bool, minSize: nat, maxSize: nat)

  /** The directories that can be listed, and the device of every directory. */
  datatype Disk = Disk(entries: map<Key, seq<Entry>>, device: Key -> nat)

  datatype Hit = InDir(dir: Key, name: string) | AtRoot(index: nat)

  predicate TypeMatches(t: SearchType, f: FileType) {
    match t
    case Files => f == Regular
    case Directories => f == Directory
    case Symlinks => f == SymbolicLink
    case AnyType => true
  }

  /** Everything but the content test. */
  predicate LooksRight(o: Options, e: Entry) {
    TypeMatches(o.searchType, e.fileType) && e.size >= o.minSize && (o.maxSize == 0 || e.size <= o.maxSize) && e.named
  }

  predicate Matches(o: Options, e: Entry) {
    LooksRight(o, e) && (o.searchContent ==> e.fileType == Regular && e.holds)
  }

  predicate Visible(o: Options, e: Entry) {
    o.hidden || !e.hidden
  }

  /** The rules for going into a directory met in the search from a root on device `rootDev`. */
  predicate Enters(o: Options, disk: Disk, rootDev: nat, e: Entry) {
    && Visible(o, e) && o.recursive && e.fileType == Directory && !(e.isSymlink && !o.followLinks)
    && (!o.oneFilesystem || rootDev == 0 || disk.device(e.target) == 0 || disk.device(e.target) == rootDev)
  }

  predicate EntersAt(o: Options, disk: Disk, rootDev: nat, x: Key, i: int) {
    x in disk.entries && 0 <= i < |disk.entries[x]| && Enters(o, disk, rootDev, disk.entries[x][i])
  }

  ghost predicate Edge(o: Options, disk: Disk, rootDev: nat, x: Key, y: Key) {
    exists i :: EntersAt(o, disk, rootDev, x, i) && disk.entries[x][i].target == y
  }

  ghost predicate Walk(o: Options, disk: Disk, rootDev: nat, walk: seq<Key>) {
    walk != [] && forall i :: 0 <= i < |walk| - 1 ==> Edge(o, disk, rootDev, walk[i], walk[i + 1])
  }

  ghost predicate Reachable(o: Options, disk: Disk, rootDev: nat, x: Key, y: Key) {
    exists walk :: Walk(o, disk, rootDev, walk) && walk[0] == x && walk[|walk| - 1] == y
  }

  lemma ReachesItself(o: Options, disk: Disk, rootDev: nat, x: Key)
    ensures Reachable(o, disk, rootDev, x, x)
  {
    assert Walk(o, disk, rootDev, [x]);
  }

  lemma ReachesOn(o: Options, disk: Disk, rootDev: nat, x: Key, y: Key, z: Key)
    requires Edge(o, disk, rootDev, x, y) && Reachable(o, disk, rootDev, y, z)
    ensures Reachable(o, disk, rootDev, x, z)
  {
    var walk :| Walk(o, disk, rootDev, walk) && walk[0] == y && walk[|walk| - 1] == z;
    assert Walk(o, disk, rootDev, [x] + walk);
  }

  /** Every directory the rules lead to from `x` is in `visited`. */
  ghost predicate Closed(o: Options, disk: Disk, rootDev: nat, visited: set<Key>, x: Key) {
    forall y :: Edge(o, disk, rootDev, x, y) ==> y in visited
  }

  predicate IsMatch(o: Options, disk: Disk, x: Key, i: int) {
    x in disk.entries && 0 <= i < |disk.entries[x]| && Visible(o, disk.entries[x][i]) && Matches(o, disk.entries[x][i])
  }

  /** Every match in `x` has been reported. */
  ghost predicate Reported(o: Options, disk: Disk, results: seq<Hit>, x: Key) {
    forall i :: IsMatch(o, disk, x, i) ==> InDir(x, disk.entries[x][i].name) in results
  }

  /** The hit names a match in one of `dirs`. */
  ghost predicate Genuine(o: Options, disk: Disk, dirs: set<Key>, h: Hit) {
    h.InDir? && h.dir in dirs && exists i :: IsMatch(o, disk, h.dir, i) && disk.entries[h.dir][i].name == h.name
  }

  predicate Distinct<T(==)>(s: seq<T>) {
    forall i, j :: 0 <= i < j < |s| ==> s[i] != s[j]
  }

  /** No directory lists a name twice. */
  ghost predicate WellNamed(disk: Disk) {
    forall x :: x in disk.entries ==>
      forall i, j :: 0 <= i < j < |disk.entries[x]| ==> disk.entries[x][i].name != disk.entries[x][j].name
  }

  lemma {:induction false} ClosedHoldsWalk(o: Options, disk: Disk, rootDev: nat, visited: set<Key>, walk: seq<Key>)
    requires Walk(o, disk, rootDev, walk) && walk[0] in visited
    requires forall x :: x in visited ==> Closed(o, disk, rootDev, visited, x)
    ensures walk[|walk| - 1] in visited
  {
    if |walk| > 1 {
      assert Edge(o, disk, rootDev, walk[0], walk[1]) && Closed(o, disk, rootDev, visited, walk[0]);
      ClosedHoldsWalk(o, disk, rootDev, visited, walk[1..]);
    }
  }

  /**
   * A scan of `d` under way: of its entries the first `n` have been weighed and the first
   * `m` gone into. `v0` and `r0` are what it started from; `sure` when nothing disturbs it.
   */
  ghost predicate Done(o: Options, disk: Disk, rootDev: nat, v0: set<Key>, r0: seq<Hit>, d: Key,
                       n: int, m: int, visited: set<Key>, results: seq<Hit>, sure: bool)
  {
    && v0 <= visited && d in visited && d !in v0
    && (forall x :: x in visited - v0 ==> Reachable(o, disk, rootDev, d, x))
    && (forall h :: h in r0 ==> h in results)
    && (forall h :: h in results && h !in r0 ==> Genuine(o, disk, visited - v0, h))
    && (forall i :: IsMatch(o, disk, d, i) && i >= n ==> InDir(d, disk.entries[d][i].name) !in results)
    && (sure ==> forall x :: x in visited - v0 && x != d ==>
         Closed(o, disk, rootDev, visited, x) && Reported(o, disk, results, x))
    && (sure ==> forall i :: IsMatch(o, disk, d, i) && i < n ==> InDir(d, disk.entries[d][i].name) in results)
    && (sure ==> forall i :: EntersAt(o, disk, rootDev, d, i) && i < m ==> disk.entries[d][i].target in visited)
  }

  /** A whole scan from `d`. */
  ghost predicate Scanned(o: Options, disk: Disk, rootDev: nat, v0: set<Key>, r0: seq<Hit>, d: Key,
                          visited: set<Key>, results: seq<Hit>, sure: bool)
  {
    && v0 <= visited
    && (forall x :: x in visited - v0 ==> Reachable(o, disk, rootDev, d, x))
    && (forall h :: h in r0 ==> h in results)
    && (forall h :: h in results && h !in r0 ==> Genuine(o, disk, visited - v0, h))
    && (sure ==> d in visited)
    && (sure ==> forall x :: x in visited - v0 ==>
         Closed(o, disk, rootDev, visited, x) && Reported(o, disk, results, x))
  }

  lemma BeginDone(o: Options, disk: Disk, rootDev: nat, v0: set<Key>, r0: seq<Hit>, d: Key, sure: bool)
    requires d !in v0 && forall h :: h in r0 && h.InDir? ==> h.dir in v0
    ensures Done(o, disk, rootDev, v0, r0, d, 0, 0, v0 + {d}, r0, sure)
  {
    ReachesItself(o, disk, rootDev, d);
  }

  lemma EntryWeighed(o: Options, disk: Disk, rootDev: nat, v0: set<Key>, r0: seq<Hit>, d: Key,
                    n: int, visited: set<Key>, results: seq<Hit>, sure: bool, hit: bool)
    requires Done(o, disk, rootDev, v0, r0, d, n, n, visited, results, sure) && WellNamed(disk)
    requires hit ==> IsMatch(o, disk, d, n)
    requires sure ==> hit == IsMatch(o, disk, d, n)
    ensures hit ==> InDir(d, disk.entries[d][n].name) !in results
    ensures Done(o, disk, rootDev, v0, r0, d, n + 1, n, visited,
                 if hit then results + [InDir(d, disk.entries[d][n].name)] else results, sure)
  {
    var results' := if hit then results + [InDir(d, disk.entries[d][n].name)] else results;
    forall h | h in results' && h !in r0
      ensures Genuine(o, disk, visited - v0, h)
    {
      assert h in results || IsMatch(o, disk, d, n);
    }
    forall x | x in visited - v0 && x != d && sure
      ensures Reported(o, disk, results', x)
    {
      assert Reported(o, disk, results, x);
    }
  }

  lemma EntryEntered(o: Options, disk: Disk, rootDev: nat, v0: set<Key>, r0: seq<Hit>, d: Key, n: int,
                     v1: set<Key>, r1: seq<Hit>, visited: set<Key>, results: seq<Hit>, sure: bool)
    requires Done(o, disk, rootDev, v0, r0, d, n + 1, n, v1, r1, sure)
    requires EntersAt(o, disk, rootDev, d, n)
    requires Scanned(o, disk, rootDev, v1, r1, disk.entries[d][n].target, visited, results, sure)
    ensures Done(o, disk, rootDev, v0, r0, d, n + 1, n + 1, visited, results, sure)
  {
    var t := disk.entries[d][n].target;
    assert Edge(o, disk, rootDev, d, t);
    forall x | x in visited - v0
      ensures Reachable(o, disk, rootDev, d, x)
    {
      if x !in v1 {
        ReachesOn(o, disk, rootDev, d, t, x);
      }
    }
    forall x | x in visited - v0 && x != d && sure
      ensures Closed(o, disk, rootDev, visited, x) && Reported(o, disk, results, x)
    {
      assert x in v1 ==> Closed(o, disk, rootDev, v1, x) && Reported(o, disk, r1, x);
    }
  }

  lemma AllDone(o: Options, disk: Disk, rootDev: nat, v0: set<Key>, r0: seq<Hit>, d: Key,
                n: int, visited: set<Key>, results: seq<Hit>, sure: bool)
    requires Done(o, disk, rootDev, v0, r0, d, n, n, visited, results, sure)
    requires sure && d in disk.entries ==> n >= |disk.entries[d]|
    ensures Scanned(o, disk, rootDev, v0, r0, d, visited, results, sure)
  {
    if sure {
      assert Closed(o, disk, rootDev, visited, d) && Reported(o, disk, results, d);
    }
  }

  /** What a search may be started at. */
  datatype Root = Unreadable | Folder(key: Key) | Single(entry: Entry)

  /** The device rule lets the same edges through from every root. */
  ghost predicate Uniform(o: Options, device: Key -> nat) {
    !o.oneFilesystem || !o.recursive || forall a, b :: device(a) != 0 && device(b) != 0 ==> device(a) == device(b)
  }

  /** When no root can be cut short by another. */
  ghost predicate OneRule(o: Options, device: Key -> nat) {
    Uniform(o, device) || forall k :: device(k) != 0
  }

  ghost predicate FromRoot(o: Options, disk: Disk, roots: seq<Root>, n: int, x: Key) {
    exists i :: 0 <= i < n && i < |roots| && roots[i].Folder? &&
      Reachable(o, disk, disk.device(roots[i].key), roots[i].key, x)
  }

  lemma SameEdges(o: Options, disk: Disk, p: Key, q: Key, x: Key, y: Key)
    requires Uniform(o, disk.device) || disk.device(p) == disk.device(q)
    ensures Edge(o, disk, disk.device(p), x, y) <==> Edge(o, disk, disk.device(q), x, y)
  {
    forall i | x in disk.entries && 0 <= i < |disk.entries[x]|
      ensures EntersAt(o, disk, disk.device(p), x, i) <==> EntersAt(o, disk, disk.device(q), x, i)
    {
      SameEntering(o, disk, p, q, disk.entries[x][i]);
    }
  }

  lemma SameEntering(o: Options, disk: Disk, p: Key, q: Key, e: Entry)
    requires Uniform(o, disk.device) || disk.device(p) == disk.device(q)
    ensures Enters(o, disk, disk.device(p), e) <==> Enters(o, disk, disk.device(q), e)
  {
  }

  lemma {:induction false} WalkKeepsDevice(o: Options, disk: Disk, walk: seq<Key>)
    requires o.oneFilesystem && forall k :: disk.device(k) != 0
    requires walk != [] && Walk(o, disk, disk.device(walk[0]), walk)
    ensures disk.device(walk[|walk| - 1]) == disk.device(walk[0])
  {
    if |walk| > 1 {
      assert Edge(o, disk, disk.device(walk[0]), walk[0], walk[1]);
      assert Walk(o, disk, disk.device(walk[1]), walk[1..]);
      WalkKeepsDevice(o, disk, walk[1..]);
    }
  }

  /** Closed by the rule of its own device. */
  ghost predicate Settled(o: Options, disk: Disk, visited: set<Key>, results: seq<Hit>, x: Key) {
    Closed(o, disk, disk.device(x), visited, x) && Reported(o, disk, results, x)
  }

  lemma ScanSettles(o: Options, disk: Disk, r: Key, v0: set<Key>, r0: seq<Hit>, visited: set<Key>, results: seq<Hit>)
    requires OneRule(o, disk.device) && Scanned(o, disk, disk.device(r), v0, r0, r, visited, results, true)
    requires forall x :: x in v0 ==> Settled(o, disk, v0, r0, x)
    ensures forall x :: x in visited ==> Settled(o, disk, visited, results, x)
  {
    forall x | x in visited
      ensures Settled(o, disk, visited, results, x)
    {
      if x in v0 {
        assert Settled(o, disk, v0, r0, x);
      } else {
        assert x in visited - v0;
        assert Reachable(o, disk, disk.device(r), r, x);
        var walk :| Walk(o, disk, disk.device(r), walk) && walk[0] == r && walk[|walk| - 1] == x;
        if !Uniform(o, disk.device) {
          WalkKeepsDevice(o, disk, walk);
        }
        forall y | Edge(o, disk, disk.device(x), x, y)
          ensures y in visited
        {
          SameEdges(o, disk, r, x, x, y);
        }
      }
    }
  }

  lemma {:induction false} SettledHoldsWalk(o: Options, disk: Disk, visited: set<Key>, results: seq<Hit>,
                                            walk: seq<Key>)
    requires OneRule(o, disk.device) && walk != [] && Walk(o, disk, disk.device(walk[0]), walk) && walk[0] in visited
    requires forall x :: x in visited ==> Settled(o, disk, visited, results, x)
    ensures walk[|walk| - 1] in visited
  {
    if |walk| > 1 {
      assert Edge(o, disk, disk.device(walk[0]), walk[0], walk[1]) && Settled(o, disk, visited, results, walk[0]);
      forall i | 1 <= i < |walk| - 1
        ensures Edge(o, disk, disk.device(walk[1]), walk[i], walk[i + 1])
      {
        SameEdges(o, disk, walk[0], walk[1], walk[i], walk[i + 1]);
      }
      SettledHoldsWalk(o, disk, visited, results, walk[1..]);
    }
  }

  /** A settled set holds all that is reachable from a root in it. */
  lemma SettledHoldsAll(o: Options, disk: Disk, visited: set<Key>, results: seq<Hit>, r: Key)
    requires OneRule(o, disk.device) && r in visited
    requires forall x :: x in visited ==> Settled(o, disk, visited, results, x)
    ensures forall x :: Reachable(o, disk, disk.device(r), r, x) ==> x in visited
  {
    forall x | Reachable(o, disk, disk.device(r), r, x)
      ensures x in visited
    {
      var walk :| Walk(o, disk, disk.device(r), walk) && walk[0] == r && walk[|walk| - 1] == x;
      SettledHoldsWalk(o, disk, visited, results, walk);
    }
  }

  /** With one root the device rule needs no such care. */
  lemma OneScanHoldsAll(o: Options, disk: Disk, rootDev: nat, r: Key, visited: set<Key>, results: seq<Hit>)
    requires Scanned(o, disk, rootDev, {}, [], r, visited, results, true)
    ensures forall x :: Reachable(o, disk, rootDev, r, x) <==> x in visited
  {
    forall x | Reachable(o, disk, rootDev, r, x)
      ensures x in visited
    {
      var walk :| Walk(o, disk, rootDev, walk) && walk[0] == r && walk[|walk| - 1] == x;
      ClosedHoldsWalk(o, disk, rootDev, visited, walk);
    }
  }

  /** Exactly the directories the rules lead to have been entered, and every match in them is reported. */
  ghost predicate Exhaustive(o: Options, disk: Disk, roots: seq<Root>, visited: set<Key>, results: seq<Hit>) {
    && (forall x :: x in visited <==> FromRoot(o, disk, roots, |roots|, x))
    && (forall x :: x in visited ==> Reported(o, disk, results, x))
  }

  lemma SettledIsExhaustive(o: Options, disk: Disk, roots: seq<Root>, visited: set<Key>, results: seq<Hit>)
    requires OneRule(o, disk.device)
    requires forall x :: x in visited ==> FromRoot(o, disk, roots, |roots|, x) && Settled(o, disk, visited, results, x)
    requires forall i :: 0 <= i < |roots| && roots[i].Folder? ==> roots[i].key in visited
    ensures Exhaustive(o, disk, roots, visited, results)
  {
    forall x | FromRoot(o, disk, roots, |roots|, x)
      ensures x in visited
    {
      var i :| 0 <= i < |roots| && roots[i].Folder? && Reachable(o, disk, disk.device(roots[i].key), roots[i].key, x);
      SettledHoldsAll(o, disk, visited, results, roots[i].key);
    }
    forall x | x in visited
      ensures Reported(o, disk, results, x)
    {
      assert Settled(o, disk, visited, results, x);
    }
  }

  lemma OneScanIsExhaustive(o: Options, disk: Disk, roots: seq<Root>, visited: set<Key>, results: seq<Hit>)
    requires |roots| == 1 && roots[0].Folder?
    requires Scanned(o, disk, disk.device(roots[0].key), {}, [], roots[0].key, visited, results, true)
    ensures Exhaustive(o, disk, roots, visited, results)
  {
    OneScanHoldsAll(o, disk, disk.device(roots[0].key), roots[0].key, visited, results);
    forall x
      ensures x in visited <==> FromRoot(o, disk, roots, 1, x)
    {
      assert Reachable(o, disk, disk.device(roots[0].key), roots[0].key, x) ==> FromRoot(o, disk, roots, 1, x);
    }
    assert visited - {} == visited;
  }

  lemma NoFolderIsExhaustive(o: Options, disk: Disk, roots: seq<Root>, results: seq<Hit>)
    requires forall i :: 0 <= i < |roots| ==> !roots[i].Folder?
    ensures Exhaustive(o, disk, roots, {}, results)
  {
  }

  /** What a search over the first `n` roots has to answer for, whatever disturbs it. */
  ghost predicate Sane(o: Options, disk: Disk, roots: seq<Root>, n: int, visited: set<Key>, results: seq<Hit>) {
    && (forall x :: x in visited ==> FromRoot(o, disk, roots, n, x))
    && (forall h :: h in results && h.InDir? ==> Genuine(o, disk, visited, h))
    && (forall h :: h in results && h.AtRoot? ==> h.index < n && RootMatches(o, roots, h.index))
  }

  predicate RootMatches(o: Options, roots: seq<Root>, i: int) {
    0 <= i < |roots| && roots[i].Single? && Matches(o, roots[i].entry)
  }

  /** What it has found besides when nothing disturbs it. */
  ghost predicate Thorough(o: Options, disk: Disk, roots: seq<Root>, n: int, visited: set<Key>, results: seq<Hit>) {
    && (forall i :: 0 <= i < n && i < |roots| && roots[i].Folder? ==> roots[i].key in visited)
    && (forall i :: i < n && RootMatches(o, roots, i) ==> AtRoot(i) in results)
    && (OneRule(o, disk.device) ==> forall x :: x in visited ==> Settled(o, disk, visited, results, x))
  }

  lemma FolderSane(o: Options, disk: Disk, roots: seq<Root>, i: nat, v0: set<Key>, r0: seq<Hit>,
                   visited: set<Key>, results: seq<Hit>, sure: bool)
    requires i < |roots| && roots[i].Folder? && Sane(o, disk, roots, i, v0, r0)
    requires Scanned(o, disk, disk.device(roots[i].key), v0, r0, roots[i].key, visited, results, sure)
    ensures Sane(o, disk, roots, i + 1, visited, results)
  {
    forall x | x in visited
      ensures FromRoot(o, disk, roots, i + 1, x)
    {
      if x !in v0 {
        assert x in visited - v0;
      } else {
        assert FromRoot(o, disk, roots, i, x);
      }
    }
    forall h | h in results && h.InDir?
      ensures Genuine(o, disk, visited, h)
    {
      assert if h in r0 then Genuine(o, disk, v0, h) else Genuine(o, disk, visited - v0, h);
    }
  }

  lemma FolderThorough(o: Options, disk: Disk, roots: seq<Root>, i: nat, v0: set<Key>, r0: seq<Hit>,
                       visited: set<Key>, results: seq<Hit>)
    requires i < |roots| && roots[i].Folder? && Thorough(o, disk, roots, i, v0, r0)
    requires Scanned(o, disk, disk.device(roots[i].key), v0, r0, roots[i].key, visited, results, true)
    ensures Thorough(o, disk, roots, i + 1, visited, results)
  {
    if OneRule(o, disk.device) {
      ScanSettles(o, disk, roots[i].key, v0, r0, visited, results);
    }
    forall j | j < i + 1 && RootMatches(o, roots, j)
      ensures AtRoot(j) in results
    {
      assert AtRoot(j) in r0;
    }
  }

  lemma OtherSane(o: Options, disk: Disk, roots: seq<Root>, i: nat, visited: set<Key>, r0: seq<Hit>, hit: bool)
    requires i < |roots| && !roots[i].Folder? && Sane(o, disk, roots, i, visited, r0)
    requires hit ==> RootMatches(o, roots, i)
    ensures Sane(o, disk, roots, i + 1, visited, if hit then r0 + [AtRoot(i)] else r0)
  {
    forall x | x in visited
      ensures FromRoot(o, disk, roots, i + 1, x)
    {
      assert FromRoot(o, disk, roots, i, x);
    }
  }

  lemma OtherThorough(o: Options, disk: Disk, roots: seq<Root>, i: nat, visited: set<Key>, r0: seq<Hit>)
    requires i < |roots| && !roots[i].Folder? && Thorough(o, disk, roots, i, visited, r0)
    ensures Thorough(o, disk, roots, i + 1, visited, if RootMatches(o, roots, i) then r0 + [AtRoot(i)] else r0)
  {
    var results := if RootMatches(o, roots, i) then r0 + [AtRoot(i)] else r0;
    forall j | j < i + 1 && RootMatches(o, roots, j)
      ensures AtRoot(j) in results
    {
      assert j == i || AtRoot(j) in r0;
    }
    forall x | x in visited && OneRule(o, disk.device)
      ensures Settled(o, disk, visited, results, x)
    {
      assert Settled(o, disk, visited, r0, x);
    }
  }

  /** Where a search stands between two roots. */
  datatype State = State(visited: set<Key>, results: seq<Hit>)

  /** What an undisturbed search makes of one root. */
  ghost predicate RootDone(o: Options, disk: Disk, roots: seq<Root>, i: nat, s: State, t: State)
    requires i < |roots|
  {
    match roots[i]
    case Unreadable => t == s
    case Single(e) => t == if Matches(o, e) then State(s.visited, s.results + [AtRoot(i)]) else s
    case Folder(key) =>
      if key in s.visited then t == s
      else Scanned(o, disk, disk.device(key), s.visited, s.results, key, t.visited, t.results, true)
  }

  ghost predicate Undisturbed(o: Options, disk: Disk, roots: seq<Root>, n: nat, trace: seq<State>)
    requires n <= |roots|
  {
    && |trace| == n + 1 && trace[0] == State({}, [])
    && forall i {:trigger trace[i]} :: 0 <= i < n ==> RootDone(o, disk, roots, i, trace[i], trace[i + 1])
  }

  /** A way an undisturbed search can end. */
  ghost predicate Outcome(o: Options, disk: Disk, roots: seq<Root>, s: State) {
    exists trace :: Undisturbed(o, disk, roots, |roots|, trace) && trace[|roots|] == s
  }

  lemma {:induction false} TraceThorough(o: Options, disk: Disk, roots: seq<Root>, n: nat, trace: seq<State>)
    requires n <= |roots| && Undisturbed(o, disk, roots, n, trace)
    ensures Sane(o, disk, roots, n, trace[n].visited, trace[n].results)
    ensures Thorough(o, disk, roots, n, trace[n].visited, trace[n].results)
  {
    if n > 0 {
      var before := trace[..n];
      assert forall i {:trigger before[i]} :: 0 <= i < n - 1 ==> before[i] == trace[i] && before[i + 1] == trace[i + 1];
      TraceThorough(o, disk, roots, n - 1, before);
      var s, t := trace[n - 1], trace[n];
      assert RootDone(o, disk, roots, n - 1, s, t);
      if roots[n - 1].Folder? {
        FolderSane(o, disk, roots, n - 1, s.visited, s.results, t.visited, t.results, true);
        FolderThorough(o, disk, roots, n - 1, s.visited, s.results, t.visited, t.results);
      } else {
        OtherSane(o, disk, roots, n - 1, s.visited, s.results, RootMatches(o, roots, n - 1));
        OtherThorough(o, disk, roots, n - 1, s.visited, s.results);
      }
    }
  }

  lemma OutcomeIsExhaustive(o: Options, disk: Disk, roots: seq<Root>, s: State)
    requires Outcome(o, disk, roots, s) && (OneRule(o, disk.device) || |roots| <= 1)
    ensures Exhaustive(o, disk, roots, s.visited, s.results)
  {
    var trace: seq<State> :| Undisturbed(o, disk, roots, |roots|, trace) && trace[|roots|] == s;
    if OneRule(o, disk.device) {
      TraceThorough(o, disk, roots, |roots|, trace);
      SettledIsExhaustive(o, disk, roots, s.visited, s.results);
    } else if |roots| == 1 && roots[0].Folder? {
      assert RootDone(o, disk, roots, 0, trace[0], trace[1]);
      OneScanIsExhaustive(o, disk, roots, s.visited, s.results);
    } else {
      assert |roots| == 1 ==> RootDone(o, disk, roots, 0, trace[0], trace[1]);
      NoFolderIsExhaustive(o, disk, roots, s.results);
    }
  }

  /** `a` leads to `z`, which has no device number, and `z` to `b`, which is not where `a` is. */
  function FencedDisk(device: Key -> nat, a: Key, z: Key, b: Key): Disk {
    var to := (k: Key) => Entry("d", Directory, false, false, 0, false, false, k);
    Disk(map[a := [to(z)], z := [to(b)]], device)
  }

  ghost predicate Fenced(o: Options, device: Key -> nat, a: Key, z: Key, b: Key) {
    && o.oneFilesystem && o.recursive
    && device(z) == 0 && device(a) != 0 && device(b) != 0 && device(a) != device(b)
  }

  lemma FencedEdges(o: Options, device: Key -> nat, a: Key, z: Key, b: Key, x: Key, y: Key)
    requires Fenced(o, device, a, z, b)
    ensures Edge(o, FencedDisk(device, a, z, b), device(a), x, y) <==> x == a && y == z
    ensures Edge(o, FencedDisk(device, a, z, b), device(z), z, b)
  {
    var disk := FencedDisk(device, a, z, b);
    assert EntersAt(o, disk, device(a), a, 0) && EntersAt(o, disk, device(z), z, 0);
    assert !EntersAt(o, disk, device(a), z, 0);
  }

  lemma {:induction false} FencedWalk(o: Options, device: Key -> nat, a: Key, z: Key, b: Key, walk: seq<Key>)
    requires Fenced(o, device, a, z, b) && Walk(o, FencedDisk(device, a, z, b), device(a), walk)
    requires walk[0] == a || walk[0] == z
    ensures walk[|walk| - 1] in {a, z}
  {
    if |walk| > 1 {
      var disk := FencedDisk(device, a, z, b);
      assert Edge(o, disk, device(a), walk[0], walk[1]);
      FencedEdges(o, device, a, z, b, walk[0], walk[1]);
      assert Walk(o, disk, device(a), walk[1..]);
      FencedWalk(o, device, a, z, b, walk[1..]);
    }
  }

  /** However a search from `a` and `z` goes, it has been in `z` when it comes to `z`, and never enters `b`. */
  lemma FencedMisses(o: Options, device: Key -> nat, a: Key, z: Key, b: Key, s: State)
    requires Fenced(o, device, a, z, b) && Outcome(o, FencedDisk(device, a, z, b), [Folder(a), Folder(z)], s)
    ensures b !in s.visited && !Exhaustive(o, FencedDisk(device, a, z, b), [Folder(a), Folder(z)], s.visited, s.results)
  {
    var disk, roots := FencedDisk(device, a, z, b), [Folder(a), Folder(z)];
    var trace: seq<State> :| Undisturbed(o, disk, roots, 2, trace) && trace[2] == s;
    assert RootDone(o, disk, roots, 0, trace[0], trace[1]) && RootDone(o, disk, roots, 1, trace[1], trace[2]);
    var first: State := trace[1];
    OneScanHoldsAll(o, disk, device(a), a, first.visited, first.results);
    FencedEdges(o, device, a, z, b, a, z);
    ReachesItself(o, disk, device(a), z);
    ReachesOn(o, disk, device(a), a, z, z);
    assert z in first.visited && s == first;
    forall walk | Walk(o, disk, device(a), walk) && walk[0] == a
      ensures walk[|walk| - 1] != b
    {
      FencedWalk(o, device, a, z, b, walk);
    }
    ReachesItself(o, disk, device(z), b);
    ReachesOn(o, disk, device(z), z, b, b);
    assert roots[1] == Folder(z) && FromRoot(o, disk, roots, 2, b);
  }

  /** And there is a way for it to go. */
  lemma FencedHappens(o: Options, device: Key -> nat, a: Key, z: Key, b: Key)
    requires Fenced(o, device, a, z, b)
    ensures Outcome(o, FencedDisk(device, a, z, b), [Folder(a), Folder(z)], State({a, z}, []))
  {
    var disk, roots, s := FencedDisk(device, a, z, b), [Folder(a), Folder(z)], State({a, z}, []);
    FencedEdges(o, device, a, z, b, a, z);
    ReachesItself(o, disk, device(a), a);
    ReachesItself(o, disk, device(a), z);
    ReachesOn(o, disk, device(a), a, z, z);
    forall x, y | Edge(o, disk, device(a), x, y)
      ensures y in {a, z}
    {
      FencedEdges(o, device, a, z, b, x, y);
    }
    assert forall x :: x in {a, z} ==> Closed(o, disk, device(a), {a, z}, x) && Reported(o, disk, [], x);
    var trace := [State({}, []), s, s];
    assert RootDone(o, disk, roots, 0, trace[0], trace[1]) && RootDone(o, disk, roots, 1, trace[1], trace[2]);
    assert Undisturbed(o, disk, roots, 2, trace);
  }

  /** Every undisturbed search with these options, on any disk with these devices and from any roots, is exhaustive. */
  ghost predicate AlwaysExhaustive(o: Options, device: Key -> nat) {
    forall disk: Disk, roots: seq<Root>, s: State :: disk.device == device && Outcome(o, disk, roots, s) ==>
      Exhaustive(o, disk, roots, s.visited, s.results)
  }

  /** Exactly when several roots cannot hide directories from each other. */
  lemma ExhaustiveExactly(o: Options, device: Key -> nat)
    ensures AlwaysExhaustive(o, device) <==>
            || !o.oneFilesystem || !o.recursive || (forall k :: device(k) != 0)
            || forall a, b :: device(a) != 0 && device(b) != 0 ==> device(a) == device(b)
  {
    if OneRule(o, device) {
      forall disk: Disk, roots: seq<Root>, s: State | disk.device == device && Outcome(o, disk, roots, s)
        ensures Exhaustive(o, disk, roots, s.visited, s.results)
      {
        OutcomeIsExhaustive(o, disk, roots, s);
      }
    } else {
      var z :| device(z) == 0;
      var a, b :| device(a) != 0 && device(b) != 0 && device(a) != device(b);
      FencedHappens(o, device, a, z, b);
      FencedMisses(o, device, a, z, b, State({a, z}, []));
    }
  }
}
