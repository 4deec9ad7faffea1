/** What the options of a search promise, put in terms of the entries themselves. */
module SearchPromises {
  import opened SearchSpec

  /** The entry that a hit stands for. */
  ghost predicate StandsFor(disk: Disk, roots: seq<Root>, h: Hit, e: Entry) {
    match h
    case InDir(dir, name) => dir in disk.entries && e in disk.entries[dir] && e.name == name
    case AtRoot(i) => i < |roots| && roots[i] == Single(e)
  }

  /** What is known of a search that nothing disturbs. */
  ghost predicate Answers(o: Options, disk: Disk, roots: seq<Root>, s: State) {
    && WellNamed(disk)
    && Sane(o, disk, roots, |roots|, s.visited, s.results)
    && Thorough(o, disk, roots, |roots|, s.visited, s.results)
    && Exhaustive(o, disk, roots, s.visited, s.results)
  }

  lemma OutcomeAnswers(o: Options, disk: Disk, roots: seq<Root>, s: State)
    requires WellNamed(disk) && Outcome(o, disk, roots, s) && (OneRule(o, disk.device) || |roots| <= 1)
    ensures Answers(o, disk, roots, s)
  {
    var trace: seq<State> :| Undisturbed(o, disk, roots, |roots|, trace) && trace[|roots|] == s;
    TraceThorough(o, disk, roots, |roots|, trace);
    OutcomeIsExhaustive(o, disk, roots, s);
  }

  /** The entry is of the type, the name, the size and the content that is asked for. */
  predicate Fits(o: Options, e: Entry) {
    && (o.searchType == Files ==> e.fileType == Regular)
    && (o.searchType == Directories ==> e.fileType == Directory)
    && (o.searchType == Symlinks ==> e.fileType == SymbolicLink)
    && e.named && o.minSize <= e.size && (o.maxSize != 0 ==> e.size <= o.maxSize)
    && (o.searchContent ==> e.fileType == Regular && e.holds)
  }

  /** Whatever disturbs it, a search only reports what was asked for. */
  lemma FoundFits(o: Options, disk: Disk, roots: seq<Root>, visited: set<Key>, results: seq<Hit>, h: Hit, e: Entry)
    requires WellNamed(disk) && Sane(o, disk, roots, |roots|, visited, results)
    requires h in results && StandsFor(disk, roots, h, e)
    ensures Fits(o, e) && (h.InDir? ==> h.dir in visited && (e.hidden ==> o.hidden))
  {
    if h.InDir? {
      assert Genuine(o, disk, visited, h);
      var i :| IsMatch(o, disk, h.dir, i) && disk.entries[h.dir][i].name == h.name;
      var j :| 0 <= j < |disk.entries[h.dir]| && disk.entries[h.dir][j] == e;
      assert i == j;
    }
  }

  /** And a search that nothing disturbs reports all of it. */
  lemma FittingFound(o: Options, disk: Disk, roots: seq<Root>, s: State, h: Hit, e: Entry)
    requires Answers(o, disk, roots, s) && StandsFor(disk, roots, h, e) && Fits(o, e)
    requires h.InDir? ==> h.dir in s.visited && (o.hidden || !e.hidden)
    ensures h in s.results
  {
    if h.InDir? {
      var i :| 0 <= i < |disk.entries[h.dir]| && disk.entries[h.dir][i] == e;
      assert Reported(o, disk, s.results, h.dir) && IsMatch(o, disk, h.dir, i);
    } else {
      assert RootMatches(o, roots, h.index);
    }
  }

  lemma SameFrom(o: Options, o': Options, disk: Disk, roots: seq<Root>, x: Key)
    requires o' == o.(searchType := o'.searchType) && FromRoot(o, disk, roots, |roots|, x)
    ensures FromRoot(o', disk, roots, |roots|, x)
  {
    var i :| 0 <= i < |roots| && roots[i].Folder? && Reachable(o, disk, disk.device(roots[i].key), roots[i].key, x);
    var dev := disk.device(roots[i].key);
    var walk :| Walk(o, disk, dev, walk) && walk[0] == roots[i].key && walk[|walk| - 1] == x;
    forall j | 0 <= j < |walk| - 1
      ensures Edge(o', disk, dev, walk[j], walk[j + 1])
    {
      assert Edge(o, disk, dev, walk[j], walk[j + 1]);
      var k :| EntersAt(o, disk, dev, walk[j], k) && disk.entries[walk[j]][k].target == walk[j + 1];
      assert EntersAt(o', disk, dev, walk[j], k);
    }
    assert Walk(o', disk, dev, walk);
  }

  /** What is searched does not depend on the type that is searched for. */
  lemma SameVisited(o: Options, o': Options, disk: Disk, roots: seq<Root>, s: State, s': State)
    requires o' == o.(searchType := o'.searchType) && Answers(o, disk, roots, s) && Answers(o', disk, roots, s')
    ensures s.visited == s'.visited
  {
    forall x
      ensures x in s.visited <==> x in s'.visited
    {
      if x in s.visited {
        SameFrom(o, o', disk, roots, x);
      }
      if x in s'.visited {
        SameFrom(o', o, disk, roots, x);
      }
    }
  }

  /** Every hit stands for something. */
  lemma HitStands(o: Options, disk: Disk, roots: seq<Root>, s: State, h: Hit) returns (e: Entry)
    requires Answers(o, disk, roots, s) && h in s.results
    ensures StandsFor(disk, roots, h, e)
  {
    if h.InDir? {
      assert Genuine(o, disk, s.visited, h);
      var i :| IsMatch(o, disk, h.dir, i) && disk.entries[h.dir][i].name == h.name;
      e := disk.entries[h.dir][i];
    } else {
      e := roots[h.index].entry;
    }
  }

  predicate IsOfType(t: SearchType, f: FileType) {
    match f
    case Regular => t == Files
    case Directory => t == Directories
    case SymbolicLink => t == Symlinks
    case Special => false
  }

  /** A search for one type finds exactly the hits of that type among those of a search for any type. */
  lemma OneTypeOfAny(o: Options, disk: Disk, roots: seq<Root>, any: State, one: State, h: Hit, e: Entry)
    requires o.searchType != AnyType && StandsFor(disk, roots, h, e)
    requires Answers(o.(searchType := AnyType), disk, roots, any) && Answers(o, disk, roots, one)
    ensures h in one.results <==> h in any.results && IsOfType(o.searchType, e.fileType)
  {
    hide Exhaustive, Thorough, Sane, WellNamed;
    var o' := o.(searchType := AnyType);
    SameVisited(o, o', disk, roots, one, any);
    if h in one.results {
      FoundFits(o, disk, roots, one.visited, one.results, h, e);
      FittingFound(o', disk, roots, any, h, e);
    }
    if h in any.results && IsOfType(o.searchType, e.fileType) {
      FoundFits(o', disk, roots, any.visited, any.results, h, e);
      FittingFound(o, disk, roots, one, h, e);
    }
  }

  /** So each hit of any type is found by exactly one of the three searches, or is none of the three. */
  lemma TypesPartition(o: Options, disk: Disk, roots: seq<Root>, any: State, files: State, dirs: State, links: State,
                       h: Hit)
    requires Answers(o.(searchType := AnyType), disk, roots, any)
    requires Answers(o.(searchType := Files), disk, roots, files)
    requires Answers(o.(searchType := Directories), disk, roots, dirs)
    requires Answers(o.(searchType := Symlinks), disk, roots, links)
    ensures h in files.results || h in dirs.results || h in links.results ==> h in any.results
    ensures !(h in files.results && h in dirs.results) && !(h in files.results && h in links.results)
    ensures !(h in dirs.results && h in links.results)
    ensures h in any.results && h !in files.results && h !in dirs.results && h !in links.results ==>
      exists e :: StandsFor(disk, roots, h, e) && e.fileType == Special
  {
    hide Answers, StandsFor;
    var e: Entry;
    if h in any.results {
      e := HitStands(o.(searchType := AnyType), disk, roots, any, h);
    } else if h in files.results {
      e := HitStands(o.(searchType := Files), disk, roots, files, h);
    } else if h in dirs.results {
      e := HitStands(o.(searchType := Directories), disk, roots, dirs, h);
    } else if h in links.results {
      e := HitStands(o.(searchType := Symlinks), disk, roots, links, h);
    } else {
      return;
    }
    OneTypeOfAny(o.(searchType := Files), disk, roots, any, files, h, e);
    OneTypeOfAny(o.(searchType := Directories), disk, roots, any, dirs, h, e);
    OneTypeOfAny(o.(searchType := Symlinks), disk, roots, any, links, h, e);
  }

  /** A search for content finds the same whether it is for files or for anything. */
  lemma ContentIsInFiles(o: Options, disk: Disk, roots: seq<Root>, any: State, files: State, h: Hit)
    requires o.searchContent && Answers(o.(searchType := AnyType), disk, roots, any)
    requires Answers(o.(searchType := Files), disk, roots, files)
    ensures h in any.results <==> h in files.results
  {
    hide Exhaustive, Thorough, Sane, WellNamed, StandsFor;
    if h in any.results {
      var e := HitStands(o.(searchType := AnyType), disk, roots, any, h);
      FoundFits(o.(searchType := AnyType), disk, roots, any.visited, any.results, h, e);
      OneTypeOfAny(o.(searchType := Files), disk, roots, any, files, h, e);
    }
    if h in files.results {
      var e := HitStands(o.(searchType := Files), disk, roots, files, h);
      OneTypeOfAny(o.(searchType := Files), disk, roots, any, files, h, e);
    }
  }

  /** How a directory that is no root comes to be searched from the root `r`. */
  ghost predicate LeadsBy(o: Options, disk: Disk, r: Key, y: Key, e: Entry) {
    && y in disk.entries && e in disk.entries[y] && e.fileType == Directory && o.recursive
    && (e.hidden ==> o.hidden) && (e.isSymlink ==> o.followLinks)
    && (o.oneFilesystem ==> disk.device(e.target) in {0, disk.device(r)} || disk.device(r) == 0)
  }

  ghost predicate LedTo(o: Options, disk: Disk, r: Key, x: Key) {
    exists y, e :: Reachable(o, disk, disk.device(r), r, y) && LeadsBy(o, disk, r, y, e) && e.target == x
  }

  lemma LeadsExactly(o: Options, disk: Disk, r: Key, y: Key, x: Key)
    ensures Edge(o, disk, disk.device(r), y, x) <==> exists e :: LeadsBy(o, disk, r, y, e) && e.target == x
  {
    if Edge(o, disk, disk.device(r), y, x) {
      var i :| EntersAt(o, disk, disk.device(r), y, i) && disk.entries[y][i].target == x;
      assert LeadsBy(o, disk, r, y, disk.entries[y][i]);
    }
    if e :| LeadsBy(o, disk, r, y, e) && e.target == x {
      var i :| 0 <= i < |disk.entries[y]| && disk.entries[y][i] == e;
      assert EntersAt(o, disk, disk.device(r), y, i);
    }
  }

  /** In any run, each directory searched is a root or was led to from one that was searched for the same root. */
  lemma SearchedByRules(o: Options, disk: Disk, roots: seq<Root>, visited: set<Key>, results: seq<Hit>, x: Key)
    requires Sane(o, disk, roots, |roots|, visited, results) && x in visited
    ensures exists i :: 0 <= i < |roots| && roots[i].Folder? && (roots[i].key == x || LedTo(o, disk, roots[i].key, x))
  {
    var i :| 0 <= i < |roots| && roots[i].Folder? && Reachable(o, disk, disk.device(roots[i].key), roots[i].key, x);
    var r := roots[i].key;
    var dev := disk.device(r);
    var walk :| Walk(o, disk, dev, walk) && walk[0] == r && walk[|walk| - 1] == x;
    if |walk| > 1 {
      var front := walk[..|walk| - 1];
      var y := front[|front| - 1];
      assert forall j :: 0 <= j < |front| - 1 ==> Edge(o, disk, dev, walk[j], walk[j + 1]);
      assert Walk(o, disk, dev, front) && front[0] == r;
      assert Edge(o, disk, dev, walk[|walk| - 2], walk[|walk| - 2 + 1]);
      LeadsExactly(o, disk, r, y, x);
    }
  }

  /** And a search that nothing disturbs follows every lead. */
  lemma EveryLeadFollowed(o: Options, disk: Disk, roots: seq<Root>, s: State, i: nat, y: Key, e: Entry)
    requires Answers(o, disk, roots, s) && i < |roots| && roots[i].Folder?
    requires Reachable(o, disk, disk.device(roots[i].key), roots[i].key, y) && LeadsBy(o, disk, roots[i].key, y, e)
    ensures y in s.visited && e.target in s.visited
  {
    hide LeadsBy, Thorough, Sane, WellNamed;
    var r := roots[i].key;
    LeadsExactly(o, disk, r, y, e.target);
    var walk :| Walk(o, disk, disk.device(r), walk) && walk[0] == r && walk[|walk| - 1] == y;
    assert Walk(o, disk, disk.device(r), walk + [e.target]);
    assert FromRoot(o, disk, roots, |roots|, y) && FromRoot(o, disk, roots, |roots|, e.target);
  }
}
