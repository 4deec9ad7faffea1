/** The search thread: depth first, over directories that may lead back to each other. */
module Search {
  import opened SearchSpec

  class SearchJob {
    const options: Options
    const disk: Disk
    /** Nobody cancels and no listing or reading fails. */
    const undisturbed: bool
    var visited: set<Key>
    var results: seq<Hit>
    var resultCount: nat
    var cancelled: bool
    /** What had been seen and found when the search first noticed that it was cancelled. */
    ghost var noticed: State

    constructor (options: Options, disk: Disk, undisturbed: bool)
      ensures this.options == options && this.disk == disk && this.undisturbed == undisturbed
      ensures Counted() && visited == {} && results == [] && !cancelled
    {
      this.options, this.disk, this.undisturbed := options, disk, undisturbed;
      visited, results, resultCount, cancelled := {}, [], 0, false;
      noticed := State({}, []);
    }

    /** What holds at every moment of a search. */
    ghost predicate Counted()
      reads this
    {
      && resultCount == |results| && Distinct(results)
      && (forall h :: h in results && h.InDir? ==> h.dir in visited)
      && (undisturbed ==> !cancelled)
      && (cancelled ==> State(visited, results) == noticed)
    }

    method IsCancelled() returns (yes: bool)
      modifies this`cancelled, this`noticed
      ensures yes == cancelled && (old(cancelled) ==> cancelled && noticed == old(noticed))
      ensures !old(cancelled) && cancelled ==> noticed == State(visited, results)
      ensures undisturbed && !old(cancelled) ==> !cancelled
    {
      var stop: bool := *;
      if stop && !undisturbed && !cancelled {
        cancelled := true;
        noticed := State(visited, results);
      }
      return cancelled;
    }

    /** A listing or a reading goes wrong. */
    method GoesWrong() returns (yes: bool)
      ensures undisturbed ==> !yes
    {
      yes := *;
      yes := yes && !undisturbed;
    }

    method QueueResult(h: Hit)
      requires Counted() && !cancelled && h !in results && (h.InDir? ==> h.dir in visited)
      modifies this`results, this`resultCount
      ensures Counted() && results == old(results) + [h]
    {
      results := results + [h];
      resultCount := resultCount + 1;
    }

    method MarkDirectoryVisited(d: Key) returns (first: bool)
      requires !cancelled
      modifies this`visited
      ensures first == (d !in old(visited)) && visited == old(visited) + {d}
    {
      if d in visited {
        return false;
      }
      visited := visited + {d};
      return true;
    }

    method MatchesFile(e: Entry) returns (match_: bool)
      ensures match_ ==> Matches(options, e)
      ensures undisturbed ==> match_ == Matches(options, e)
    {
      match_ := LooksRight(options, e);
      if match_ && options.searchContent {
        if e.fileType != Regular {
          match_ := false;
        } else {
          var wrong := GoesWrong();
          match_ := e.holds && !wrong;
        }
      }
    }

    method ScanDirectory(d: Key, rootDev: nat)
      requires Counted() && WellNamed(disk)
      modifies this
      decreases disk.entries.Keys - visited, 1
      ensures Counted() && (old(cancelled) ==> cancelled && noticed == old(noticed)) && old(visited) <= visited
      ensures old(cancelled) || d in old(visited) ==> visited == old(visited) && results == old(results)
      ensures Scanned(options, disk, rootDev, old(visited), old(results), d, visited, results, undisturbed)
    {
      ghost var v0, r0 := visited, results;
      var stop := IsCancelled();
      if stop {
        return;
      }
      var first := MarkDirectoryVisited(d);
      if !first {
        return;
      }
      BeginDone(options, disk, rootDev, v0, r0, d, undisturbed);
      var wrong := GoesWrong();
      var i := 0;
      while !wrong && d in disk.entries && i < |disk.entries[d]|
        invariant 0 <= i && Counted() && !old(cancelled) && (undisturbed ==> !wrong)
        invariant Done(options, disk, rootDev, v0, r0, d, i, i, visited, results, undisturbed)
        decreases !wrong, if d in disk.entries then |disk.entries[d]| - i else 0
      {
        stop := IsCancelled();
        wrong := GoesWrong();
        wrong := wrong || stop;
        if !wrong {
          ScanEntry(d, rootDev, i, v0, r0);
          i := i + 1;
        }
      }
      AllDone(options, disk, rootDev, v0, r0, d, i, visited, results, undisturbed);
    }

    /** One entry: passed over, or weighed, and then gone into if the rules allow it. */
    method ScanEntry(d: Key, rootDev: nat, i: nat, ghost v0: set<Key>, ghost r0: seq<Hit>)
      requires Counted() && !cancelled && WellNamed(disk) && d in disk.entries && i < |disk.entries[d]|
      requires Done(options, disk, rootDev, v0, r0, d, i, i, visited, results, undisturbed)
      modifies this
      decreases disk.entries.Keys - v0, 0
      ensures Counted()
      ensures Done(options, disk, rootDev, v0, r0, d, i + 1, i + 1, visited, results, undisturbed)
    {
      var e := disk.entries[d][i];
      if !options.hidden && e.hidden {
        EntryWeighed(options, disk, rootDev, v0, r0, d, i, visited, results, undisturbed, false);
        return;
      }
      var match_ := MatchesFile(e);
      EntryWeighed(options, disk, rootDev, v0, r0, d, i, visited, results, undisturbed, match_);
      if match_ {
        QueueResult(InDir(d, e.name));
      }
      if options.recursive && e.fileType == Directory && !(e.isSymlink && !options.followLinks) &&
         (!options.oneFilesystem || rootDev == 0 || disk.device(e.target) == 0 || disk.device(e.target) == rootDev)
      {
        ghost var v1, r1 := visited, results;
        ScanDirectory(e.target, rootDev);
        EntryEntered(options, disk, rootDev, v0, r0, d, i, v1, r1, visited, results, undisturbed);
      }
    }

    method SearchRoot(roots: seq<Root>, i: nat)
      requires Counted() && !cancelled && WellNamed(disk)
      requires i < |roots| && Sane(options, disk, roots, i, visited, results)
      modifies this
      ensures Counted() && Sane(options, disk, roots, i + 1, visited, results)
      ensures undisturbed ==>
        RootDone(options, disk, roots, i, State(old(visited), old(results)), State(visited, results))
    {
      ghost var v0, r0 := visited, results;
      match roots[i]
      case Unreadable =>
        OtherSane(options, disk, roots, i, v0, r0, false);
      case Folder(key) =>
        ScanDirectory(key, disk.device(key));
        FolderSane(options, disk, roots, i, v0, r0, visited, results, undisturbed);
      case Single(e) =>
        var match_ := MatchesFile(e);
        OtherSane(options, disk, roots, i, v0, r0, match_);
        if match_ {
          QueueResult(AtRoot(i));
        }
    }

    /** The search thread. */
    method SearchThread(roots: seq<Root>)
      requires Counted() && WellNamed(disk) && visited == {} && results == []
      modifies this
      ensures Counted() && Sane(options, disk, roots, |roots|, visited, results)
      ensures cancelled ==> results == noticed.results && visited == noticed.visited
      ensures undisturbed ==> Thorough(options, disk, roots, |roots|, visited, results)
      ensures undisturbed ==> Outcome(options, disk, roots, State(visited, results))
      ensures undisturbed && (OneRule(options, disk.device) || |roots| <= 1) ==>
        Exhaustive(options, disk, roots, visited, results)
    {
      ghost var trace := [State({}, [])];
      var i := 0;
      var stop := false;
      while i < |roots| && !stop
        invariant 0 <= i <= |roots| && Counted() && Sane(options, disk, roots, i, visited, results)
        invariant undisturbed ==>
          !stop && Undisturbed(options, disk, roots, i, trace) && trace[i] == State(visited, results)
        decreases |roots| - i, !stop
      {
        stop := IsCancelled();
        if !stop {
          SearchRoot(roots, i);
          trace := trace + [State(visited, results)];
          i := i + 1;
        }
      }
      if undisturbed {
        TraceThorough(options, disk, roots, i, trace);
        assert Outcome(options, disk, roots, State(visited, results));
        if OneRule(options, disk.device) || |roots| <= 1 {
          OutcomeIsExhaustive(options, disk, roots, State(visited, results));
        }
      }
    }
  }

  /**
   * Otherwise several roots can hide directories from each other: the second root lies where
   * the first search has passed, and what only the second would enter is never entered.
   */
  method MissesWithoutDeviceNumbers(o: Options, device: Key -> nat, a: Key, z: Key, b: Key) returns (job: SearchJob)
    requires Fenced(o, device, a, z, b)
    ensures job.options == o && job.undisturbed && job.disk.device == device && b !in job.visited
    ensures !Exhaustive(o, job.disk, [Folder(a), Folder(z)], job.visited, job.results)
  {
    job := new SearchJob(o, FencedDisk(device, a, z, b), true);
    job.SearchThread([Folder(a), Folder(z)]);
    FencedMisses(o, device, a, z, b, State(job.visited, job.results));
  }
}
