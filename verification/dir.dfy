/** The cache of one directory, and the windows that watch it. */
module Dirs {
  import opened Wrappers
  import opened DirViews

  class Directory {
    /** Every DirItem that is allocated, and the next one's number. */
    var items: map<Ref, DirItem>
    var nextId: nat
    var known: map<Name, Ref>
    var newItems: seq<Ref>
    var upItems: seq<Ref>
    var goneItems: seq<Ref>
    var recheckList: seq<Name>
    var users: seq<User>
    var scanning: bool
    var haveScanned: bool
    var needsUpdate: bool
    var notifyActive: bool
    var idleCallback: bool
    var rescanTimeout: bool
    var error: bool
    /** Names rechecked since the last listing, and that listing. */
    ghost var checked: set<Name>
    ghost var listed: set<Name>
    /** Names looked at since the last listing, in a recheck or otherwise. */
    ghost var looked: set<Name>
    /** The last time the directory was to be read, that failed. */
    ghost var unread: bool
    /** The names that a window, known by its token, lets through its filter. */
    const cares: (nat, Name) -> bool
    /** An unlisted name has gone through a recheck twice between two merges. */
    ghost var doubled: bool
    /** Since the last end of a scan, a merge has met a name both gone and new. */
    ghost var recreated: bool

    constructor (cares: (nat, Name) -> bool)
      ensures Valid() && users == [] && needsUpdate && known == map[] && this.cares == cares
      ensures items == map[] && nextId == 0 && newItems == upItems == goneItems == [] && recheckList == []
      ensures !scanning && !haveScanned && !notifyActive && !idleCallback && !rescanTimeout && !error
      ensures !unread && !doubled && !recreated
    {
      this.cares := cares;
      items, nextId, known := map[], 0, map[];
      newItems, upItems, goneItems, recheckList, users := [], [], [], [], [];
      scanning, haveScanned, needsUpdate, notifyActive := false, false, true, false;
      idleCallback, rescanTimeout, error := false, false, false;
      checked, listed, looked, unread, doubled, recreated := {}, {}, {}, false, false, false;
    }

    /** The data: what holds at every moment, even within an operation. */
    ghost predicate Core()
      reads this
    {
      && Sound(items, nextId, known, newItems, upItems, goneItems, doubled)
      && Views(users, known, newItems, goneItems, nextId, doubled, recreated)
      && Queued(items, known, [], recheckList, checked, listed)
    }

    /** Whatever is still to be looked at is flagged or on the list, and on the list if a window cares about it. */
    ghost predicate Fresh()
      reads this
    {
      && AllDue(items, known, recheckList, looked) && NewLooked(newItems, looked)
      && (!unread ==> Cared(users, 0, cares, items, known))
    }

    /** Nothing waits to be told without a timeout that will tell it. */
    predicate Pending()
      reads this
    {
      newItems + upItems + goneItems != [] ==> notifyActive
    }

    /** A scan is on exactly while there is something to recheck and somebody to tell. */
    predicate ScanMatches()
      reads this
    {
      scanning <==> recheckList != [] && users != []
    }

    ghost predicate Valid()
      reads this
    {
      && Core() && Fresh() && Pending()
      && ScanMatches() && idleCallback == scanning
      && InStep(users, scanning)
      && (needsUpdate ==> rescanTimeout || scanning || users == [])
    }

    /** Tells every user one thing. */
    method Broadcast(m: Message)
      modifies this`users
      ensures Heard(old(users), users, m)
    {
      var i := 0;
      while i < |users|
        invariant 0 <= i <= |users| == |old(users)|
        invariant forall j :: 0 <= j < i ==>
          users[j].token == old(users)[j].token && users[j].log == old(users)[j].log + [m]
        invariant forall j :: i <= j < |users| ==> users[j] == old(users)[j]
      {
        users := users[i := users[i].(log := users[i].log + [m])];
        i := i + 1;
      }
    }

    /** A window told that the scan has ended shows exactly the directory. */
    method DirSetScanning(on: bool, ghost start: seq<User>, ghost was: bool)
      requires Core() && Follow(start, was, users, scanning)
      modifies this`scanning, this`users, this`recreated
      ensures Core() && scanning == on && Follow(start, was, users, scanning)
      ensures old(scanning) == on ==> users == old(users)
      ensures recreated == (old(recreated) && (on || !old(scanning)))
      ensures old(scanning) != on ==>
        InStep(users, scanning) && Heard(old(users), users, if on then StartScan else EndScan(Table(known)))
      ensures old(scanning) && !on ==> AllExact(users, known) && !recreated
      ensures |users| == |old(users)| && forall i :: 0 <= i < |users| ==> View(users[i].log) == View(old(users)[i].log)
    {
      if on == scanning {
        return;
      }
      var m := if on then StartScan else EndScan(Table(known));
      scanning := on;
      Broadcast(m);
      recreated := recreated && on;
      forall i | 0 <= i < |users|
        ensures ViewOk(users[i].log, known, newItems, goneItems, nextId, doubled, recreated)
        ensures ShownScanning(users[i].log) == on && View(users[i].log) == View(old(users)[i].log)
        ensures !on ==> ViewByName(users[i].log) == Table(known)
      {
        assert ViewOk(old(users)[i].log, known, newItems, goneItems, nextId, doubled, old(recreated));
        Appended(old(users)[i].log, m);
        EndShown(old(users)[i].log, known, newItems, goneItems, nextId, doubled, old(recreated));
      }
    }

    method DirErrorChanged(ghost start: seq<User>, ghost was: bool)
      requires Core() && Follow(start, was, users, scanning)
      modifies this`users
      ensures Core() && Follow(start, was, users, scanning) && Heard(old(users), users, ErrorChanged)
      ensures forall i :: 0 <= i < |users| ==>
        View(users[i].log) == View(old(users)[i].log) && ViewByName(users[i].log) == ViewByName(old(users)[i].log)
    {
      Broadcast(ErrorChanged);
      forall i | 0 <= i < |users|
        ensures ViewOk(users[i].log, known, newItems, goneItems, nextId, doubled, recreated)
        ensures ShownScanning(users[i].log) == ShownScanning(old(users)[i].log)
        ensures View(users[i].log) == View(old(users)[i].log)
        ensures ViewByName(users[i].log) == ViewByName(old(users)[i].log)
      {
        Appended(old(users)[i].log, ErrorChanged);
      }
    }

    /** Tells every user what is new, changed and gone. */
    method NotifyMerge()
      modifies this`users
      ensures Told(old(users), users, newItems, upItems, goneItems)
    {
      var i := 0;
      while i < |users|
        invariant 0 <= i <= |users| == |old(users)|
        invariant forall j :: 0 <= j < i ==>
          users[j].token == old(users)[j].token &&
          users[j].log == MergeLog(old(users)[j].log, newItems, upItems, goneItems)
        invariant forall j :: i <= j < |users| ==> users[j] == old(users)[j]
      {
        var log := users[i].log;
        if newItems != [] {
          log := log + [Add(newItems)];
        }
        if upItems != [] {
          log := log + [Update(upItems)];
        }
        if goneItems != [] {
          log := log + [Remove(goneItems)];
        }
        users := users[i := users[i].(log := log)];
        i := i + 1;
      }
    }

    method TellMerge(ghost start: seq<User>, ghost was: bool)
      requires Follow(start, was, users, scanning)
      requires Sound(items, nextId, known, newItems, upItems, goneItems, doubled)
      requires Views(users, known, newItems, goneItems, nextId, doubled, recreated)
      modifies this`users
      ensures Views(users, Merged(known, newItems), [], [], nextId, doubled,
                    recreated || NamesOf(newItems) * NamesOf(goneItems) != {})
      ensures !doubled ==> Agree(users, Merged(known, newItems))
      ensures Follow(start, was, users, scanning) && Told(old(users), users, newItems, upItems, goneItems)
    {
      NotifyMerge();
      MergeViews(old(users), users, known, newItems, upItems, goneItems, items, nextId, doubled, recreated, scanning);
      FollowOn(start, was, old(users), scanning, users, scanning);
    }

    /** The pending changes are told, and take effect; afterwards every view is the table. */
    method DirMergeNew(ghost start: seq<User>, ghost was: bool)
      requires Follow(start, was, users, scanning)
      requires Sound(items, nextId, known, newItems, upItems, goneItems, doubled)
      requires Views(users, known, newItems, goneItems, nextId, doubled, recreated)
      requires Queued(items, known, newItems, recheckList, checked, listed)
      requires DistinctNames(newItems) || forall r :: r in newItems ==> !items[r].flagged
      modifies this`users, this`known, this`items, this`newItems, this`upItems, this`goneItems, this`recreated
      ensures Core() && newItems == upItems == goneItems == []
      ensures known == Merged(old(known), old(newItems)) && items == old(items) - Refs(old(goneItems))
      ensures recreated == (old(recreated) || NamesOf(old(newItems)) * NamesOf(old(goneItems)) != {})
      ensures Follow(start, was, users, scanning)
      ensures Told(old(users), users, old(newItems), old(upItems), old(goneItems)) && |users| == |old(users)|
      ensures !doubled ==> Agree(users, known)
    {
      hide Sound, Views, Queued, Follow;
      TellMerge(start, was);
      ApplyMerge();
    }

    method ApplyMerge()
      requires Sound(items, nextId, known, newItems, upItems, goneItems, doubled)
      requires Queued(items, known, newItems, recheckList, checked, listed)
      requires DistinctNames(newItems) || forall r :: r in newItems ==> !items[r].flagged
      modifies this`known, this`items, this`newItems, this`upItems, this`goneItems, this`recreated
      ensures newItems == upItems == goneItems == []
      ensures known == Merged(old(known), old(newItems)) && items == old(items) - Refs(old(goneItems))
      ensures recreated == (old(recreated) || NamesOf(old(newItems)) * NamesOf(old(goneItems)) != {})
      ensures Sound(items, nextId, known, [], [], [], doubled) && Queued(items, known, [], recheckList, checked, listed)
    {
      hide Sound, Queued;
      MergedSound(items, nextId, known, newItems, upItems, goneItems, doubled, recheckList, checked, listed);
      recreated := recreated || NamesOf(newItems) * NamesOf(goneItems) != {};
      ListNew();
      items := items - Refs(goneItems);
      goneItems, newItems, upItems := [], [], [];
    }

    method ListNew()
      modifies this`known
      ensures known == Merged(old(known), newItems)
    {
      var i := 0;
      while i < |newItems|
        invariant 0 <= i <= |newItems|
        invariant known == Merged(old(known), newItems[..i])
      {
        assert newItems[..i + 1][..i] == newItems[..i];
        known := known[newItems[i].name := newItems[i]];
        i := i + 1;
      }
      assert newItems[..i] == newItems;
    }

    /** What looking at one name does; all the rest of the cache stays as it is. */
    twostate predicate Inserted(leaf: Name, found: bool, info: int, new item: Option<Ref>)
      reads this
    {
      var r := if leaf in old(known) then old(known)[leaf] else Ref(old(nextId), leaf);
      var gone := leaf in old(known) && !found && !Ignored(leaf);
      var added := leaf !in old(known) && found && !Ignored(leaf);
      && item == (if found && !Ignored(leaf) then Some(r) else None)
      && known == (if gone then old(known) - {leaf} else old(known))
      && goneItems == (if gone then old(goneItems) + [r] else old(goneItems))
      && newItems == (if added then old(newItems) + [r] else old(newItems))
      && nextId == (if added then old(nextId) + 1 else old(nextId))
      && items == (if gone || item.Some? then old(items)[r := DirItem(false, Some(info))] else old(items))
      && upItems == (if item.Some? && !(r in old(items) && old(items)[r] == DirItem(false, Some(info)))
                     then old(upItems) + [r] else old(upItems))
      && doubled == (old(doubled) || (added && leaf in NamesOf(old(newItems))))
    }

    method RecheckKnown(leaf: Name, found: bool, info: int) returns (item: Option<Ref>)
      requires Core() && Pending() && leaf in known
      modifies this`items, this`known, this`upItems, this`goneItems, this`notifyActive
      ensures Core() && Pending()
      ensures item == if found then Some(old(known)[leaf]) else None
      ensures items == old(items)[old(known)[leaf] := DirItem(false, Some(info))] && old(known)[leaf] in old(items)
      ensures known == if found then old(known) else old(known) - {leaf}
      ensures goneItems == if found then old(goneItems) else old(goneItems) + [old(known)[leaf]]
      ensures upItems == if found && old(items[known[leaf]]) != DirItem(false, Some(info))
                         then old(upItems) + [old(known)[leaf]] else old(upItems)
    {
      hide Views, Queued;
      var r := known[leaf];
      assert r in items;
      hide Sound;
      var before := items[r];
      LookedAt(items, nextId, known, newItems, upItems, goneItems, doubled,
               recheckList, checked, listed, r, Some(info));
      items := items[r := DirItem(false, Some(info))];
      if !found {
        NameGone(users, items, nextId, known, newItems, upItems, goneItems, doubled, recreated,
                 recheckList, checked, listed, leaf);
        known := known - {leaf};
        goneItems := goneItems + [r];
        notifyActive := true;
        return None;
      }
      if before.info.Some? && before == items[r] {
        return Some(r);
      }
      upItems := upItems + [r];
      notifyActive := true;
      return Some(r);
    }

    method AddUnlisted(leaf: Name, info: int) returns (item: Ref)
      requires Core() && Pending() && leaf !in known
      modifies this`items, this`nextId, this`newItems, this`upItems, this`notifyActive, this`doubled
      ensures Core() && Pending()
      ensures item == Ref(old(nextId), leaf) && nextId == old(nextId) + 1 && item !in old(items)
      ensures items == old(items)[item := DirItem(false, Some(info))]
      ensures newItems == old(newItems) + [item] && upItems == old(upItems) + [item]
      ensures doubled == (old(doubled) || leaf in NamesOf(old(newItems)))
    {
      hide Views, Queued;
      var r := Ref(nextId, leaf);
      var it := DirItem(false, Some(info));
      assert r !in items;
      hide Sound;
      NameNew(users, items, nextId, known, newItems, upItems, goneItems, doubled, recreated, r, it);
      NewQueued(items, nextId, known, recheckList, checked, listed, r, it);
      doubled := doubled || leaf in NamesOf(newItems);
      items := items[r := it];
      nextId := nextId + 1;
      newItems := newItems + [r];
      upItems := upItems + [r];
      notifyActive := true;
      return r;
    }

    /**
     * Looks at one name on the disk and adds, updates or removes its item. `found` and
     * `info` stand for what lstat says.
     */
    method InsertItem(leaf: Name, found: bool, info: int) returns (item: Option<Ref>)
      requires Core() && Pending()
      requires AllDue(items, known, recheckList, looked + {leaf}) && NewLooked(newItems, looked)
      requires !unread ==> Cared(users, 0, cares, items, known)
      modifies this`items, this`nextId, this`known, this`newItems, this`upItems, this`goneItems,
        this`notifyActive, this`doubled, this`looked
      ensures Core() && Fresh() && Pending() && Inserted(leaf, found, info, item) && looked == old(looked) + {leaf}
    {
      hide Sound, Views, Queued, AllDue, Cared;
      LookFresh(items, nextId, known, newItems, upItems, goneItems, doubled, recheckList, looked + {leaf},
                leaf, Some(info), users, cares, unread);
      looked := looked + {leaf};
      if Ignored(leaf) {
        return None;
      }
      if leaf in known {
        item := RecheckKnown(leaf, found, info);
      } else if found {
        var r := AddUnlisted(leaf, info);
        item := Some(r);
      } else {
        item := None;
      }
    }

    method NotifyDeleted(deleted: seq<Ref>, kept: map<Name, Ref>, ghost start: seq<User>, ghost was: bool)
      requires Follow(start, was, users, scanning)
      requires Views(users, known, [], [], nextId, doubled, recreated)
      requires forall n :: n in known ==> known[n].name == n
      requires forall n :: n in kept ==> n in known && kept[n] == known[n] && known[n] !in deleted
      requires forall r :: r in deleted <==> IsKnown(known, r) && r.name !in kept
      modifies this`users
      ensures Views(users, kept, [], [], nextId, doubled, recreated)
      ensures Follow(start, was, users, scanning) && Longer(old(users), users)
      ensures if deleted == [] then users == old(users) else Heard(old(users), users, Remove(deleted))
    {
      if deleted == [] {
        forall n | n in known
          ensures n in kept
        {
          assert IsKnown(known, known[n]);
        }
        assert kept == known;
        return;
      }
      Broadcast(Remove(deleted));
      forall i | 0 <= i < |users|
        ensures ViewOk(users[i].log, kept, [], [], nextId, doubled, recreated)
        ensures ShownScanning(users[i].log) == ShownScanning(old(users)[i].log)
      {
        Appended(old(users)[i].log, Remove(deleted));
        MissingRemoved(old(users)[i].log, known, nextId, doubled, recreated, kept, deleted);
      }
    }

    /** Drops every item whose name was not in the listing, and says so. */
    method RemoveMissing(keep: seq<Name>, ghost start: seq<User>, ghost was: bool)
      requires Follow(start, was, users, scanning)
      requires Core() && newItems == upItems == goneItems == []
      modifies this`known, this`items, this`users
      ensures Core() && newItems == upItems == goneItems == []
      ensures known == Kept(old(known), keep)
      ensures Follow(start, was, users, scanning) && Longer(old(users), users)
      ensures Dropping(old(users), users, Dropped(old(known), keep))
    {
      hide Dropping;
      var left := Dropped(known, keep);
      var kept := Kept(known, keep);
      var deleted := Listing(left);
      NotifyDeleted(deleted, kept, start, was);
      AsDropped(old(users), users, left, deleted);
      KeptSound(items, nextId, known, kept, left, doubled, recheckList, checked, listed);
      known, items := kept, items - left;
    }

    /** One listed name: a known item is flagged, a name not known gets a blank flagged item. */
    method MarkOne(name: Name, ghost done: seq<Name>)
      requires Sound(items, nextId, known, newItems, [], [], doubled)
      requires Views(users, known, newItems, [], nextId, doubled, recreated)
      requires Queued(items, known, newItems, [], {}, listed) && name in listed
      requires Marked(items, known, newItems, done) && name !in done
      modifies this`items, this`nextId, this`newItems
      ensures Sound(items, nextId, known, newItems, [], [], doubled)
      ensures Views(users, known, newItems, [], nextId, doubled, recreated)
      ensures Queued(items, known, newItems, [], {}, listed)
      ensures Marked(items, known, newItems, done + [name])
    {
      if name in known {
        var r := known[name];
        var item := DirItem(true, items[r].info);
        NameListed(items, nextId, known, newItems, doubled, listed, r, item);
        MarkedKnown(items, known, newItems, done, name, item);
        items := items[r := item];
        return;
      }
      var r := Ref(nextId, name);
      NotYetNew(newItems, done, name);
      NameNew(users, items, nextId, known, newItems, [], [], doubled, recreated, r, DirItem(true, None));
      NewListed(items, nextId, known, newItems, listed, r, DirItem(true, None));
      MarkedNew(items, known, newItems, done, r, DirItem(true, None));
      items, newItems, nextId := items[r := DirItem(true, None)], newItems + [r], nextId + 1;
    }

    /** Marks every listed name as needing a recheck; a name not known gets a blank item. */
    method MarkListed(names: seq<Name>)
      requires Core() && newItems == upItems == goneItems == [] && Distinct(names)
      requires recheckList == [] && forall n :: n in known ==> n in names
      modifies this`items, this`nextId, this`newItems, this`checked, this`listed, this`looked
      ensures Sound(items, nextId, known, newItems, [], [], doubled)
      ensures Views(users, known, newItems, [], nextId, doubled, recreated)
      ensures Queued(items, known, newItems, [], {}, listed)
      ensures checked == looked == {} && forall n :: n in listed <==> n in names
      ensures Marked(items, known, newItems, names)
    {
      checked, listed, looked := {}, set n | n in names, {};
      RelistQueued(items, known, names, listed);
      var i := 0;
      assert names[..0] == [];
      while i < |names|
        invariant 0 <= i <= |names|
        invariant Sound(items, nextId, known, newItems, [], [], doubled)
        invariant Views(users, known, newItems, [], nextId, doubled, recreated)
        invariant Queued(items, known, newItems, [], {}, listed)
        invariant Marked(items, known, newItems, names[..i])
        modifies this`items, this`nextId, this`newItems
      {
        assert names[..i + 1] == names[..i] + [names[i]];
        MarkOne(names[i], names[..i]);
        i := i + 1;
      }
      assert names[..i] == names;
    }

    /** A window asks for every flagged item that it shows. */
    method QueueInteresting(i: nat)
      requires Core() && i < |users|
      modifies this`items, this`recheckList
      ensures Core() && OnlyUnflagged(old(items), items) && CaresFor(cares, users[i].token, items, known)
      ensures (forall n :: n in old(recheckList) ==> n in recheckList) && (recheckList == [] ==> old(recheckList) == [])
      ensures forall n :: n in recheckList ==> n in old(recheckList) || cares(users[i].token, n)
      ensures old(AllDue(items, known, recheckList, looked)) ==> AllDue(items, known, recheckList, looked)
    {
      hide Sound, Views, Queued, AllDue;
      ghost var due := AllDue(items, known, recheckList, looked);
      var left := set r | r in items && r in View(users[i].log) && cares(users[i].token, r.name) && items[r].flagged;
      while left != {}
        invariant Core() && OnlyUnflagged(old(items), items)
        invariant forall n :: n in old(recheckList) ==> n in recheckList
        invariant recheckList == [] ==> old(recheckList) == []
        invariant due ==> AllDue(items, known, recheckList, looked)
        invariant forall r :: r in left ==> r in items && items[r].flagged && cares(users[i].token, r.name)
        invariant forall n :: n in recheckList ==> n in old(recheckList) || cares(users[i].token, n)
        invariant NoneUnasked(items, users[i], cares, left)
      {
        var r :| r in left;
        QueuedDue(items, nextId, known, newItems, upItems, goneItems, doubled, recheckList, looked, r);
        DirQueueRecheck(r);
        left := left - {r};
      }
      SeenCared(users, i, items, nextId, known, newItems, upItems, goneItems, doubled, recreated, cares);
    }

    method DirQueueRecheck(r: Ref)
      requires Core() && r in items
      modifies this`items, this`recheckList
      ensures Core()
      ensures recheckList == if old(items[r].flagged) then [r.name] + old(recheckList) else old(recheckList)
      ensures items == old(items)[r := DirItem(false, old(items[r].info))]
    {
      if !items[r].flagged {
        return;
      }
      ItemQueued(items, nextId, known, newItems, upItems, goneItems, doubled, recheckList, checked, listed, r);
      recheckList := [r.name] + recheckList;
      items := items[r := items[r].(flagged := false)];
    }

    /** Matches and marks the listing, and asks everybody what to recheck. */
    method TakeListing(names: seq<Name>, ghost start: seq<User>, ghost was: bool)
      requires Core() && newItems == upItems == goneItems == [] && Distinct(names)
      requires Follow(start, was, users, scanning)
      modifies this`items, this`nextId, this`known, this`newItems, this`upItems, this`goneItems, this`users,
        this`recheckList, this`recreated, this`checked, this`listed, this`looked
      ensures Core() && newItems == upItems == goneItems == []
      ensures checked == looked == {} && Follow(start, was, users, scanning) && Longer(old(users), users)
      ensures listed == (set n | n in names) == known.Keys && AllDue(items, known, recheckList, {})
      ensures Cared(users, 0, cares, items, known) && Wanted(users, cares, recheckList)
    {
      hide Sound, Views, Queued, Follow, Longer, Told, Marked, AllDue, Dropping;
      RemoveMissing(names, start, was);
      ghost var removed := users;
      BlankQueued(items, known, recheckList, checked, listed);
      recheckList := [];
      MarkListed(names);
      ghost var new_ := newItems;
      MergeListed(names, start, was);
      ToldLonger(old(users), removed, users, new_, [], []);
      AskAll();
    }

    /** The names new in the listing are told, and the table is the listing. */
    method MergeListed(names: seq<Name>, ghost start: seq<User>, ghost was: bool)
      requires Sound(items, nextId, known, newItems, [], [], doubled)
      requires upItems == goneItems == [] && recheckList == []
      requires Views(users, known, newItems, [], nextId, doubled, recreated)
      requires Queued(items, known, newItems, [], checked, listed)
      requires Marked(items, known, newItems, names) && forall n :: n in known ==> n in names
      requires Follow(start, was, users, scanning)
      modifies this`users, this`known, this`items, this`newItems, this`upItems, this`goneItems, this`recreated
      ensures Core() && newItems == upItems == goneItems == [] && Follow(start, was, users, scanning)
      ensures known.Keys == (set n | n in names) && AllDue(items, known, recheckList, {})
      ensures Told(old(users), users, old(newItems), [], [])
    {
      hide Sound, Views, Queued, Follow, Told, Marked, AllDue;
      AllListed(items, known, newItems, names);
      MarkedNames(items, known, newItems, names);
      DirMergeNew(start, was);
      assert Refs([]) == {} && items == old(items);
    }

    method AskAll()
      requires Core() && AllDue(items, known, recheckList, looked) && recheckList == []
      modifies this`items, this`recheckList
      ensures Core() && AllDue(items, known, recheckList, looked) && Cared(users, 0, cares, items, known)
      ensures Wanted(users, cares, recheckList)
    {
      hide Sound, Views, Queued, AllDue, CaresFor;
      var i := 0;
      while i < |users|
        invariant 0 <= i <= |users| && Core() && AllDue(items, known, recheckList, looked)
        invariant Cared(users[..i], 0, cares, items, known) && Wanted(users, cares, recheckList)
      {
        ghost var before := items;
        QueueInteresting(i);
        UnflaggedCared(users[..i], 0, cares, before, items, known);
        i := i + 1;
      }
      assert users[..i] == users;
    }

    /** A scan begins: what was pending is told first, then the listing is taken. */
    method BeginScan(names: seq<Name>, ghost start: seq<User>, ghost was: bool)
      requires Core() && !scanning && Distinct(names) && Follow(start, was, users, scanning)
      modifies this`items, this`nextId, this`known, this`newItems, this`upItems, this`goneItems, this`users,
        this`recheckList, this`recreated, this`checked, this`listed, this`looked, this`scanning
      ensures Core() && newItems == upItems == goneItems == [] && scanning
      ensures Follow(start, was, users, scanning)
      ensures Began(old(users), users, [], old(newItems), old(upItems), old(goneItems))
      ensures checked == looked == {} && listed == (set n | n in names) == known.Keys
      ensures AllDue(items, known, recheckList, {}) && Cared(users, 0, cares, items, known)
      ensures Wanted(users, cares, recheckList)
    {
      hide Sound, Views, Queued, Follow, Longer, Told, Heard, AllDue, Cared, Wanted;
      DirSetScanning(true, start, was);
      ghost var heard := users;
      NothingBlank(items, nextId, known, newItems, upItems, goneItems, doubled, recheckList, checked, listed);
      DirMergeNew(start, was);
      ghost var told := users;
      TakeListing(names, start, was);
      BeganAt(old(users), heard, told, users, old(newItems), old(upItems), old(goneItems));
    }

    /** A scan ends: everything pending is told. */
    method FinishScan(ghost start: seq<User>, ghost was: bool)
      requires Core() && Fresh() && scanning && Follow(start, was, users, scanning)
      modifies this`items, this`known, this`newItems, this`upItems, this`goneItems, this`users,
        this`recreated, this`scanning, this`haveScanned, this`idleCallback
      ensures Core() && Fresh() && newItems == upItems == goneItems == [] && !scanning && !idleCallback && haveScanned
      ensures Follow(start, was, users, scanning)
      ensures AllExact(users, known) && !recreated && (!doubled ==> Agree(users, known))
      ensures Longer(old(users), users) && known == Merged(old(known), old(newItems))
      ensures items == old(items) - Refs(old(goneItems))
    {
      hide Sound, Views, Queued, Follow, Told, Heard, AllExact, AllDue, NewLooked, Cared, Merged, Longer;
      ghost var before := users;
      MergeFreshly(start, was);
      ghost var told := users;
      haveScanned := true;
      ScanFreshly(false, start, was);
      LongerOn(before, told, users);
      idleCallback := false;
    }

    /** A merge between two operations. */
    method MergeFreshly(ghost start: seq<User>, ghost was: bool)
      requires Core() && Fresh() && Follow(start, was, users, scanning)
      modifies this`users, this`known, this`items, this`newItems, this`upItems, this`goneItems, this`recreated
      ensures Core() && Fresh() && newItems == upItems == goneItems == [] && Follow(start, was, users, scanning)
      ensures known == Merged(old(known), old(newItems)) && items == old(items) - Refs(old(goneItems))
      ensures recreated == (old(recreated) || NamesOf(old(newItems)) * NamesOf(old(goneItems)) != {})
      ensures Told(old(users), users, old(newItems), old(upItems), old(goneItems)) && |users| == |old(users)|
      ensures Longer(old(users), users) && (!doubled ==> Agree(users, known))
    {
      hide Sound, Views, Queued, Follow, Told, AllDue, Cared, Merged, Longer, Agree;
      ghost var before, was_, is_, new_, up, gone := users, known, items, newItems, upItems, goneItems;
      NothingBlank(items, nextId, known, newItems, upItems, goneItems, doubled, recheckList, checked, listed);
      DirMergeNew(start, was);
      MergeFresh(is_, nextId, was_, new_, up, gone, doubled, recheckList, looked, before, users, cares, unread);
      LongerSelf(before);
      ToldLonger(before, before, users, new_, up, gone);
    }

    /** What is listed is what the disk has said, and the table has it all but for a name that has been rechecked. */
    ghost predicate Lists(ents: seq<Name>)
      reads this
    {
      && listed == (set n | n in ents && n != "." && n != "..") && !error && !unread
      && known.Keys <= listed && listed - known.Keys <= checked && |checked| <= 1
      && newItems == upItems == goneItems == [] && Wanted(users, cares, recheckList)
    }

    /** What a rescan has come to for those who were told `lead` before it. */
    twostate predicate Rescanned(read: Reading)
      reads this
    {
      var lead := Lead(old(error));
      match read
      case CannotStat =>
        !error && unread && NotRead() && GoneOn(old(users), users, lead)
      case CannotOpen =>
        error && unread && NotRead() && GoneOn(old(users), users, lead + [ErrorChanged])
      case Entries(ents) =>
        Lists(ents) && Began(old(users), users, lead, old(newItems), old(upItems), old(goneItems))
    }

    twostate predicate NotRead()
      reads this
    {
      && unchanged(this`items, this`nextId, this`known, this`newItems, this`upItems, this`goneItems, this`recheckList)
      && unchanged(this`scanning, this`haveScanned, this`checked, this`listed, this`looked, this`doubled)
    }

    /** Looks at the whole directory again. */
    method DirRescan(ghost start: seq<User>, ghost was: bool) returns (ghost read: Reading)
      requires Core() && Pending() && !scanning && !idleCallback && Follow(start, was, users, scanning)
      requires AllDue(items, known, recheckList, looked) && NewLooked(newItems, looked)
      modifies this
      decreases 0, 5
      ensures Core() && Fresh() && Pending() && !needsUpdate
      ensures idleCallback == scanning && (scanning ==> recheckList != [] && users != [])
      ensures old(ScanMatches()) || read.Entries? ==> ScanMatches()
      ensures Follow(start, was, users, scanning)
      ensures rescanTimeout == old(rescanTimeout) && Rescanned(read)
    {
      hide Sound, Views, Queued, Follow, Heard, AllDue, NewLooked, Cared, Began, GoneOn, Longer, Lead, Distinct, Wanted;
      needsUpdate := false;
      ClearError(start, was);
      ghost var told := users;
      TellsLead(old(users), told, old(error));
      var reading := ReadDirectory();
      read := reading;
      match reading
      case CannotStat =>
        unread := true;
        return;
      case CannotOpen =>
        SetError(start, was);
        TellsOn(old(users), told, users, old(error));
      case Entries(ents) =>
        var names := SkipDots(ents);
        Rescan(names, start, was);
        BeganLater(old(users), told, users, old(error), old(newItems), old(upItems), old(goneItems));
    }

    method ClearError(ghost start: seq<User>, ghost was: bool)
      requires Core() && Follow(start, was, users, scanning)
      modifies this`error, this`users
      ensures Core() && Follow(start, was, users, scanning) && !error
      ensures if old(error) then Heard(old(users), users, ErrorChanged) else users == old(users)
    {
      if error {
        error := false;
        DirErrorChanged(start, was);
      }
    }

    method SetError(ghost start: seq<User>, ghost was: bool)
      requires Core() && Follow(start, was, users, scanning)
      modifies this`error, this`users, this`unread
      ensures Core() && Follow(start, was, users, scanning) && error && unread
      ensures Heard(old(users), users, ErrorChanged)
    {
      unread := true;
      error := true;
      DirErrorChanged(start, was);
    }

    method Rescan(names: seq<Name>, ghost start: seq<User>, ghost was: bool)
      requires Core() && !needsUpdate && !scanning && !idleCallback && Distinct(names)
      requires Follow(start, was, users, scanning)
      modifies this
      decreases 0, 4
      ensures Core() && Fresh() && Pending() && !needsUpdate && ScanMatches() && idleCallback == scanning
      ensures Follow(start, was, users, scanning) && !unread && error == old(error)
      ensures Began(old(users), users, [], old(newItems), old(upItems), old(goneItems))
      ensures listed == (set n | n in names)
      ensures known.Keys <= listed && listed - known.Keys <= checked && |checked| <= 1
      ensures newItems == upItems == goneItems == [] && Wanted(users, cares, recheckList)
      ensures rescanTimeout == old(rescanTimeout)
    {
      hide Sound, Views, Queued, Follow, Told, AllDue, Cared, Began, Longer, Agree, Merged, Wanted;
      ListAndStart(names, start, was);
      ghost var went, s := users, scanning;
      MergedNone(known, newItems);
      MergeFreshly(start, was);
      WantedOn(start, was, went, s, users, scanning, cares, recheckList, recheckList);
      LongerSelf(went);
      BeganOn(old(users), went, went, users, [], old(newItems), old(upItems), old(goneItems));
    }

    method ListAndStart(names: seq<Name>, ghost start: seq<User>, ghost was: bool)
      requires Core() && !needsUpdate && !scanning && !idleCallback && Distinct(names)
      requires Follow(start, was, users, scanning)
      modifies this
      decreases 0, 3
      ensures Core() && Fresh() && Pending() && !needsUpdate && ScanMatches() && idleCallback == scanning
      ensures Follow(start, was, users, scanning) && !unread && error == old(error) && newItems == []
      ensures Began(old(users), users, [], old(newItems), old(upItems), old(goneItems))
      ensures listed == (set n | n in names)
      ensures known.Keys <= listed && listed - known.Keys <= checked && |checked| <= 1
      ensures Wanted(users, cares, recheckList) && rescanTimeout == old(rescanTimeout)
    {
      hide Sound, Views, Queued, Follow, Told, AllDue, Cared, Began, Longer, Agree, Merged, Wanted;
      BeginScan(names, start, was);
      HeadListed(items, known, recheckList, checked, listed);
      unread := false;
      ghost var began, s, asked := users, scanning, recheckList;
      LongerSelf(began);
      SetIdleCallback(start, was);
      WantedOn(start, was, began, s, users, scanning, cares, asked, recheckList);
      BeganOn(old(users), began, began, users, [], old(newItems), old(upItems), old(goneItems));
    }

    method RecheckFirst() returns (ghost found: bool, ghost info: int, ghost item: Option<Ref>)
      requires Core() && Fresh() && Pending() && recheckList != []
      modifies this`recheckList, this`checked, this`items, this`nextId, this`known, this`newItems, this`upItems,
        this`goneItems, this`notifyActive, this`doubled, this`looked
      ensures Core() && Fresh() && Pending() && looked == old(looked) + {old(recheckList)[0]}
      ensures recheckList == old(recheckList)[1..] && checked == old(checked) + {old(recheckList)[0]}
      ensures Inserted(old(recheckList)[0], found, info, item)
    {
      hide Sound, Views, Queued, Cared;
      var leaf := recheckList[0];
      Popped(items, known, recheckList, checked, listed);
      recheckList := recheckList[1..];
      checked := checked + {leaf};
      var there: bool, what: int := *, *;
      var it := InsertItem(leaf, there, what);
      return there, what, it;
    }

    /** The first name has been taken off the list and looked at, and nothing else of the scan has changed. */
    twostate predicate FirstLooked()
      requires old(recheckList) != []
      reads this
    {
      var leaf := old(recheckList)[0];
      && recheckList == old(recheckList)[1..] && listed == old(listed) && checked == old(checked) + {leaf}
      && (old(newItems) == [] && leaf in old(known) ==>
           newItems == [] && (known == old(known) || known == old(known) - {leaf}))
    }

    /** One name is looked at; with the last one the scan ends, unless another is owed. */
    twostate predicate Stepped(new read: Option<Reading>)
      requires old(recheckList) != []
      reads this
    {
      && (read.Some? <==> |old(recheckList)| == 1 && old(needsUpdate))
      && (|old(recheckList)| > 1 ==> scanning && users == old(users) && needsUpdate == old(needsUpdate))
      && (|old(recheckList)| == 1 ==> !needsUpdate)
      && (|old(recheckList)| == 1 && !old(needsUpdate) ==> !scanning && haveScanned && AllExact(users, known))
      && (|old(recheckList)| > 1 || !old(needsUpdate) ==> FirstLooked() && unread == old(unread) && error == old(error))
      && (read.Some? ==> AnewFrom(old(users), read.value))
    }

    /** What an owed rescan has come to for those who were told of the scan before. */
    ghost predicate AnewFrom(before: seq<User>, read: Reading)
      reads this
    {
      match read
      case CannotStat => unread && !error
      case CannotOpen => unread && error
      case Entries(ents) => Lists(ents) && Restarted(before, users)
    }

    /** One step of a scan, from the idle loop or straight from `SetIdleCallback`. */
    method RecheckCallback(ghost start: seq<User>, ghost was: bool) returns (ghost read: Option<Reading>)
      requires Core() && Fresh() && Pending() && scanning && idleCallback && recheckList != [] && users != []
      requires Follow(start, was, users, scanning)
      modifies this
      decreases if needsUpdate then 1 else 0, 1
      ensures Core() && Fresh() && Pending() && ScanMatches() && idleCallback == scanning
      ensures Follow(start, was, users, scanning) && Stepped(read) && (read == None ==> Longer(old(users), users))
      ensures needsUpdate ==> scanning && old(needsUpdate)
      ensures rescanTimeout == old(rescanTimeout)
    {
      hide Sound, Views, Queued, Follow, AllExact, AllDue, NewLooked, Cared, Longer, Restarted;
      read := None;
      ghost var before := users;
      LongerSelf(before);
      ghost var found, info, item := RecheckFirst();
      if recheckList != [] {
        return;
      }
      MergedNone(known, newItems);
      read := EndOfList(start, was);
    }

    /** The list is empty: the scan ends, and a rescan that is owed is begun. */
    method EndOfList(ghost start: seq<User>, ghost was: bool) returns (ghost read: Option<Reading>)
      requires Core() && Fresh() && Pending() && scanning && idleCallback && recheckList == []
      requires Follow(start, was, users, scanning)
      modifies this
      decreases if needsUpdate then 1 else 0, 0
      ensures Core() && Fresh() && Pending() && ScanMatches() && idleCallback == scanning && !needsUpdate
      ensures Follow(start, was, users, scanning) && rescanTimeout == old(rescanTimeout)
      ensures (read.Some? <==> old(needsUpdate)) && (read.Some? ==> AnewFrom(old(users), read.value))
      ensures read == None ==>
        && !scanning && haveScanned && AllExact(users, known) && Longer(old(users), users)
        && recheckList == [] && listed == old(listed) && checked == old(checked)
        && unread == old(unread) && error == old(error)
        && newItems == [] && known == Merged(old(known), old(newItems))
    {
      hide Sound, Views, Queued, Follow, AllExact, AllDue, NewLooked, Cared;
      hide Began, Longer, Restarted, GoneOn, Lead, Agree, Wanted;
      read := None;
      ghost var before := users;
      FinishScan(start, was);
      ghost var ended, failing := users, error;
      if needsUpdate {
        ghost var reading := DirRescan(start, was);
        read := Some(reading);
        if reading.Entries? {
          RestartsAfter(before, ended, users, Lead(failing));
        }
      }
    }

    /** Starts, goes on with, or stops the scan, as there is work and somebody watching. */
    method SetIdleCallback(ghost start: seq<User>, ghost was: bool)
      requires Core() && Fresh() && Pending() && (idleCallback ==> scanning) && Follow(start, was, users, scanning)
      modifies this
      decreases if needsUpdate then 1 else 0, 2
      ensures Core() && Fresh() && Pending() && ScanMatches() && idleCallback == scanning
      ensures Follow(start, was, users, scanning)
      ensures needsUpdate ==> old(needsUpdate) && (scanning || old(recheckList) == [] || old(users) == [])
      ensures rescanTimeout == old(rescanTimeout)
      ensures old(ScanMatches() && idleCallback == scanning) ==> unchanged(this)
      ensures old(recheckList == [] || users == []) ==> !scanning && OnlyScanStopped()
      ensures old(recheckList != [] && users != [] && !idleCallback && !needsUpdate) ==>
        FirstLooked() && unread == old(unread) && error == old(error)
      ensures old(needsUpdate) || Longer(old(users), users)
    {
      hide Sound, Views, Queued, Follow, Heard, AllExact, AllDue, NewLooked, Cared, Longer, Restarted;
      ghost var before := users;
      if recheckList != [] && users != [] {
        ScanFreshly(true, start, was);
        ghost var heard := users;
        if idleCallback {
          return;
        }
        idleCallback := true;
        ghost var read := RecheckCallback(start, was);
        if read == None {
          LongerOn(before, heard, users);
        }
      } else {
        ScanFreshly(false, start, was);
        idleCallback := false;
      }
    }

    /** The flag between two operations. */
    method ScanFreshly(on: bool, ghost start: seq<User>, ghost was: bool)
      requires Core() && Fresh() && Follow(start, was, users, scanning)
      modifies this`scanning, this`users, this`recreated
      ensures Core() && Fresh() && scanning == on && Follow(start, was, users, scanning)
      ensures old(scanning) == on ==> users == old(users)
      ensures recreated == (old(recreated) && (on || !old(scanning)))
      ensures old(scanning) && !on ==> AllExact(users, known)
      ensures |users| == |old(users)| && forall i :: 0 <= i < |users| ==> View(users[i].log) == View(old(users)[i].log)
      ensures Longer(old(users), users)
    {
      hide Sound, Views, Queued, Follow, Heard, AllExact, AllDue, NewLooked, Cared, Longer;
      ghost var before, s := users, scanning;
      DirSetScanning(on, start, was);
      KeepCared(start, was, before, s);
      LongerSelf(before);
      if s != on {
        HeardLonger(before, before, users, if on then StartScan else EndScan(Table(known)));
      }
    }

    lemma KeepCared(start: seq<User>, was: bool, before: seq<User>, s: bool)
      requires Follow(start, was, before, s) && Follow(start, was, users, scanning)
      requires !unread ==> Cared(before, 0, cares, items, known)
      ensures !unread ==> Cared(users, 0, cares, items, known)
    {
      if !unread {
        CaredFollow(start, was, before, s, users, scanning, 0, cares, items, known);
      }
    }

    /** At most the two flags of a scan have changed, and what the users have been told. */
    twostate predicate OnlyScanStopped()
      reads this
    {
      && CacheKept() && unchanged(this`unread, this`error)
      && |users| == |old(users)| && (users == [] || !old(scanning) ==> users == old(users))
    }

    method AddUser(token: nat)
      requires Core() && Fresh()
      modifies this`users
      ensures Core() && |users| == |old(users)| + 1 && users[1..] == old(users)
      ensures !unread ==> Cared(users, 1, cares, items, known)
      ensures users[0].token == token && ShownScanning(users[0].log)
    {
      var shown := Listing(set n | n in known :: known[n]);
      var log := if shown != [] then [Add(shown)] else [];
      FirstView(shown, known, newItems, goneItems, nextId, doubled, recreated, items, upItems);
      users := [User(token, log)] + users;
      assert users[1..] == old(users);
      forall i | 1 <= i < |users| && !unread
        ensures CaresFor(cares, users[i].token, items, known)
      {
        assert CaresFor(cares, old(users)[i - 1].token, items, known);
      }
    }

    /** A new window: it is told everything known, and then follows along. */
    method DirAttach(token: nat) returns (ghost read: Option<Reading>)
      requires Valid()
      modifies this
      ensures Valid()
      ensures |users| == |old(users)| + 1 && users[0].token == token
      ensures forall i :: 0 <= i < |old(users)| ==> users[i + 1].token == old(users)[i].token
      ensures old(scanning) ==> scanning && users[1..] == old(users) && ScanGoesOn()
      ensures read.Some? <==> old(needsUpdate && !scanning)
      ensures read == None ==> OnlyAsked(token)
      ensures read.Some? ==> match read.value
                             case CannotStat => unread && !error
                             case CannotOpen =>
                               unread && error &&
                               GoneOn(old(users), users[1..], Lead(old(error)) + [ErrorChanged])
                             case Entries(ents) =>
                               && Lists(ents)
                               && Began(old(users), users[1..], Lead(old(error)),
                                        old(newItems), old(upItems), old(goneItems))
    {
      hide Sound, Views, Queued, AllDue, Cared, Began, GoneOn;
      AddUser(token);
      ghost var start, was := users, scanning;
      read := CatchUp(start, was);
      LastInStep(start, was, users, scanning);
      ghost var caught := users;
      if !scanning {
        TellFirst(EndScan(Table(known)));
      }
      TokensCared(caught, users, cares, items, known);
      LaterUsers(start, caught, Lead(old(error)), old(newItems), old(upItems), old(goneItems));
    }

    /** What is still to be looked at in this scan, and what is owed after it. */
    twostate predicate ScanGoesOn()
      reads this
    {
      listed == old(listed) && checked == old(checked) && needsUpdate == old(needsUpdate)
    }

    /** Work that nobody was there to see is taken up. */
    method CatchUp(ghost start: seq<User>, ghost was: bool) returns (ghost read: Option<Reading>)
      requires Core() && Pending() && idleCallback == scanning && users != [] && Follow(start, was, users, scanning)
      requires AllDue(items, known, recheckList, looked) && NewLooked(newItems, looked)
      requires !unread ==> Cared(users, 1, cares, items, known)
      requires scanning ==> recheckList != []
      modifies this
      ensures Core() && Fresh() && Pending() && ScanMatches() && idleCallback == scanning
      ensures Follow(start, was, users, scanning) && (needsUpdate ==> scanning)
      ensures old(scanning) ==> scanning && users == old(users) && ScanGoesOn()
      ensures read.Some? <==> old(needsUpdate && !scanning)
      ensures read == None ==> OnlyAsked(old(users)[0].token)
      ensures read.Some? ==> CaughtUp(read.value)
    {
      hide Sound, Views, Queued, Follow, AllDue, Cared, CaresFor, Began, GoneOn, Longer;
      ghost var before := users;
      read := None;
      if needsUpdate && !scanning {
        ghost var reading := DirRescan(start, was);
        read := Some(reading);
      } else {
        ghost var flagged := items;
        QueueInteresting(0);
        if !unread {
          CaredFirst(users, cares, flagged, items, known);
        }
      }
      ghost var told := users;
      SetIdleCallback(start, was);
      GoneOnLonger(before, told, users, Lead(old(error)) + [ErrorChanged]);
    }

    /** No name has come to be looked at but for this window's sake. */
    twostate predicate OnlyAsked(token: nat)
      reads this
    {
      forall n :: n in recheckList ==> n in old(recheckList) || cares(token, n)
    }

    /** What a rescan at the arrival of a window has come to. */
    twostate predicate CaughtUp(read: Reading)
      reads this
    {
      match read
      case CannotStat => unread && !error
      case CannotOpen => unread && error && GoneOn(old(users), users, Lead(old(error)) + [ErrorChanged])
      case Entries(ents) =>
        Lists(ents) && Began(old(users), users, Lead(old(error)), old(newItems), old(upItems), old(goneItems))
    }

    method TellFirst(m: Message)
      requires Core() && users != [] && m == EndScan(Table(known))
      modifies this`users
      ensures Core() && |users| == |old(users)| && users[1..] == old(users)[1..]
      ensures users[0].token == old(users)[0].token && !ShownScanning(users[0].log)
    {
      FirstTold(users, known, newItems, goneItems, nextId, doubled, recreated, m);
      users := users[0 := users[0].(log := users[0].log + [m])];
    }

    /** The window goes; with nobody left, the scan stops where it is. */
    method DirDetach(token: nat)
      requires Valid()
      modifies this
      ensures Valid()
      ensures users == WithoutToken(old(users), token)
      ensures CacheKept() && (users != [] ==> scanning == old(scanning))
    {
      hide Sound, Views, Queued, AllDue, NewLooked, Cared, AllExact, Longer;
      var i := 0;
      while i < |users|
        invariant 0 <= i <= |users|
        invariant forall j :: 0 <= j < i ==> users[j].token != token
      {
        if users[i].token == token {
          FirstTaken(users, token, i);
          OneLess(users, i, known, newItems, goneItems, nextId, doubled, recreated, scanning, cares, items);
          users := users[..i] + users[i + 1..];
          SetIdleCallback(users, scanning);
          return;
        }
        i := i + 1;
      }
      NoneTaken(users, token);
    }

    /** The cache of the directory and what is still to be rechecked stay as they are. */
    twostate predicate CacheKept()
      reads this
    {
      && unchanged(this`items, this`nextId, this`known, this`newItems, this`upItems, this`goneItems, this`recheckList)
      && unchanged(this`needsUpdate, this`notifyActive, this`haveScanned, this`checked, this`listed, this`doubled)
    }

    /** Something has changed on the disk; only a watched directory hears of it. */
    method RescanSoon()
      requires Valid() && users != []
      modifies this`needsUpdate, this`rescanTimeout
      ensures Valid() && needsUpdate && rescanTimeout
    {
      needsUpdate := true;
      rescanTimeout := true;
    }

    method RescanTimeoutCb() returns (ghost read: Option<Reading>)
      requires Valid() && rescanTimeout
      modifies this
      ensures Valid() && (scanning || !needsUpdate) && rescanTimeout == scanning
      ensures old(scanning) ==> unchanged(this)
      ensures (read.Some? <==> old(needsUpdate && !scanning)) && (read.Some? ==> Rescanned(read.value))
    {
      read := None;
      if !scanning && needsUpdate {
        ghost var reading := DirRescan(users, scanning);
        read := Some(reading);
      }
      if !scanning {
        rescanTimeout := false;
      }
    }

    method IdleStep() returns (ghost read: Option<Reading>)
      requires Valid() && idleCallback
      modifies this
      ensures Valid() && Stepped(read) && |users| == |old(users)| && (needsUpdate ==> old(needsUpdate))
    {
      hide Sound, Views, Queued, AllExact, AllDue, Cared;
      read := RecheckCallback(users, scanning);
    }

    method MergeNow()
      requires Valid()
      modifies this`items, this`known, this`newItems, this`upItems, this`goneItems, this`users, this`recreated
      ensures Valid() && newItems == upItems == goneItems == [] && (!doubled ==> Agree(users, known))
      ensures known == Merged(old(known), old(newItems)) && items == old(items) - Refs(old(goneItems))
      ensures Told(old(users), users, old(newItems), old(upItems), old(goneItems))
      ensures recreated == (old(recreated) || NamesOf(old(newItems)) * NamesOf(old(goneItems)) != {})
    {
      hide Sound, Views, Queued, Told, Agree, AllDue, Cared;
      MergeFreshly(users, scanning);
    }

    method NotifyTimeout()
      requires Valid() && notifyActive
      modifies this`items, this`known, this`newItems, this`upItems, this`goneItems, this`users, this`recreated,
        this`notifyActive
      ensures Valid() && !notifyActive && newItems == upItems == goneItems == [] && (!doubled ==> Agree(users, known))
      ensures known == Merged(old(known), old(newItems)) && items == old(items) - Refs(old(goneItems))
      ensures Told(old(users), users, old(newItems), old(upItems), old(goneItems))
      ensures recreated == (old(recreated) || NamesOf(old(newItems)) * NamesOf(old(goneItems)) != {})
    {
      hide Sound, Views, Queued, Told, Agree, Follow, AllDue, Cared;
      MergeNow();
      notifyActive := false;
    }

    /** `update`: the cache is asked for the directory again. */
    method Refresh() returns (ghost read: Option<Reading>)
      requires Valid()
      modifies this
      ensures Valid() && (needsUpdate ==> scanning)
      ensures old(scanning) ==> needsUpdate && scanning && listed == old(listed) && checked == old(checked)
      ensures (read.Some? <==> !old(scanning)) && (read.Some? ==> Rescanned(read.value))
    {
      read := None;
      if scanning {
        needsUpdate := true;
      } else {
        ghost var reading := DirRescan(users, scanning);
        read := Some(reading);
      }
    }

    /** `dir_recheck`: one item may have changed; `found` and `info` are what lstat says. */
    method DirRecheck(leaf: Name, found: bool, info: int) returns (item: Option<Ref>)
      requires Valid()
      modifies this`items, this`nextId, this`known, this`newItems, this`upItems, this`goneItems,
        this`notifyActive, this`doubled, this`looked
      ensures Valid() && Inserted(leaf, found, info, item) && looked == old(looked) + {leaf}
    {
      hide Sound, Views, Queued, Follow, Cared;
      item := InsertItem(leaf, found, info);
    }

    /** The same, told at once; a name that is gone can only stay by having been new already. */
    method DirUpdateItem(leaf: Name, found: bool, info: int) returns (item: Option<Ref>)
      requires Valid()
      modifies this`items, this`nextId, this`known, this`newItems, this`upItems, this`goneItems,
        this`notifyActive, this`doubled, this`users, this`recreated, this`looked
      ensures Valid() && |users| == |old(users)|
      ensures newItems == upItems == goneItems == [] && (!doubled ==> Agree(users, known))
      ensures !Ignored(leaf) ==> (leaf in known <==> found || leaf in NamesOf(old(newItems)))
      ensures forall n :: n != leaf ==> (n in known <==> n in old(known) || n in NamesOf(old(newItems)))
    {
      hide Sound, Views, Queued, Follow, InStep, Agree, AllDue, Cared;
      item := DirRecheck(leaf, found, info);
      MergedKnown(known, newItems);
      MergedNames(known, newItems);
      MergeNow();
    }
  }

  /** The names the recheck passes over: the test for `.` and `..` looks for a newline after them. */
  predicate Ignored(leaf: Name) {
    ".\n" <= leaf || "..\n" <= leaf
  }

  lemma KeptSound(items: map<Ref, DirItem>, nextId: nat, known: map<Name, Ref>, kept: map<Name, Ref>,
                  left: set<Ref>, doubled: bool, recheck: seq<Name>, checked: set<Name>, listed: set<Name>)
    requires Sound(items, nextId, known, [], [], [], doubled)
    requires Queued(items, known, [], recheck, checked, listed)
    requires forall n :: n in kept ==> n in known && kept[n] == known[n] && known[n] !in left
    requires forall n :: n in known && n !in kept ==> known[n] in left
    ensures Sound(items - left, nextId, kept, [], [], [], doubled)
    ensures Queued(items - left, kept, [], recheck, checked, listed)
  {
  }

  lemma BlankQueued(items: map<Ref, DirItem>, known: map<Name, Ref>, recheck: seq<Name>,
                    checked: set<Name>, listed: set<Name>)
    requires Queued(items, known, [], recheck, checked, listed)
    ensures Queued(items, known, [], [], checked, listed)
  {
  }

  lemma RelistQueued(items: map<Ref, DirItem>, known: map<Name, Ref>, names: seq<Name>, listed: set<Name>)
    requires forall r :: r in items && items[r].flagged ==> IsKnown(known, r)
    requires forall n :: n in known ==> n in names
    requires forall n :: n in names ==> n in listed
    ensures Queued(items, known, [], [], {}, listed)
  {
  }

  lemma AllListed(items: map<Ref, DirItem>, known: map<Name, Ref>, new_: seq<Ref>, names: seq<Name>)
    requires Marked(items, known, new_, names) && forall n :: n in known ==> n in names
    ensures Merged(known, new_).Keys == set n | n in names
    ensures AllDue(items, Merged(known, new_), [], {})
  {
    MergedKnown(known, new_);
    forall n | n in names && n !in known
      ensures n in Merged(known, new_)
    {
      var r :| r in new_ && r.name == n;
    }
  }

  lemma FirstView(shown: seq<Ref>, known: map<Name, Ref>, new_: seq<Ref>, gone: seq<Ref>, nextId: nat,
                  doubled: bool, recreated: bool, items: map<Ref, DirItem>, up: seq<Ref>)
    requires Sound(items, nextId, known, new_, up, gone, doubled)
    requires forall r :: r in shown <==> r in (set n | n in known :: known[n])
    ensures ViewOk(if shown != [] then [Add(shown)] else [], known, new_, gone, nextId, doubled, recreated)
    ensures ShownScanning(if shown != [] then [Add(shown)] else [])
  {
    Appended([], Add(shown));
    assert [] + [Add(shown)] == [Add(shown)];
    forall n | n in known
      ensures known[n] in shown
    {
    }
  }

  /** The users without the first one with this token. */
  function WithoutToken(users: seq<User>, token: nat): seq<User> {
    if users == [] then []
    else if users[0].token == token then users[1..]
    else [users[0]] + WithoutToken(users[1..], token)
  }

  lemma {:induction false} FirstTaken(users: seq<User>, token: nat, i: nat)
    requires i < |users| && users[i].token == token && forall j :: 0 <= j < i ==> users[j].token != token
    ensures WithoutToken(users, token) == users[..i] + users[i + 1..]
  {
    if i > 0 {
      FirstTaken(users[1..], token, i - 1);
    }
  }

  lemma {:induction false} NoneTaken(users: seq<User>, token: nat)
    requires forall j :: 0 <= j < |users| ==> users[j].token != token
    ensures WithoutToken(users, token) == users
  {
    if users != [] {
      NoneTaken(users[1..], token);
    }
  }

  lemma OneLess(users: seq<User>, i: nat, known: map<Name, Ref>, new_: seq<Ref>, gone: seq<Ref>, nextId: nat,
                doubled: bool, recreated: bool, scanning: bool,
                cares: (nat, Name) -> bool, items: map<Ref, DirItem>)
    requires i < |users| && InStep(users, scanning)
    requires Views(users, known, new_, gone, nextId, doubled, recreated)
    ensures var left := users[..i] + users[i + 1..];
            InStep(left, scanning) && Views(left, known, new_, gone, nextId, doubled, recreated)
    ensures Cared(users, 0, cares, items, known) ==> Cared(users[..i] + users[i + 1..], 0, cares, items, known)
  {
    var left := users[..i] + users[i + 1..];
    forall j | 0 <= j < |left|
      ensures Cared(users, 0, cares, items, known) ==> CaresFor(cares, left[j].token, items, known)
      ensures ShownScanning(left[j].log) == scanning
      ensures ViewOk(left[j].log, known, new_, gone, nextId, doubled, recreated)
    {
      assert left[j] == users[if j < i then j else j + 1];
    }
  }

  lemma MarkedNames(items: map<Ref, DirItem>, known: map<Name, Ref>, new_: seq<Ref>, names: seq<Name>)
    requires Marked(items, known, new_, names)
    ensures DistinctNames(new_)
  {
  }

  /** Between operations, what is new waits for no recheck of the listing. */
  lemma NothingBlank(items: map<Ref, DirItem>, nextId: nat, known: map<Name, Ref>, new_: seq<Ref>, up: seq<Ref>,
                     gone: seq<Ref>, doubled: bool, recheck: seq<Name>, checked: set<Name>, listed: set<Name>)
    requires Sound(items, nextId, known, new_, up, gone, doubled) && Queued(items, known, [], recheck, checked, listed)
    ensures Queued(items, known, new_, recheck, checked, listed) && forall r :: r in new_ ==> !items[r].flagged
  {
  }

  lemma ToldLonger(start: seq<User>, before: seq<User>, users: seq<User>, new_: seq<Ref>, up: seq<Ref>, gone: seq<Ref>)
    requires Longer(start, before) && Told(before, users, new_, up, gone)
    ensures Longer(start, users)
  {
    forall i | 0 <= i < |users|
      ensures start[i].log <= users[i].log
    {
      MergeLonger(before[i].log, new_, up, gone);
    }
  }

  lemma MergeLonger(log: seq<Message>, new_: seq<Ref>, up: seq<Ref>, gone: seq<Ref>)
    ensures log <= MergeLog(log, new_, up, gone)
  {
  }

  lemma BeganAt(start: seq<User>, heard: seq<User>, told: seq<User>, users: seq<User>,
                new_: seq<Ref>, up: seq<Ref>, gone: seq<Ref>)
    requires Heard(start, heard, StartScan) && Told(heard, told, new_, up, gone) && Longer(told, users)
    ensures Began(start, users, [], new_, up, gone)
  {
    forall i | 0 <= i < |users|
      ensures MergeLog(start[i].log + [] + [StartScan], new_, up, gone) <= users[i].log
    {
      assert start[i].log + [] + [StartScan] == start[i].log + [StartScan];
    }
  }

  lemma BeganOn(start: seq<User>, began: seq<User>, went: seq<User>, users: seq<User>, lead: seq<Message>,
                new_: seq<Ref>, up: seq<Ref>, gone: seq<Ref>)
    requires Began(start, began, lead, new_, up, gone) && Longer(began, went) && Longer(went, users)
    ensures Began(start, users, lead, new_, up, gone)
  {
  }

  lemma LongerSelf(users: seq<User>)
    ensures Longer(users, users)
  {
  }

  lemma LongerOn(a: seq<User>, b: seq<User>, c: seq<User>)
    requires Longer(a, b) && Longer(b, c)
    ensures Longer(a, c)
  {
  }

  lemma HeardLonger(start: seq<User>, before: seq<User>, users: seq<User>, m: Message)
    requires Longer(start, before) && Heard(before, users, m)
    ensures Longer(start, users)
  {
  }

  function Lead(error: bool): seq<Message> {
    if error then [ErrorChanged] else []
  }

  lemma TellsLead(start: seq<User>, users: seq<User>, error: bool)
    requires if error then Heard(start, users, ErrorChanged) else users == start
    ensures GoneOn(start, users, Lead(error)) && Longer(start, users)
  {
  }

  lemma TellsOn(start: seq<User>, told: seq<User>, users: seq<User>, error: bool)
    requires if error then Heard(start, told, ErrorChanged) else told == start
    requires Heard(told, users, ErrorChanged)
    ensures GoneOn(start, users, Lead(error) + [ErrorChanged])
  {
    forall i | 0 <= i < |users|
      ensures start[i].log + (Lead(error) + [ErrorChanged]) <= users[i].log
    {
      assert start[i].log + (Lead(error) + [ErrorChanged]) == start[i].log + Lead(error) + [ErrorChanged];
      assert start[i].log + [] == start[i].log;
    }
  }

  lemma BeganLater(start: seq<User>, told: seq<User>, users: seq<User>, error: bool,
                   new_: seq<Ref>, up: seq<Ref>, gone: seq<Ref>)
    requires if error then Heard(start, told, ErrorChanged) else told == start
    requires Began(told, users, [], new_, up, gone)
    ensures Began(start, users, Lead(error), new_, up, gone)
  {
    forall i | 0 <= i < |users|
      ensures MergeLog(start[i].log + Lead(error) + [StartScan], new_, up, gone) <= users[i].log
    {
      assert told[i].log + [] == told[i].log && start[i].log + [] == start[i].log;
    }
  }

  lemma RestartsAfter(start: seq<User>, ended: seq<User>, users: seq<User>, lead: seq<Message>)
    requires Longer(start, ended) && Began(ended, users, lead, [], [], [])
    ensures Restarted(start, users)
  {
    forall i | 0 <= i < |users|
      ensures StartsLater(start[i].log, users[i].log)
    {
      assert start[i].log <= ended[i].log + lead;
      assert ended[i].log + lead + [StartScan] <= users[i].log;
    }
  }

  lemma GoneOnLonger(start: seq<User>, told: seq<User>, users: seq<User>, ms: seq<Message>)
    ensures GoneOn(start, told, ms) && Longer(told, users) ==> GoneOn(start, users, ms)
  {
  }

  /** What holds of all users holds of all but the first. */
  lemma LaterUsers(start: seq<User>, users: seq<User>, lead: seq<Message>,
                   new_: seq<Ref>, up: seq<Ref>, gone: seq<Ref>)
    requires start != []
    ensures GoneOn(start, users, lead + [ErrorChanged]) ==> GoneOn(start[1..], users[1..], lead + [ErrorChanged])
    ensures Began(start, users, lead, new_, up, gone) ==> Began(start[1..], users[1..], lead, new_, up, gone)
  {
  }

  lemma TokensCared(before: seq<User>, users: seq<User>, cares: (nat, Name) -> bool,
                    items: map<Ref, DirItem>, known: map<Name, Ref>)
    requires users != [] && |before| == |users| && before[0].token == users[0].token && before[1..] == users[1..]
    ensures Cared(before, 0, cares, items, known) ==> Cared(users, 0, cares, items, known)
  {
    if Cared(before, 0, cares, items, known) {
      forall i | 0 <= i < |users|
        ensures CaresFor(cares, users[i].token, items, known)
      {
        assert i > 0 ==> users[i] == users[1..][i - 1] == before[i];
        assert CaresFor(cares, before[i].token, items, known);
      }
    }
  }

  lemma CaredFirst(users: seq<User>, cares: (nat, Name) -> bool, before: map<Ref, DirItem>, items: map<Ref, DirItem>,
                   known: map<Name, Ref>)
    requires users != [] && Cared(users, 1, cares, before, known) && OnlyUnflagged(before, items)
    requires CaresFor(cares, users[0].token, items, known)
    ensures Cared(users, 0, cares, items, known)
  {
    UnflaggedCared(users, 1, cares, before, items, known);
  }

  /** Of what the window shows and cares about, only the items in `left` are still flagged. */
  predicate NoneUnasked(items: map<Ref, DirItem>, user: User, cares: (nat, Name) -> bool, left: set<Ref>) {
    forall r :: r in items && r in View(user.log) && cares(user.token, r.name) && items[r].flagged ==> r in left
  }

  lemma SeenCared(users: seq<User>, i: nat, items: map<Ref, DirItem>, nextId: nat, known: map<Name, Ref>,
                  new_: seq<Ref>, up: seq<Ref>, gone: seq<Ref>, doubled: bool, recreated: bool,
                  cares: (nat, Name) -> bool)
    requires i < |users| && NoneUnasked(items, users[i], cares, {})
    requires Sound(items, nextId, known, new_, up, gone, doubled)
    requires Views(users, known, new_, gone, nextId, doubled, recreated)
    ensures CaresFor(cares, users[i].token, items, known)
  {
    assert ViewOk(users[i].log, known, new_, gone, nextId, doubled, recreated);
  }

  lemma QueuedDue(items: map<Ref, DirItem>, nextId: nat, known: map<Name, Ref>, new_: seq<Ref>, up: seq<Ref>,
                  gone: seq<Ref>, doubled: bool, recheck: seq<Name>, looked: set<Name>, r: Ref)
    requires Sound(items, nextId, known, new_, up, gone, doubled) && r in items
    ensures AllDue(items, known, recheck, looked) ==>
      AllDue(items[r := DirItem(false, items[r].info)], known, [r.name] + recheck, looked)
  {
  }

  lemma HeadListed(items: map<Ref, DirItem>, known: map<Name, Ref>, recheck: seq<Name>,
                   checked: set<Name>, listed: set<Name>)
    requires Queued(items, known, [], recheck, checked, listed)
    ensures recheck != [] ==> recheck[0] in listed
  {
  }

  lemma MergedNone(known: map<Name, Ref>, new_: seq<Ref>)
    ensures new_ == [] ==> Merged(known, new_) == known
  {
  }

  lemma LastInStep(start: seq<User>, was: bool, users: seq<User>, scanning: bool)
    requires start != [] && InStep(start[1..], was) && ShownScanning(start[0].log)
    requires Follow(start, was, users, scanning)
    ensures InStep(users[1..], scanning) && (scanning ==> ShownScanning(users[0].log))
  {
    forall i | 0 <= i < |users| - 1
      ensures ShownScanning(users[1..][i].log) == scanning
    {
      assert ShownScanning(start[1..][i].log) == was;
    }
  }

  lemma NotYetNew(new_: seq<Ref>, done: seq<Name>, name: Name)
    requires (forall r :: r in new_ ==> r.name in done) && name !in done
    ensures name !in NamesOf(new_)
  {
  }

  /** What the disk says of a directory; of its entries each name comes once. */
  datatype Reading = CannotStat | CannotOpen | Entries(ents: seq<Name>)

  method ReadDirectory() returns (read: Reading)
    ensures read.Entries? ==> Distinct(read.ents)
  {
    var stat: bool, open: bool := *, *;
    if !stat {
      return CannotStat;
    } else if !open {
      return CannotOpen;
    }
    assert Distinct<Name>([]);
    var ents: seq<Name> :| Distinct(ents);
    return Entries(ents);
  }

  /** Every name but those of the directory itself and the one above it. */
  method SkipDots(ents: seq<Name>) returns (names: seq<Name>)
    requires Distinct(ents)
    ensures Distinct(names) && forall n :: n in names <==> n in ents && n != "." && n != ".."
  {
    names := [];
    var i := 0;
    while i < |ents|
      invariant 0 <= i <= |ents| && Distinct(names)
      invariant forall n :: n in names <==> n in ents[..i] && n != "." && n != ".."
    {
      assert ents[..i + 1] == ents[..i] + [ents[i]];
      if ents[i] != "." && ents[i] != ".." {
        assert ents[i] !in ents[..i];
        names := names + [ents[i]];
      }
      i := i + 1;
    }
    assert ents[..i] == ents;
  }

  /** The elements of a set in some order. */
  method Listing(s: set<Ref>) returns (list: seq<Ref>)
    ensures forall r :: r in list <==> r in s
  {
    list := [];
    var left := s;
    while left != {}
      invariant left <= s && forall r :: r in s <==> r in list || r in left
    {
      var r :| r in left;
      list := list + [r];
      left := left - {r};
    }
  }

  lemma MergedSound(items: map<Ref, DirItem>, nextId: nat, known: map<Name, Ref>,
                    new_: seq<Ref>, up: seq<Ref>, gone: seq<Ref>, doubled: bool,
                    recheck: seq<Name>, checked: set<Name>, listed: set<Name>)
    requires Sound(items, nextId, known, new_, up, gone, doubled)
    requires Queued(items, known, new_, recheck, checked, listed)
    requires DistinctNames(new_) || forall r :: r in new_ ==> !items[r].flagged
    ensures Sound(items - Refs(gone), nextId, Merged(known, new_), [], [], [], doubled)
    ensures Queued(items - Refs(gone), Merged(known, new_), [], recheck, checked, listed)
  {
    MergedKnown(known, new_);
    var known', items' := Merged(known, new_), items - Refs(gone);
    forall n | n in known'
      ensures known'[n].name == n && known'[n] in items'
    {
      assert n in known && known'[n] == known[n] ==> known[n] !in gone;
    }
    forall r | r in items' && items'[r].flagged
      ensures IsKnown(known', r)
    {
      assert r in new_ || (IsKnown(known, r) && r.name !in NamesOf(new_));
    }
  }

  /** Whatever else may happen between two steps of a scan; `notices`: the disk may be seen to change. */
  method Between(dir: Directory, notices: bool)
    requires dir.Valid() && dir.scanning
    modifies dir
    ensures dir.Valid() && (dir.scanning || dir.users == [])
    ensures dir.listed == old(dir.listed) && dir.checked == old(dir.checked)
    ensures dir.needsUpdate ==> old(dir.needsUpdate) || notices
  {
    var events: int := *;
    while events > 0 && dir.scanning
      invariant dir.Valid() && (dir.scanning || dir.users == [])
      invariant dir.listed == old(dir.listed) && dir.checked == old(dir.checked)
      invariant dir.needsUpdate ==> old(dir.needsUpdate) || notices
    {
      OneEvent(dir, notices);
      events := events - 1;
    }
  }

  method OneEvent(dir: Directory, notices: bool)
    requires dir.Valid() && dir.scanning
    modifies dir
    ensures dir.Valid() && (dir.scanning || dir.users == [])
    ensures dir.listed == old(dir.listed) && dir.checked == old(dir.checked)
    ensures dir.needsUpdate ==> old(dir.needsUpdate) || notices
  {
    hide Sound, Views, Queued, InStep, Agree, Told, Merged;
    var what: int, token: int, leaf: Name, found: bool := *, *, *, *;
    ghost var read: Option<Reading>;
    if what == 0 && token >= 0 {
      read := dir.DirAttach(token);
    } else if what == 1 && token >= 0 {
      dir.DirDetach(token);
    } else if what == 2 && notices {
      dir.RescanSoon();
    } else if what == 3 && notices {
      read := dir.Refresh();
    } else if what == 4 && dir.rescanTimeout {
      read := dir.RescanTimeoutCb();
    } else if what == 5 && dir.notifyActive {
      dir.NotifyTimeout();
    } else if what == 6 {
      var item := dir.DirRecheck(leaf, found, token);
    } else if what == 7 {
      var item := dir.DirUpdateItem(leaf, found, token);
    }
  }

  /**
   * A scan ends, whatever happens between its steps: no listed name takes more than one
   * step. Unless a rescan was owed, every window then shows exactly the directory.
   */
  method ScanToEnd(dir: Directory, notices: bool) returns (steps: nat, ghost read: Option<Reading>)
    requires dir.Valid() && dir.scanning
    modifies dir
    ensures dir.Valid() && steps <= |old(dir.listed)| - |old(dir.checked)|
    ensures read.Some? ==> !dir.needsUpdate && (old(dir.needsUpdate) || notices)
    ensures read.Some? && read.value.Entries? ==> dir.Lists(read.value.ents)
    ensures read == None ==> !dir.scanning
    ensures read == None && dir.users != [] ==>
      dir.recheckList == [] && dir.haveScanned && AllExact(dir.users, dir.known) && AllLooked(dir)
  {
    hide Sound, Views, Queued, InStep, AllExact, AllDue, Cared;
    steps, read := 0, None;
    var last := false;
    DueName(dir);
    while dir.scanning && !last
      invariant dir.Valid() && steps <= |old(dir.listed)| - |old(dir.checked)|
      invariant !last ==> read == None && dir.listed == old(dir.listed) && steps == |dir.checked| - |old(dir.checked)|
      invariant !last && !dir.scanning ==> dir.users == []
      invariant last && read == None ==> !dir.scanning && dir.haveScanned && AllExact(dir.users, dir.known)
      invariant dir.needsUpdate ==> old(dir.needsUpdate) || notices
      invariant read.Some? ==> !dir.needsUpdate && (old(dir.needsUpdate) || notices)
      invariant read.Some? && read.value.Entries? ==> dir.Lists(read.value.ents)
      decreases !last, |dir.listed| - |dir.checked|
    {
      Between(dir, notices);
      if !dir.scanning {
        break;
      }
      DueName(dir);
      last := |dir.recheckList| == 1;
      read := dir.IdleStep();
      steps := steps + 1;
    }
    if dir.recheckList == [] {
      NothingLeft(dir);
    }
  }

  /** Every name in the table that some window cares about has been looked at since the listing. */
  ghost predicate AllLooked(dir: Directory)
    reads dir
  {
    !dir.unread ==> forall i, n ::
      0 <= i < |dir.users| && n in dir.known && dir.cares(dir.users[i].token, n) ==> n in dir.looked
  }

  lemma NothingLeft(dir: Directory)
    requires dir.Valid() && dir.recheckList == []
    ensures AllLooked(dir)
  {
    forall i, n | !dir.unread && 0 <= i < |dir.users| && n in dir.known && dir.cares(dir.users[i].token, n)
      ensures n in dir.looked
    {
      assert CaresFor(dir.cares, dir.users[i].token, dir.items, dir.known);
    }
  }

  /** The next name to be rechecked has not been yet, and is one of the listed ones. */
  lemma DueName(dir: Directory)
    requires dir.Valid() && dir.recheckList != []
    ensures dir.recheckList[0] !in dir.checked && |dir.checked| < |dir.listed|
  {
    assert dir.recheckList[0] in dir.recheckList;
    ScanBounded(dir.items, dir.known, dir.recheckList, dir.checked, dir.listed);
  }

  /**
   * A run from an empty cache on which a window loses an item: a name is seen gone and then
   * back before the timeout, and REMOVE takes the new item with the old.
   */
  method LosesReturned() returns (dir: Directory)
    ensures fresh(dir) && dir.Valid() && dir.recreated && dir.users != []
    ensures "a" in dir.known && dir.known["a"] !in ViewByName(dir.users[0].log)
    ensures !AllShown(dir.known, ViewByName(dir.users[0].log))
  {
    hide Sound, Views, Queued, InStep, Agree, AllDue, NewLooked, Cared, Merged;
    dir := Shows("a");
    ghost var r := dir.known["a"];
    var item := dir.DirRecheck("a", false, 0);
    ghost var gone := dir.goneItems;
    assert gone[|gone| - 1] == r;
    item := dir.DirRecheck("a", true, 0);
    ghost var known, new_, up, log := dir.known, dir.newItems, dir.upItems, dir.users[0].log;
    ReturnedLost(log, known, new_, up, gone, item.value);
    dir.NotifyTimeout();
  }

  /** A directory with one window, in which a name is shown. */
  method Shows(name: Name) returns (dir: Directory)
    requires !Ignored(name)
    ensures fresh(dir) && dir.Valid() && |dir.users| == 1 && dir.newItems == dir.goneItems == []
    ensures name in dir.known && dir.known[name].name == name
  {
    hide Views, Queued, InStep, Agree, AllDue, NewLooked, Cared, Began, GoneOn;
    dir := new Directory((token: nat, leaf: Name) => true);
    ghost var read := dir.DirAttach(0);
    var item := dir.DirUpdateItem(name, true, 0);
  }

  lemma ReturnedLost(log: seq<Message>, known: map<Name, Ref>, new_: seq<Ref>, up: seq<Ref>, gone: seq<Ref>, r: Ref)
    requires new_ == [r] && r.name in NamesOf(gone)
    ensures Merged(known, new_) == known[r.name := r] && r !in ViewByName(MergeLog(log, new_, up, gone))
    ensures r.name in NamesOf(new_) * NamesOf(gone)
  {
    MergeShows(log, new_, up, gone);
    assert new_[..0] == [] && Merged(known, new_[..0]) == known;
  }

  /** A name that is found is passed over exactly when a newline follows its dots: `.` and `..` never are. */
  twostate lemma FoundIsTaken(dir: Directory, leaf: Name, info: int, new item: Option<Ref>)
    requires dir.Inserted(leaf, true, info, item)
    ensures item == None <==> Ignored(leaf)
    ensures leaf == "." || leaf == ".." ==> item.Some?
  {
    assert !Ignored(".") && (".\n")[1] == '\n' && ("..")[1] == '.';
  }

  /** So asking for `.` from outside of a listing puts an item of this name into the table and into every view. */
  method ShowsDot(info: int) returns (dir: Directory)
    ensures fresh(dir) && dir.Valid() && dir.users != []
    ensures "." in dir.known && dir.known["."] in View(dir.users[0].log)
  {
    hide Sound, Queued, InStep, Agree, AllDue, NewLooked, Cared, Began, GoneOn;
    dir := new Directory((token: nat, name: Name) => true);
    ghost var read := dir.DirAttach(0);
    var item := dir.DirUpdateItem(".", true, info);
    assert ViewOk(dir.users[0].log, dir.known, dir.newItems, dir.goneItems, dir.nextId, dir.doubled, dir.recreated);
  }

  /**
   * A run from an empty cache on which everybody is told of an item that the table does not
   * know: a name that is not listed yet is rechecked twice before the timeout.
   */
  method AddsTwice() returns (dir: Directory, extra: Ref)
    ensures fresh(dir) && dir.Valid() && dir.doubled && dir.users != []
    ensures extra in View(dir.users[0].log) && !IsKnown(dir.known, extra)
    ensures !Agree(dir.users, dir.known)
  {
    hide Sound, Views, Queued, InStep, AllDue, NewLooked, Cared, Began, GoneOn;
    dir := new Directory((token: nat, name: Name) => true);
    ghost var read := dir.DirAttach(0);
    var item := dir.DirUpdateItem("b", false, 0);
    item := dir.DirUpdateItem("b", false, 0);
    var first := dir.DirRecheck("b", true, 0);
    var second := dir.DirRecheck("b", true, 0);
    ghost var known, new_, up, gone, log := dir.known, dir.newItems, dir.upItems, dir.goneItems, dir.users[0].log;
    extra := first.value;
    FirstUnknown(log, known, new_, up, gone, first.value, second.value);
    dir.NotifyTimeout();
  }

  lemma FirstUnknown(log: seq<Message>, known: map<Name, Ref>, new_: seq<Ref>, up: seq<Ref>, gone: seq<Ref>,
                     first: Ref, second: Ref)
    requires new_ == [first, second] && first.name == second.name && first != second && first !in gone
    ensures first in View(MergeLog(log, new_, up, gone)) && !IsKnown(Merged(known, new_), first)
  {
    MergeShows(log, new_, up, gone);
    assert new_[..1] == [first];
  }

  /** Any run: windows come and go, the disk changes, timeouts and idle calls fire, in any order. */
  method AnyRun(dir: Directory, steps: nat)
    requires dir.Valid()
    modifies dir
    ensures dir.Valid()
  {
    var i := 0;
    while i < steps
      invariant dir.Valid()
    {
      var what: int := *;
      var token: int := *;
      var leaf: Name, found: bool := *, *;
      ghost var read: Option<Reading>;
      if what == 0 && token >= 0 {
        read := dir.DirAttach(token);
      } else if what == 1 && token >= 0 {
        dir.DirDetach(token);
      } else if what == 2 && dir.users != [] {
        dir.RescanSoon();
      } else if what == 3 && dir.rescanTimeout {
        read := dir.RescanTimeoutCb();
      } else if what == 4 && dir.idleCallback {
        read := dir.IdleStep();
      } else if what == 5 && dir.notifyActive {
        dir.NotifyTimeout();
      } else if what == 6 {
        read := dir.Refresh();
      } else if what == 7 {
        var item := dir.DirRecheck(leaf, found, token);
      } else if what == 8 {
        var item := dir.DirUpdateItem(leaf, found, token);
      }
      i := i + 1;
    }
  }
}
