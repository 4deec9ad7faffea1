/** What a user of a directory has been told, and what the directory is to agree with. */
module DirViews {
  import opened Wrappers

  type Name = string

  /** One allocated DirItem. Its leaf name never changes; a name that comes back is another item. */
  datatype Ref = Ref(id: nat, name: Name)

  /** `info` is None until the item has been looked at; `flagged` is NEED_RESCAN_QUEUE. */
  datatype DirItem = DirItem(flagged: bool, info: Option<int>)

  /** The end of a scan is told with nothing; `table` is what the directory knows just then. */
  datatype Message =
    | StartScan
    | EndScan(table: set<Ref>)
    | Add(items: seq<Ref>)
    | Update(items: seq<Ref>)
    | Remove(items: seq<Ref>)
    | ErrorChanged

  datatype User = User(token: nat, log: seq<Message>)

  function Refs(items: seq<Ref>): set<Ref> {
    set r | r in items
  }

  function NamesOf(items: seq<Ref>): set<Name> {
    set r | r in items :: r.name
  }

  function WithoutNames(shown: set<Ref>, names: set<Name>): set<Ref> {
    set r | r in shown && r.name !in names
  }

  function Show(shown: set<Ref>, m: Message): set<Ref> {
    match m
    case Add(items) => shown + Refs(items)
    case Remove(items) => shown - Refs(items)
    case _ => shown
  }

  function ShowByName(shown: set<Ref>, m: Message): set<Ref> {
    match m
    case Add(items) => shown + Refs(items)
    case Remove(items) => WithoutNames(shown, NamesOf(items))
    case EndScan(table) => table
    case _ => shown
  }

  /** The items a user shows after these messages, dropping exactly the items named in REMOVE. */
  function View(log: seq<Message>): set<Ref> {
    if log == [] then {} else Show(View(log[..|log| - 1]), log[|log| - 1])
  }

  /**
   * The same for a window: it drops every item with the leaf name of a removed one, and at the
   * end of a scan goes through the table and rebuilds what it shows if that is anything else.
   */
  function ViewByName(log: seq<Message>): set<Ref> {
    if log == [] then {} else ShowByName(ViewByName(log[..|log| - 1]), log[|log| - 1])
  }

  /** A window starts out showing that a scan is under way. */
  function ShownScanning(log: seq<Message>): bool {
    if log == [] then true
    else
      match log[|log| - 1]
      case StartScan => true
      case EndScan(_) => false
      case _ => ShownScanning(log[..|log| - 1])
  }

  lemma Appended(log: seq<Message>, m: Message)
    ensures View(log + [m]) == Show(View(log), m)
    ensures ViewByName(log + [m]) == ShowByName(ViewByName(log), m)
    ensures ShownScanning(log + [m]) == (m.StartScan? || (!m.EndScan? && ShownScanning(log)))
  {
    assert (log + [m])[..|log|] == log;
  }

  function Table(known: map<Name, Ref>): set<Ref> {
    set n | n in known :: known[n]
  }

  predicate IsKnown(known: map<Name, Ref>, r: Ref) {
    r.name in known && known[r.name] == r
  }

  /**
   * One user's view. `doubled`: some unlisted name has gone through a recheck twice
   * between two merges. `recreated`: some merge since the last end of a scan has met a
   * name both gone and new.
   */
  ghost predicate ViewOk(log: seq<Message>, known: map<Name, Ref>, new_: seq<Ref>, gone: seq<Ref>, nextId: nat,
                         doubled: bool, recreated: bool)
  {
    && (forall n :: n in known ==> known[n] in View(log))
    && (forall r :: r in View(log) ==> r.id < nextId && r !in new_)
    && (!doubled ==> forall r :: r in View(log) ==> r in gone || IsKnown(known, r))
    && ViewByName(log) <= View(log)
    && (!recreated ==> forall n :: n in known ==> known[n] in ViewByName(log))
  }

  ghost predicate Views(users: seq<User>, known: map<Name, Ref>, new_: seq<Ref>, gone: seq<Ref>, nextId: nat,
                        doubled: bool, recreated: bool)
  {
    forall i :: 0 <= i < |users| ==> ViewOk(users[i].log, known, new_, gone, nextId, doubled, recreated)
  }

  lemma FirstTold(users: seq<User>, known: map<Name, Ref>, new_: seq<Ref>, gone: seq<Ref>, nextId: nat,
                  doubled: bool, recreated: bool, m: Message)
    requires Views(users, known, new_, gone, nextId, doubled, recreated) && users != []
    requires m == EndScan(Table(known))
    ensures var log := users[0].log + [m];
            && Views(users[0 := users[0].(log := log)], known, new_, gone, nextId, doubled, recreated)
            && !ShownScanning(log)
  {
    Appended(users[0].log, m);
    var told := users[0 := users[0].(log := users[0].log + [m])];
    forall i | 0 <= i < |told|
      ensures ViewOk(told[i].log, known, new_, gone, nextId, doubled, recreated)
    {
      assert ViewOk(users[i].log, known, new_, gone, nextId, doubled, recreated);
    }
  }

  /** The end of a scan puts every window right, whatever went wrong before. */
  lemma EndShown(log: seq<Message>, known: map<Name, Ref>, new_: seq<Ref>, gone: seq<Ref>, nextId: nat,
                 doubled: bool, recreated: bool)
    requires ViewOk(log, known, new_, gone, nextId, doubled, recreated)
    ensures ViewOk(log + [EndScan(Table(known))], known, new_, gone, nextId, doubled, false)
    ensures ViewByName(log + [EndScan(Table(known))]) == Table(known)
  {
    Appended(log, EndScan(Table(known)));
  }

  /** Every window shows exactly the table. */
  ghost predicate AllExact(users: seq<User>, known: map<Name, Ref>) {
    forall i :: 0 <= i < |users| ==> ViewByName(users[i].log) == Table(known)
  }

  predicate DistinctNames(items: seq<Ref>) {
    forall i, j :: 0 <= i < j < |items| ==> items[i].name != items[j].name
  }

  /** The items and the three pending arrays fit together. */
  ghost predicate Sound(items: map<Ref, DirItem>, nextId: nat, known: map<Name, Ref>,
                        new_: seq<Ref>, up: seq<Ref>, gone: seq<Ref>, doubled: bool)
  {
    && (!doubled ==> DistinctNames(new_))
    && (forall n :: n in known ==> known[n].name == n && known[n] in items)
    && (forall r :: r in new_ ==> r in items && r.name !in known)
    && (forall r :: r in gone ==> r in items && r.name !in known && r !in new_)
    && (forall r :: r in up ==> r in items)
    && (forall r :: r in items ==> r.id < nextId)
  }

  predicate Distinct<T(==)>(s: seq<T>) {
    forall i, j :: 0 <= i < j < |s| ==> s[i] != s[j]
  }

  /**
   * A flagged item is known, or is one of the `blank` ones being listed; its name is
   * listed, is not queued, and has not been rechecked since the listing.
   */
  ghost predicate Queued(items: map<Ref, DirItem>, known: map<Name, Ref>, blank: seq<Ref>,
                         recheck: seq<Name>, checked: set<Name>, listed: set<Name>)
  {
    && Distinct(recheck)
    && (forall n :: n in recheck ==> n !in checked)
    && (forall n :: n in recheck ==> n in listed)
    && checked <= listed
    && (forall r :: r in items && items[r].flagged ==>
         (r in blank || IsKnown(known, r)) && r.name !in recheck && r.name !in checked && r.name in listed)
  }

  /** Every user believes what the flag says. */
  ghost predicate InStep(users: seq<User>, scanning: bool) {
    forall i :: 0 <= i < |users| ==> ShownScanning(users[i].log) == scanning
  }

  /** The same users; those in step stay in step, and a scan is always shown. */
  ghost predicate Follow(before: seq<User>, wasScanning: bool, users: seq<User>, scanning: bool) {
    && |users| == |before|
    && (forall i :: 0 <= i < |users| ==> users[i].token == before[i].token)
    && (forall i :: 0 <= i < |users| && ShownScanning(before[i].log) == wasScanning ==>
         ShownScanning(users[i].log) == scanning)
    && (forall i :: 0 <= i < |users| && ShownScanning(before[i].log) && scanning ==> ShownScanning(users[i].log))
  }

  /** The messages of one merge, for one user. */
  function MergeLog(log: seq<Message>, new_: seq<Ref>, up: seq<Ref>, gone: seq<Ref>): seq<Message> {
    var added := if new_ != [] then log + [Add(new_)] else log;
    var updated := if up != [] then added + [Update(up)] else added;
    if gone != [] then updated + [Remove(gone)] else updated
  }

  /** What a message that is only sent when there is something to say leaves of the views. */
  lemma MaybeAppended(log: seq<Message>, refs: seq<Ref>, m: Message)
    requires m in {Add(refs), Update(refs), Remove(refs)}
    ensures var longer := if refs != [] then log + [m] else log;
            && View(longer) == (if m.Add? then View(log) + Refs(refs)
                                else if m.Remove? then View(log) - Refs(refs) else View(log))
            && ViewByName(longer) == (if m.Add? then ViewByName(log) + Refs(refs)
                                      else if m.Remove? then WithoutNames(ViewByName(log), NamesOf(refs))
                                      else ViewByName(log))
            && ShownScanning(longer) == ShownScanning(log)
  {
    Appended(log, m);
  }

  lemma MergeShows(log: seq<Message>, new_: seq<Ref>, up: seq<Ref>, gone: seq<Ref>)
    ensures View(MergeLog(log, new_, up, gone)) == View(log) + Refs(new_) - Refs(gone)
    ensures ViewByName(MergeLog(log, new_, up, gone)) ==
      WithoutNames(ViewByName(log) + Refs(new_), NamesOf(gone))
    ensures ShownScanning(MergeLog(log, new_, up, gone)) == ShownScanning(log)
  {
    var added := if new_ != [] then log + [Add(new_)] else log;
    var updated := if up != [] then added + [Update(up)] else added;
    MaybeAppended(log, new_, Add(new_));
    MaybeAppended(added, up, Update(up));
    MaybeAppended(updated, gone, Remove(gone));
  }

  /** A user hears of what is new, of what has changed and of what is gone, in this order, and of nothing else. */
  lemma MergeSays(log: seq<Message>, new_: seq<Ref>, up: seq<Ref>, gone: seq<Ref>)
    ensures log <= MergeLog(log, new_, up, gone)
    ensures var said := MergeLog(log, new_, up, gone)[|log|..];
            && (forall m :: m in said <==> (m == Add(new_) && new_ != []) || (m == Update(up) && up != []) ||
                                           (m == Remove(gone) && gone != []))
            && (forall i, j :: 0 <= i < j < |said| ==> Turn(said[i]) < Turn(said[j]))
  {
    var a, u, g := IfAny(new_, Add(new_)), IfAny(up, Update(up)), IfAny(gone, Remove(gone));
    assert MergeLog(log, new_, up, gone) == log + (a + u + g);
    assert MergeLog(log, new_, up, gone)[|log|..] == a + u + g;
  }

  function IfAny(refs: seq<Ref>, m: Message): seq<Message> {
    if refs != [] then [m] else []
  }

  function Turn(m: Message): int {
    match m
    case Add(_) => 0
    case Update(_) => 1
    case _ => 2
  }

  /** The table after the new items have been put in, one by one. */
  function Merged(known: map<Name, Ref>, new_: seq<Ref>): map<Name, Ref> {
    if new_ == [] then known
    else
      var r := new_[|new_| - 1];
      Merged(known, new_[..|new_| - 1])[r.name := r]
  }

  lemma {:induction false} MergedKnown(known: map<Name, Ref>, new_: seq<Ref>)
    ensures forall n :: n in known && n !in NamesOf(new_) ==>
      n in Merged(known, new_) && Merged(known, new_)[n] == known[n]
    ensures forall n :: n in Merged(known, new_) ==>
      (n in known && Merged(known, new_)[n] == known[n]) ||
      (Merged(known, new_)[n] in new_ && Merged(known, new_)[n].name == n)
    ensures forall r :: r in new_ ==> r.name in Merged(known, new_)
    ensures DistinctNames(new_) ==> forall r :: r in new_ ==> IsKnown(Merged(known, new_), r)
  {
    if new_ != [] {
      var before := new_[..|new_| - 1];
      assert new_ == before + [new_[|new_| - 1]];
      MergedKnown(known, before);
      assert forall n :: n in NamesOf(before) ==> n in NamesOf(new_);
    }
  }

  lemma {:induction false} MergedNames(known: map<Name, Ref>, new_: seq<Ref>)
    ensures forall n :: n in Merged(known, new_) <==> n in known || n in NamesOf(new_)
  {
    if new_ != [] {
      MergedNames(known, new_[..|new_| - 1]);
      assert new_ == new_[..|new_| - 1] + [new_[|new_| - 1]];
    }
  }

  lemma MergeViewOk(log: seq<Message>, known: map<Name, Ref>, new_: seq<Ref>, up: seq<Ref>, gone: seq<Ref>,
                    items: map<Ref, DirItem>, nextId: nat, doubled: bool, recreated: bool)
    requires Sound(items, nextId, known, new_, up, gone, doubled)
    requires ViewOk(log, known, new_, gone, nextId, doubled, recreated)
    ensures ViewOk(MergeLog(log, new_, up, gone), Merged(known, new_), [], [], nextId, doubled,
                   recreated || NamesOf(new_) * NamesOf(gone) != {})
    ensures !doubled ==> forall r :: r in View(MergeLog(log, new_, up, gone)) <==> IsKnown(Merged(known, new_), r)
  {
    MergeShows(log, new_, up, gone);
    MergedKnown(known, new_);
    var log', known' := MergeLog(log, new_, up, gone), Merged(known, new_);
    forall n | n in known'
      ensures known'[n] in View(log') && known'[n].name == n
      ensures !recreated && NamesOf(new_) * NamesOf(gone) == {} ==> known'[n] in ViewByName(log')
    {
      assert n in NamesOf(gone) ==> n !in known;
      if known'[n] in new_ {
        assert n in NamesOf(new_) && n !in NamesOf(new_) * NamesOf(gone) ==> n !in NamesOf(gone);
      }
    }
    forall r | r in View(log') && !doubled
      ensures IsKnown(known', r)
    {
      assert r in new_ || (IsKnown(known, r) && r.name !in NamesOf(new_));
    }
  }

  /** Every user shows exactly the table. */
  ghost predicate Agree(users: seq<User>, known: map<Name, Ref>) {
    forall i :: 0 <= i < |users| ==> forall r :: r in View(users[i].log) <==> IsKnown(known, r)
  }

  /** Every user has been told the pending changes. */
  ghost predicate Told(before: seq<User>, users: seq<User>, new_: seq<Ref>, up: seq<Ref>, gone: seq<Ref>) {
    && |users| == |before|
    && forall i :: 0 <= i < |users| ==>
         users[i].token == before[i].token && users[i].log == MergeLog(before[i].log, new_, up, gone)
  }

  ghost predicate Heard(before: seq<User>, users: seq<User>, m: Message) {
    && |users| == |before|
    && forall i :: 0 <= i < |users| ==>
         users[i].token == before[i].token && users[i].log == before[i].log + [m]
  }

  /** Every user has been told that just these items are gone, and nothing if none is. */
  ghost predicate Dropping(before: seq<User>, users: seq<User>, left: set<Ref>) {
    if left == {} then users == before
    else exists gone :: Refs(gone) == left && Heard(before, users, Remove(gone))
  }

  lemma AsDropped(before: seq<User>, users: seq<User>, left: set<Ref>, gone: seq<Ref>)
    requires forall r :: r in gone <==> r in left
    requires if gone == [] then users == before else Heard(before, users, Remove(gone))
    ensures Dropping(before, users, left)
  {
    assert Refs(gone) == left;
    if gone != [] {
      assert gone[0] in left;
    }
  }

  /** Every user has gone on from what it had been told with these messages. */
  ghost predicate GoneOn(before: seq<User>, users: seq<User>, ms: seq<Message>) {
    |users| == |before| && forall i :: 0 <= i < |users| ==> before[i].log + ms <= users[i].log
  }

  /** Users are told more, and nothing is taken back. */
  ghost predicate Longer(before: seq<User>, users: seq<User>) {
    |users| == |before| && forall i :: 0 <= i < |users| ==> before[i].log <= users[i].log
  }

  /** After `lead`, every user has been told that a scan starts, then what was pending, and then the rest. */
  ghost predicate Began(before: seq<User>, users: seq<User>, lead: seq<Message>,
                        new_: seq<Ref>, up: seq<Ref>, gone: seq<Ref>)
  {
    && |users| == |before|
    && forall i :: 0 <= i < |users| ==> MergeLog(before[i].log + lead + [StartScan], new_, up, gone) <= users[i].log
  }

  /** A scan has been started anew for every user, after something else that it was told. */
  ghost predicate Restarted(before: seq<User>, users: seq<User>) {
    |users| == |before| && forall i :: 0 <= i < |users| ==> StartsLater(before[i].log, users[i].log)
  }

  ghost predicate StartsLater(before: seq<Message>, log: seq<Message>) {
    exists mid :: before <= mid && mid + [StartScan] <= log
  }

  lemma MergeViews(before: seq<User>, users: seq<User>, known: map<Name, Ref>,
                   new_: seq<Ref>, up: seq<Ref>, gone: seq<Ref>, items: map<Ref, DirItem>, nextId: nat,
                   doubled: bool, recreated: bool, scanning: bool)
    requires Sound(items, nextId, known, new_, up, gone, doubled)
    requires Views(before, known, new_, gone, nextId, doubled, recreated)
    requires Told(before, users, new_, up, gone)
    ensures Views(users, Merged(known, new_), [], [], nextId, doubled,
                  recreated || NamesOf(new_) * NamesOf(gone) != {})
    ensures !doubled ==> Agree(users, Merged(known, new_))
    ensures Follow(before, scanning, users, scanning)
  {
    forall i | 0 <= i < |users|
      ensures ViewOk(users[i].log, Merged(known, new_), [], [], nextId, doubled,
                     recreated || NamesOf(new_) * NamesOf(gone) != {})
      ensures !doubled ==> forall r :: r in View(users[i].log) <==> IsKnown(Merged(known, new_), r)
      ensures ShownScanning(users[i].log) == ShownScanning(before[i].log)
    {
      MergeViewOk(before[i].log, known, new_, up, gone, items, nextId, doubled, recreated);
      MergeShows(before[i].log, new_, up, gone);
    }
  }

  lemma LookedAt(items: map<Ref, DirItem>, nextId: nat, known: map<Name, Ref>, new_: seq<Ref>, up: seq<Ref>,
                 gone: seq<Ref>, doubled: bool, recheck: seq<Name>, checked: set<Name>, listed: set<Name>,
                 r: Ref, info: Option<int>)
    requires Sound(items, nextId, known, new_, up, gone, doubled) && r in items
    requires Queued(items, known, [], recheck, checked, listed)
    ensures Sound(items[r := DirItem(false, info)], nextId, known, new_, up, gone, doubled)
    ensures Sound(items[r := DirItem(false, info)], nextId, known, new_, up + [r], gone, doubled)
    ensures Queued(items[r := DirItem(false, info)], known, [], recheck, checked, listed)
  {
  }

  /** A name that is gone from the disk leaves the table at once, and the views at the next merge. */
  lemma NameGone(users: seq<User>, items: map<Ref, DirItem>, nextId: nat, known: map<Name, Ref>, new_: seq<Ref>,
                 up: seq<Ref>, gone: seq<Ref>, doubled: bool, recreated: bool,
                 recheck: seq<Name>, checked: set<Name>, listed: set<Name>, n: Name)
    requires Sound(items, nextId, known, new_, up, gone, doubled) && n in known && !items[known[n]].flagged
    requires Views(users, known, new_, gone, nextId, doubled, recreated)
    requires Queued(items, known, [], recheck, checked, listed)
    ensures Sound(items, nextId, known - {n}, new_, up, gone + [known[n]], doubled)
    ensures Views(users, known - {n}, new_, gone + [known[n]], nextId, doubled, recreated)
    ensures Queued(items, known - {n}, [], recheck, checked, listed)
  {
    forall i | 0 <= i < |users|
      ensures ViewOk(users[i].log, known - {n}, new_, gone + [known[n]], nextId, doubled, recreated)
    {
      assert ViewOk(users[i].log, known, new_, gone, nextId, doubled, recreated);
    }
  }

  /** A new item is nobody's yet. */
  lemma NameNew(users: seq<User>, items: map<Ref, DirItem>, nextId: nat, known: map<Name, Ref>, new_: seq<Ref>,
                up: seq<Ref>, gone: seq<Ref>, doubled: bool, recreated: bool, r: Ref, item: DirItem)
    requires Sound(items, nextId, known, new_, up, gone, doubled) && r.name !in known && r.id == nextId
    requires Views(users, known, new_, gone, nextId, doubled, recreated)
    ensures Sound(items[r := item], nextId + 1, known, new_ + [r], up, gone, doubled || r.name in NamesOf(new_))
    ensures Sound(items[r := item], nextId + 1, known, new_ + [r], up + [r], gone, doubled || r.name in NamesOf(new_))
    ensures Views(users, known, new_ + [r], gone, nextId + 1, doubled || r.name in NamesOf(new_), recreated)
  {
    forall i | 0 <= i < |new_| && r.name !in NamesOf(new_)
      ensures new_[i].name != r.name
    {
      assert new_[i] in new_;
    }
    forall i | 0 <= i < |users|
      ensures ViewOk(users[i].log, known, new_ + [r], gone, nextId + 1, doubled || r.name in NamesOf(new_), recreated)
    {
      assert ViewOk(users[i].log, known, new_, gone, nextId, doubled, recreated);
    }
  }

  lemma NewQueued(items: map<Ref, DirItem>, nextId: nat, known: map<Name, Ref>, recheck: seq<Name>,
                  checked: set<Name>, listed: set<Name>, r: Ref, item: DirItem)
    requires Queued(items, known, [], recheck, checked, listed) && !item.flagged
    ensures Queued(items[r := item], known, [], recheck, checked, listed)
  {
  }

  /** Unlisted names leave the table and the views at the same time. */
  lemma MissingRemoved(log: seq<Message>, known: map<Name, Ref>, nextId: nat, doubled: bool, recreated: bool,
                       kept: map<Name, Ref>, deleted: seq<Ref>)
    requires ViewOk(log, known, [], [], nextId, doubled, recreated)
    requires forall n :: n in known ==> known[n].name == n
    requires forall n :: n in kept ==> n in known && kept[n] == known[n] && known[n] !in deleted
    requires forall r :: r in deleted <==> IsKnown(known, r) && r.name !in kept
    ensures ViewOk(log + [Remove(deleted)], kept, [], [], nextId, doubled, recreated)
  {
    Appended(log, Remove(deleted));
    var w := ViewByName(log + [Remove(deleted)]);
    forall r | r in w
      ensures r in View(log + [Remove(deleted)])
    {
      assert r !in deleted;
    }
    forall n | n in kept
      ensures n !in NamesOf(deleted)
    {
    }
  }

  /** One listed name: a known item is flagged, a new one starts out flagged. */
  lemma NameListed(items: map<Ref, DirItem>, nextId: nat, known: map<Name, Ref>, new_: seq<Ref>, doubled: bool,
                   listed: set<Name>, r: Ref, item: DirItem)
    requires Sound(items, nextId, known, new_, [], [], doubled) && IsKnown(known, r)
    requires Queued(items, known, new_, [], {}, listed) && r.name in listed
    ensures Sound(items[r := item], nextId, known, new_, [], [], doubled)
    ensures Queued(items[r := item], known, new_, [], {}, listed)
  {
  }

  lemma NewListed(items: map<Ref, DirItem>, nextId: nat, known: map<Name, Ref>, new_: seq<Ref>,
                  listed: set<Name>, r: Ref, item: DirItem)
    requires Queued(items, known, new_, [], {}, listed) && r.name in listed && r !in items
    ensures Queued(items[r := item], known, new_ + [r], [], {}, listed)
  {
  }

  /** Queueing a flagged item that somebody shows. */
  lemma ItemQueued(items: map<Ref, DirItem>, nextId: nat, known: map<Name, Ref>, new_: seq<Ref>, up: seq<Ref>,
                   gone: seq<Ref>, doubled: bool, recheck: seq<Name>, checked: set<Name>, listed: set<Name>, r: Ref)
    requires Sound(items, nextId, known, new_, up, gone, doubled) && r in items && items[r].flagged
    requires Queued(items, known, [], recheck, checked, listed)
    ensures Sound(items[r := items[r].(flagged := false)], nextId, known, new_, up, gone, doubled)
    ensures Queued(items[r := items[r].(flagged := false)], known, [], [r.name] + recheck, checked, listed)
  {
  }

  function Kept(known: map<Name, Ref>, keep: seq<Name>): (r: map<Name, Ref>)
    ensures forall n :: n in r <==> n in known && n in keep
    ensures forall n :: n in r ==> r[n] == known[n]
  {
    map n | n in known && n in keep :: known[n]
  }

  function Dropped(known: map<Name, Ref>, keep: seq<Name>): (r: set<Ref>)
    requires forall n :: n in known ==> known[n].name == n
    ensures forall x :: x in r <==> IsKnown(known, x) && x.name !in keep
  {
    set n | n in known && n !in keep :: known[n]
  }

  ghost predicate Marked(items: map<Ref, DirItem>, known: map<Name, Ref>, new_: seq<Ref>, done: seq<Name>) {
    && DistinctNames(new_)
    && (forall r :: r in new_ ==> r.name in done && r in items && items[r].flagged)
    && (forall n :: n in done ==>
         if n in known then known[n] in items && items[known[n]].flagged else n in NamesOf(new_))
  }

  /** Every known item is still flagged, or its name is on the list, or has been looked at. */
  predicate AllDue(items: map<Ref, DirItem>, known: map<Name, Ref>, recheck: seq<Name>, looked: set<Name>) {
    forall n :: n in known ==> known[n] in items && (items[known[n]].flagged || n in recheck || n in looked)
  }

  predicate NewLooked(new_: seq<Ref>, looked: set<Name>) {
    forall r :: r in new_ ==> r.name in looked
  }

  /** Nothing that this window cares about is left flagged. */
  predicate CaresFor(cares: (nat, Name) -> bool, token: nat, items: map<Ref, DirItem>, known: map<Name, Ref>) {
    forall n :: n in known && cares(token, n) ==> known[n] in items && !items[known[n]].flagged
  }

  /** The same for all windows from `first` on. */
  predicate Cared(users: seq<User>, first: nat, cares: (nat, Name) -> bool,
                  items: map<Ref, DirItem>, known: map<Name, Ref>)
  {
    forall i :: first <= i < |users| ==> CaresFor(cares, users[i].token, items, known)
  }

  /** Some window cares about each of these names. */
  predicate Wanted(users: seq<User>, cares: (nat, Name) -> bool, names: seq<Name>) {
    forall n :: n in names ==> SomeoneCares(users, cares, n)
  }

  predicate SomeoneCares(users: seq<User>, cares: (nat, Name) -> bool, name: Name) {
    exists i :: 0 <= i < |users| && cares(users[i].token, name)
  }

  lemma WantedOn(start: seq<User>, was: bool, before: seq<User>, s: bool, users: seq<User>, scanning: bool,
                 cares: (nat, Name) -> bool, names: seq<Name>, fewer: seq<Name>)
    requires Follow(start, was, before, s) && Follow(start, was, users, scanning)
    requires Wanted(before, cares, names) && forall n :: n in fewer ==> n in names
    ensures Wanted(users, cares, fewer)
  {
    forall n | n in fewer
      ensures SomeoneCares(users, cares, n)
    {
      assert SomeoneCares(before, cares, n);
      var i :| 0 <= i < |before| && cares(before[i].token, n);
      assert users[i].token == before[i].token;
    }
  }

  /** Flags have only been taken off. */
  predicate OnlyUnflagged(before: map<Ref, DirItem>, items: map<Ref, DirItem>) {
    items.Keys == before.Keys && forall r :: r in items && items[r].flagged ==> before[r].flagged
  }

  lemma UnflaggedCared(users: seq<User>, first: nat, cares: (nat, Name) -> bool,
                       before: map<Ref, DirItem>, items: map<Ref, DirItem>, known: map<Name, Ref>)
    requires Cared(users, first, cares, before, known) && OnlyUnflagged(before, items)
    ensures Cared(users, first, cares, items, known)
  {
    forall i | first <= i < |users|
      ensures CaresFor(cares, users[i].token, items, known)
    {
      assert CaresFor(cares, users[i].token, before, known);
    }
  }

  /** Whom a window is does not depend on what it is told. */
  lemma CaredFollow(start: seq<User>, was: bool, before: seq<User>, s: bool, users: seq<User>, t: bool, first: nat,
                    cares: (nat, Name) -> bool, items: map<Ref, DirItem>, known: map<Name, Ref>)
    requires Follow(start, was, before, s) && Follow(start, was, users, t)
    requires Cared(before, first, cares, items, known)
    ensures Cared(users, first, cares, items, known)
  {
    forall i | first <= i < |users|
      ensures CaresFor(cares, users[i].token, items, known)
    {
      assert users[i].token == before[i].token && CaresFor(cares, before[i].token, items, known);
    }
  }

  /** A look at one name leaves nothing flagged that was not. */
  lemma LookFresh(items: map<Ref, DirItem>, nextId: nat, known: map<Name, Ref>, new_: seq<Ref>, up: seq<Ref>,
                  gone: seq<Ref>, doubled: bool, recheck: seq<Name>, looked: set<Name>, leaf: Name, info: Option<int>,
                  users: seq<User>, cares: (nat, Name) -> bool, unread: bool)
    requires Sound(items, nextId, known, new_, up, gone, doubled)
    requires AllDue(items, known, recheck, looked) && leaf in looked
    requires !unread ==> Cared(users, 0, cares, items, known)
    ensures var r := if leaf in known then known[leaf] else Ref(nextId, leaf);
            var items' := items[r := DirItem(false, info)];
            && AllDue(items', known, recheck, looked) && (!unread ==> Cared(users, 0, cares, items', known))
            && AllDue(items', known - {leaf}, recheck, looked)
            && (!unread ==> Cared(users, 0, cares, items', known - {leaf}))
  {
    var r := if leaf in known then known[leaf] else Ref(nextId, leaf);
    var items' := items[r := DirItem(false, info)];
    forall i | 0 <= i < |users| && !unread
      ensures CaresFor(cares, users[i].token, items', known) && CaresFor(cares, users[i].token, items', known - {leaf})
    {
      assert CaresFor(cares, users[i].token, items, known);
    }
  }

  /** So does a merge, when no new item is flagged. */
  lemma MergeFresh(items: map<Ref, DirItem>, nextId: nat, known: map<Name, Ref>, new_: seq<Ref>, up: seq<Ref>,
                   gone: seq<Ref>, doubled: bool, recheck: seq<Name>, looked: set<Name>,
                   before: seq<User>, users: seq<User>, cares: (nat, Name) -> bool, unread: bool)
    requires Sound(items, nextId, known, new_, up, gone, doubled) && forall r :: r in new_ ==> !items[r].flagged
    requires AllDue(items, known, recheck, looked) && NewLooked(new_, looked)
    requires !unread ==> Cared(before, 0, cares, items, known)
    requires Told(before, users, new_, up, gone)
    ensures AllDue(items - Refs(gone), Merged(known, new_), recheck, looked)
    ensures !unread ==> Cared(users, 0, cares, items - Refs(gone), Merged(known, new_))
  {
    MergedKnown(known, new_);
    var items', known' := items - Refs(gone), Merged(known, new_);
    forall n | n in known'
      ensures known'[n] in items' && items'[known'[n]] == items[known'[n]]
    {
      assert n in known && known'[n] == known[n] ==> known[n] !in gone;
    }
    forall i | 0 <= i < |users| && !unread
      ensures CaresFor(cares, users[i].token, items', known')
    {
      assert CaresFor(cares, before[i].token, items, known);
    }
  }

  lemma MarkedKnown(items: map<Ref, DirItem>, known: map<Name, Ref>, new_: seq<Ref>, done: seq<Name>, name: Name,
                    item: DirItem)
    requires Marked(items, known, new_, done) && name in known && item.flagged
    ensures Marked(items[known[name] := item], known, new_, done + [name])
  {
  }

  lemma MarkedNew(items: map<Ref, DirItem>, known: map<Name, Ref>, new_: seq<Ref>, done: seq<Name>, r: Ref,
                  item: DirItem)
    requires Marked(items, known, new_, done) && r.name !in known && r.name !in done && item.flagged && r !in items
    requires forall n :: n in known ==> known[n].name == n
    ensures Marked(items[r := item], known, new_ + [r], done + [r.name])
  {
    forall i | 0 <= i < |new_|
      ensures new_[i].name != r.name
    {
      assert new_[i] in new_;
    }
    assert forall n :: n in NamesOf(new_) ==> n in NamesOf(new_ + [r]);
    assert r in new_ + [r];
  }

  lemma FollowOn(a: seq<User>, s: bool, b: seq<User>, t: bool, c: seq<User>, u: bool)
    requires Follow(a, s, b, t) && Follow(b, t, c, u)
    ensures Follow(a, s, c, u)
  {
    forall i | 0 <= i < |c| && ShownScanning(a[i].log) && u
      ensures ShownScanning(c[i].log)
    {
      assert t ==> ShownScanning(b[i].log);
    }
  }

  lemma Popped(items: map<Ref, DirItem>, known: map<Name, Ref>, recheck: seq<Name>, checked: set<Name>,
               listed: set<Name>)
    requires Queued(items, known, [], recheck, checked, listed) && recheck != []
    ensures Queued(items, known, [], recheck[1..], checked + {recheck[0]}, listed)
  {
  }

  predicate AllShown(known: map<Name, Ref>, shown: set<Ref>) {
    forall n :: n in known ==> known[n] in shown
  }

  /**
   * A window that drops by name comes out of a merge with everything known exactly when
   * no name was both gone and new in it: otherwise it loses the item that came back.
   */
  lemma ByNameExactly(log: seq<Message>, items: map<Ref, DirItem>, nextId: nat, known: map<Name, Ref>,
                      new_: seq<Ref>, up: seq<Ref>, gone: seq<Ref>)
    requires Sound(items, nextId, known, new_, up, gone, false)
    requires ViewOk(log, known, new_, gone, nextId, false, false)
    ensures AllShown(Merged(known, new_), ViewByName(MergeLog(log, new_, up, gone)))
      <==> NamesOf(new_) * NamesOf(gone) == {}
  {
    MergeViewOk(log, known, new_, up, gone, items, nextId, false, false);
    if NamesOf(new_) * NamesOf(gone) != {} {
      var n :| n in NamesOf(new_) * NamesOf(gone);
      var r :| r in new_ && r.name == n;
      MergeShows(log, new_, up, gone);
      MergedKnown(known, new_);
      assert IsKnown(Merged(known, new_), r) && r !in ViewByName(MergeLog(log, new_, up, gone));
    }
  }

  /** The views come out of a merge as the table exactly when no name was new twice in it. */
  lemma DoubledExactly(log: seq<Message>, items: map<Ref, DirItem>, nextId: nat, known: map<Name, Ref>,
                       new_: seq<Ref>, up: seq<Ref>, gone: seq<Ref>)
    requires Sound(items, nextId, known, new_, up, gone, true) && Distinct(new_)
    requires ViewOk(log, known, new_, gone, nextId, false, true)
    ensures (forall r :: r in View(MergeLog(log, new_, up, gone)) ==> IsKnown(Merged(known, new_), r))
      <==> DistinctNames(new_)
  {
    MergeShows(log, new_, up, gone);
    MergedKnown(known, new_);
    if DistinctNames(new_) {
      MergeViewOk(log, known, new_, up, gone, items, nextId, false, true);
    } else {
      var i, j :| 0 <= i < j < |new_| && new_[i].name == new_[j].name;
      assert new_[i] in new_ && new_[j] in new_ && new_[i] != new_[j];
      assert new_[i] in View(MergeLog(log, new_, up, gone)) && new_[j] in View(MergeLog(log, new_, up, gone));
    }
  }

  lemma {:induction false} DistinctSize(names: seq<Name>)
    requires Distinct(names)
    ensures |set n | n in names| == |names|
  {
    if names != [] {
      var rest := names[1..];
      DistinctSize(rest);
      assert (set n | n in names) == (set n | n in rest) + {names[0]};
    } else {
      assert (set n | n in names) == {};
    }
  }

  /** No listed name is rechecked twice in a scan, so the scan ends. */
  lemma ScanBounded(items: map<Ref, DirItem>, known: map<Name, Ref>, recheck: seq<Name>,
                    checked: set<Name>, listed: set<Name>)
    requires Queued(items, known, [], recheck, checked, listed)
    ensures |checked| + |recheck| <= |listed|
  {
    DistinctSize(recheck);
    var waiting := set n | n in recheck;
    assert waiting * checked == {};
    SubsetSize(waiting + checked, listed);
  }

  lemma {:induction false} SubsetSize(a: set<Name>, b: set<Name>)
    requires a <= b
    ensures |a| <= |b|
  {
    if a != {} {
      var x :| x in a;
      SubsetSize(a - {x}, b - {x});
    }
  }
}
