/** The drive monitor: scan requests from any thread, one scan at a time, one snapshot for all. */
module Drives {
  import opened Wrappers

  /** A string pointer that may be NULL. */
  type Text = Option<string>

  datatype DriveInfo = DriveInfo(
    name: Text, device: Text, label_: Text, fstype: Text, mountpoint: Text, size: Text, type_: Text,
    transport: Text, model: Text, parentDevice: Text, backingFile: Text,
    managedImage: bool, removable: bool, hardwareRemovable: bool, optical: bool, network: bool,
    portable: bool, foreign: bool, solidState: bool, systemPartition: bool, labelIsSynthetic: bool)

  predicate DriveInfoEqual(a: DriveInfo, b: DriveInfo) {
    && a.name == b.name && a.device == b.device && a.label_ == b.label_ && a.fstype == b.fstype
    && a.mountpoint == b.mountpoint && a.size == b.size && a.type_ == b.type_ && a.transport == b.transport
    && a.model == b.model && a.parentDevice == b.parentDevice && a.backingFile == b.backingFile
    && a.managedImage == b.managedImage && a.removable == b.removable
    && a.hardwareRemovable == b.hardwareRemovable && a.optical == b.optical && a.network == b.network
    && a.portable == b.portable && a.foreign == b.foreign && a.solidState == b.solidState
    && a.systemPartition == b.systemPartition && a.labelIsSynthetic == b.labelIsSynthetic
  }

  method DriveArrayEqual(a: Option<seq<DriveInfo>>, b: Option<seq<DriveInfo>>) returns (equal: bool)
    ensures equal == (a == b)
  {
    if a == None || b == None || |a.value| != |b.value| {
      return a == None && b == None;
    }
    var i := 0;
    while i < |a.value|
      invariant 0 <= i <= |a.value| && a.value[..i] == b.value[..i]
    {
      if !DriveInfoEqual(a.value[i], b.value[i]) {
        return false;
      }
      i := i + 1;
    }
    assert a.value[..i] == a.value && b.value[..i] == b.value;
    return true;
  }

  /** Who is called back: an object, held weakly, a function and its data. */
  datatype Client = Client(owner: nat, callback: nat, userData: nat)

  /** What clients have been given is still what they have, or the snapshot has come instead. */
  ghost predicate Kept(before: map<Client, seq<DriveInfo>>, now: map<Client, seq<DriveInfo>>,
                       snapshot: Option<seq<DriveInfo>>)
  {
    forall c :: c in before ==> c in now && (now[c] == before[c] || snapshot == Some(now[c]))
  }

  /** Who is on the list and lives on is still on it, and the dead stay dead. */
  ghost predicate Lasts(subs: seq<Client>, alive: set<nat>, born: set<nat>, subs': seq<Client>, alive': set<nat>,
                        born': set<nat>)
  {
    && born <= born' && born * alive' <= alive
    && forall c :: c in subs && c.owner in alive' ==> c in subs'
  }

  lemma LastsOn(s: seq<Client>, a: set<nat>, b: set<nat>, s': seq<Client>, a': set<nat>, b': set<nat>,
                s'': seq<Client>, a'': set<nat>, b'': set<nat>)
    requires Lasts(s, a, b, s', a', b') && Lasts(s', a', b', s'', a'', b'')
    requires forall c :: c in s ==> c.owner in b
    ensures Lasts(s, a, b, s'', a'', b'')
  {
    forall o | o in b * a''
      ensures o in a
    {
      assert o in b' * a'' && o in b * a';
    }
    forall c | c in s && c.owner in a''
      ensures c in s''
    {
      assert c.owner in b' * a'';
    }
  }

  /** What the main loop's work is measured against. */
  datatype Moment = Moment(snapshot: Option<seq<DriveInfo>>, lastDone: nat, delivered: map<Client, seq<DriveInfo>>,
                           errors: map<Client, nat>, subscribers: seq<Client>, alive: set<nat>, born: set<nat>,
                           clock: nat)

  ghost predicate Onward(a: Moment, b: Moment, held: set<nat>) {
    && b.snapshot == a.snapshot && b.lastDone == a.lastDone && a.clock <= b.clock
    && Kept(a.delivered, b.delivered, a.snapshot)
    && Lasts(a.subscribers, a.alive, a.born, b.subscribers, b.alive, b.born)
    && held * a.alive <= b.alive && forall c :: Count(a.errors, c) <= Count(b.errors, c)
  }

  /** Everybody who was subscribed and alive has been told of one more error. */
  ghost predicate ErrorTold(subs: seq<Client>, alive: set<nat>, before: map<Client, nat>, errors: map<Client, nat>) {
    forall c :: c in subs && c.owner in alive ==> Count(errors, c) > Count(before, c)
  }

  /** Each target has been called once, with the array or with an error; nobody else has been told anything. */
  ghost predicate OnceEach(a: Moment, b: Moment, drives: Option<seq<DriveInfo>>, targets: seq<Client>) {
    if drives == None then
      && b == a.(errors := b.errors)
      && forall c :: Count(b.errors, c) == Count(a.errors, c) + multiset(targets)[c]
    else
      && b == a.(delivered := b.delivered)
      && (forall c :: c in targets ==> c in b.delivered && b.delivered[c] == drives.value)
      && (b.delivered.Keys == a.delivered.Keys + Elements(targets))
      && (forall c :: c in a.delivered && c !in targets ==> b.delivered[c] == a.delivered[c])
  }

  lemma NoneYet(a: Moment, drives: Option<seq<DriveInfo>>)
    ensures OnceEach(a, a, drives, [])
  {
  }

  lemma OnceMore(a: Moment, b: Moment, c: Moment, drives: Option<seq<DriveInfo>>, targets: seq<Client>, i: nat)
    requires i < |targets|
    ensures OnceEach(a, b, drives, targets[..i]) && OnceEach(b, c, drives, [targets[i]]) ==>
      OnceEach(a, c, drives, targets[..i + 1])
  {
    assert targets[..i + 1] == targets[..i] + [targets[i]];
  }

  function Count(errors: map<Client, nat>, c: Client): nat {
    if c in errors then errors[c] else 0
  }

  lemma OnwardOn(a: Moment, b: Moment, c: Moment, held: set<nat>)
    requires Onward(a, b, held) && Onward(b, c, held)
    requires forall x :: x in a.subscribers ==> x.owner in a.born
    ensures Onward(a, c, held)
  {
    LastsOn(a.subscribers, a.alive, a.born, b.subscribers, b.alive, b.born, c.subscribers, c.alive, c.born);
    forall o | o in held * a.alive
      ensures o in c.alive
    {
      assert o in held * b.alive;
    }
  }

  lemma NextTarget(targets: seq<Client>, i: nat)
    requires i < |targets|
    ensures Elements(targets[i..]) == Elements(targets[i + 1..]) + {targets[i]}
  {
    assert targets[i..] == [targets[i]] + targets[i + 1..];
  }

  lemma NoTarget()
    ensures Elements([]) == {}
  {
  }

  ghost predicate ErrorEach(before: map<Client, nat>, errors: map<Client, nat>, targets: seq<Client>) {
    forall c :: c in targets ==> Count(errors, c) > Count(before, c)
  }

  lemma NoneTold(errors: map<Client, nat>)
    ensures ErrorEach(errors, errors, [])
  {
  }

  lemma ErrorNext(before: map<Client, nat>, then_: map<Client, nat>, errors: map<Client, nat>,
                  targets: seq<Client>, i: nat)
    requires i < |targets| && forall c :: Count(then_, c) <= Count(errors, c)
    requires Count(before, targets[i]) <= Count(then_, targets[i])
    ensures ErrorEach(before, then_, targets[..i]) && Count(errors, targets[i]) > Count(then_, targets[i]) ==>
      ErrorEach(before, errors, targets[..i + 1])
  {
    assert targets[..i + 1] == targets[..i] + [targets[i]];
  }

  lemma OnwardStart(a: Moment, held: set<nat>)
    ensures Onward(a, a, held)
  {
  }

  lemma StillThere(a: Moment, b: Moment, held: set<nat>, targets: seq<Client>)
    requires Onward(a, b, held)
    ensures b.snapshot == a.snapshot && forall c :: Count(a.errors, c) <= Count(b.errors, c)
    ensures (forall c :: c in targets ==> c.owner in held && c.owner in a.alive) ==>
      forall c :: c in targets ==> c.owner in b.alive
  {
    forall c | c in targets && c.owner in held && c.owner in a.alive
      ensures c.owner in b.alive
    {
      assert c.owner in held * a.alive;
    }
  }

  lemma HoldsLess(a: Moment, b: Moment, held: set<nat>)
    requires Onward(a, b, held)
    ensures Onward(a, b, {})
  {
  }

  /** There is always an owner that never was. */
  lemma {:induction false} Bound(s: set<nat>) returns (bound: nat)
    ensures forall o :: o in s ==> o < bound
    decreases |s|
  {
    bound := 0;
    if s != {} {
      var o :| o in s;
      var rest := Bound(s - {o});
      bound := Max(rest, o + 1);
      assert forall x :: x in s ==> x == o || x in s - {o};
    }
  }

  function Max(a: nat, b: nat): nat {
    if a > b then a else b
  }

  function Elements(s: seq<Client>): set<Client> {
    set c | c in s
  }

  class DrivesMonitor {
    var subscribers: seq<Client>
    var snapshot: Option<seq<DriveInfo>>
    var pollSource: bool
    var scanRunning: bool
    var scanAgain: bool
    /** The atomic flag, and what it stands for: workers that have just set it, and idle calls in the main loop. */
    var requestPending: bool
    var setters: nat
    var idleRequests: nat
    /** Scans started and not yet delivered. */
    var tasks: nat
    /** Owners that still exist, and all there have ever been: no owner comes back. */
    var alive: set<nat>
    var born: set<nat>
    /** The last array each client was given without an error. */
    var delivered: map<Client, seq<DriveInfo>>
    /** How often each client was told of an error. */
    var errors: map<Client, nat>
    /** Nothing comes in between: no other thread makes a request, and callbacks do nothing by themselves. */
    const calm: bool
    /** Logical time: of the last request, of the last start of a scan, of the start of the last scan delivered. */
    ghost var clock: nat
    ghost var lastRequest: nat
    ghost var lastStart: nat
    ghost var lastDone: nat

    constructor (calm: bool)
      ensures Valid() && subscribers == [] && snapshot == None && !scanRunning && this.calm == calm
      ensures !pollSource && !scanAgain && !requestPending && delivered == map[] && errors == map[]
      ensures alive == born == {}
    {
      this.calm := calm;
      subscribers, snapshot, pollSource, scanRunning, scanAgain := [], None, false, false, false;
      requestPending, setters, idleRequests, tasks, alive, delivered, errors := false, 0, 0, 0, {}, map[], map[];
      born := {};
      clock, lastRequest, lastStart, lastDone := 0, 0, 0, 0;
    }

    /** The flag is set exactly while one request is on its way to the main loop. */
    predicate Requests()
      reads this`setters, this`idleRequests, this`requestPending
    {
      setters + idleRequests == if requestPending then 1 else 0
    }

    /** One scan at a time; another is only owed while one is running. */
    predicate Scans()
      reads this`tasks, this`scanRunning, this`scanAgain
    {
      tasks == (if scanRunning then 1 else 0) && (scanAgain ==> scanRunning)
    }

    /**
     * No request is lost: it is on its way, or a scan is owed for it, or one has started
     * since. `inHand`: the main loop is about to start one.
     */
    ghost predicate NoneLost(inHand: bool)
      reads this`requestPending, this`scanAgain, this`scanRunning
      reads this`clock, this`lastRequest, this`lastStart, this`lastDone
    {
      && (lastRequest > lastStart ==> requestPending || scanAgain || inHand)
      && lastRequest <= clock && lastStart <= clock
      && (scanRunning ==> lastDone <= lastStart) && (!scanRunning ==> lastDone == lastStart)
    }

    predicate Good(c: Client)
      reads this`snapshot, this`delivered
    {
      snapshot.Some? ==> c in delivered && delivered[c] == snapshot.value
    }

    /** Every live subscriber has the snapshot, but for those still `due` to be called. */
    ghost predicate Informed(due: set<Client>)
      reads this`subscribers, this`alive, this`snapshot, this`delivered
    {
      forall c :: c in subscribers && c.owner in alive && c !in due ==> Good(c)
    }

    ghost predicate Owned()
      reads this`alive, this`born, this`subscribers
    {
      alive <= born && forall c :: c in subscribers ==> c.owner in born
    }

    ghost predicate NoneDead()
      reads this`subscribers, this`alive
    {
      forall c :: c in subscribers ==> c.owner in alive
    }

    ghost predicate Valid()
      reads this
    {
      Steady(false, {})
    }

    /** First half of a request, on any thread: the atomic exchange. */
    method RequestExchange()
      requires Requests()
      modifies this`requestPending, this`setters, this`clock, this`lastRequest
      ensures Requests() && requestPending && clock > old(clock) && lastRequest == clock
    {
      clock := clock + 1;
      lastRequest := clock;
      if !requestPending {
        requestPending := true;
        setters := setters + 1;
      }
    }

    /** Second half, later, on the same thread. */
    method RequestIdleAdd()
      requires Requests() && setters > 0
      modifies this`setters, this`idleRequests
      ensures Requests() && idleRequests == old(idleRequests) + 1
    {
      setters := setters - 1;
      idleRequests := idleRequests + 1;
    }

    /** All that a scan may still be needed for. */
    ghost function Load(): (bool, nat, nat, nat, bool, bool, nat)
      reads this`requestPending, this`setters, this`idleRequests, this`lastRequest
      reads this`scanRunning, this`scanAgain, this`tasks
    {
      (requestPending, setters, idleRequests, lastRequest, scanRunning, scanAgain, tasks)
    }

    /** Whatever other threads do meanwhile. */
    method Interfere(ghost inHand: bool)
      requires Requests() && NoneLost(inHand)
      modifies this`requestPending, this`setters, this`idleRequests, this`clock, this`lastRequest
      ensures Requests() && NoneLost(inHand) && lastRequest >= old(lastRequest) && clock >= old(clock)
      ensures calm ==> Load() == old(Load())
    {
      var steps: int := *;
      while steps > 0 && !calm
        invariant Requests() && NoneLost(inHand) && lastRequest >= old(lastRequest) && clock >= old(clock)
        invariant calm ==> Load() == old(Load())
      {
        var add: bool := *;
        if add && setters > 0 {
          RequestIdleAdd();
        } else {
          RequestExchange();
        }
        steps := steps - 1;
      }
    }

    method StartScan(ghost inHand: bool)
      requires Scans() && NoneLost(inHand)
      modifies this`scanRunning, this`scanAgain, this`tasks, this`clock, this`lastStart
      ensures Scans() && NoneLost(false) && scanRunning
      ensures old(scanRunning) ==> scanAgain && lastStart == old(lastStart) && tasks == old(tasks)
      ensures !old(scanRunning) ==> lastStart > old(clock) && scanAgain == old(scanAgain)
      ensures clock >= old(clock)
    {
      if scanRunning {
        scanAgain := true;
        return;
      }
      scanRunning := true;
      tasks := tasks + 1;
      clock := clock + 1;
      lastStart := clock;
    }

    /** A scan has been asked for: one starts now, or is owed after the one that is running. */
    twostate predicate Asked()
      reads this
    {
      scanRunning && if old(scanRunning) then scanAgain else lastStart > old(clock)
    }

    /** The idle call of a request: the flag is cleared first, and anything may come before the scan is asked for. */
    method RequestScanInMain()
      requires Valid() && idleRequests > 0
      modifies this
      ensures Valid() && Asked()
      ensures calm ==> !requestPending && lastRequest == old(lastRequest) && scanAgain == old(scanRunning)
    {
      requestPending := false;
      idleRequests := idleRequests - 1;
      Interfere(true);
      StartScan(true);
    }

    method CompactSubscribers()
      modifies this`subscribers
      ensures forall c :: c in subscribers <==> c in old(subscribers) && c.owner in alive
      ensures old(subscribers) == [] ==> subscribers == []
    {
      var i := |subscribers| - 1;
      while i >= 0
        invariant -1 <= i < |subscribers|
        invariant forall c :: c in subscribers ==> c in old(subscribers)
        invariant forall c :: c in old(subscribers) && c.owner in alive ==> c in subscribers
        invariant forall j :: i < j < |subscribers| ==> subscribers[j].owner in alive
        invariant old(subscribers) == [] ==> subscribers == []
      {
        if subscribers[i].owner !in alive {
          RemoveAt(subscribers, i);
          subscribers := subscribers[..i] + subscribers[i + 1..];
        }
        i := i - 1;
      }
    }

    method UpdatePollState()
      modifies this`subscribers, this`pollSource
      ensures forall c :: c in subscribers <==> c in old(subscribers) && c.owner in alive
      ensures pollSource == (subscribers != [])
    {
      CompactSubscribers();
      if subscribers != [] {
        pollSource := true;
      } else if pollSource {
        pollSource := false;
      }
    }

    /** What holds in the middle of anything the main loop does. */
    ghost predicate Steady(inHand: bool, due: set<Client>)
      reads this
    {
      Requests() && Scans() && NoneLost(inHand) && Informed(due) && Owned() && (subscribers != [] ==> pollSource)
    }

    ghost function Now(): Moment
      reads this
    {
      Moment(snapshot, lastDone, delivered, errors, subscribers, alive, born, clock)
    }

    /** A client is called back with the snapshot, and does what it likes. */
    method Deliver(c: Client, budget: nat, held: set<nat>, ghost inHand: bool, ghost due: set<Client>)
      requires snapshot.Some? && Steady(inHand, due + {c}) && c.owner in alive
      modifies this
      decreases budget, 1
      ensures Steady(inHand, due) && Onward(old(Now()), Now(), held) && Good(c)
      ensures calm ==> Load() == old(Load()) && Now() == old(Now()).(delivered := old(delivered)[c := snapshot.value])
    {
      delivered := delivered[c := snapshot.value];
      ghost var told := Now();
      React(budget, held, inHand, due);
      OnwardOn(old(Now()), told, Now(), held);
    }

    /** What a callback may do, as often as it likes. */
    method React(budget: nat, held: set<nat>, ghost inHand: bool, ghost due: set<Client>)
      requires Steady(inHand, due)
      modifies this
      decreases budget, 0, 1
      ensures Steady(inHand, due) && Onward(old(Now()), Now(), held)
      ensures calm ==> Load() == old(Load()) && Now() == old(Now())
    {
      var steps: int := *;
      while steps > 0 && !calm
        invariant Steady(inHand, due) && Onward(old(Now()), Now(), held)
        invariant calm ==> Load() == old(Load()) && Now() == old(Now())
      {
        ghost var then_ := Now();
        Act(budget, held, inHand, due);
        OnwardOn(old(Now()), then_, Now(), held);
        steps := steps - 1;
      }
    }

    /** It may subscribe others, ask for scans, make objects, and let go of objects that are not held. */
    method Act(budget: nat, held: set<nat>, ghost inHand: bool, ghost due: set<Client>)
      requires Steady(inHand, due)
      modifies this
      decreases budget, 0, 0
      ensures Steady(inHand, due) && Onward(old(Now()), Now(), held)
    {
      var what: int, c: Client, o: int := *, *, *;
      if what == 0 && budget > 0 && c.owner in alive {
        Subscribe(c, budget - 1, held, inHand, due);
      } else if what == 1 {
        var born_ := OwnerBorn(inHand, due);
      } else if what == 2 && o >= 0 && o !in held {
        OwnerDies(o, inHand, due);
      } else {
        Interfere(inHand);
      }
    }

    method OwnerBorn(ghost inHand: bool, ghost due: set<Client>) returns (o: nat)
      requires Steady(inHand, due)
      modifies this`alive, this`born
      ensures Steady(inHand, due) && o !in old(born) && alive == old(alive) + {o} && born == old(born) + {o}
    {
      ghost var bound := Bound(born);
      assert bound !in born;
      o :| o !in born;
      alive, born := alive + {o}, born + {o};
    }

    method OwnerDies(o: nat, ghost inHand: bool, ghost due: set<Client>)
      requires Steady(inHand, due)
      modifies this`alive
      ensures Steady(inHand, due) && alive == old(alive) - {o}
    {
      alive := alive - {o};
    }

    method Subscribe(c: Client, budget: nat, held: set<nat>, ghost inHand: bool, ghost due: set<Client>)
      requires Steady(inHand, due) && c.owner in alive
      modifies this
      decreases budget, 2
      ensures Steady(inHand, due) && Onward(old(Now()), Now(), held)
      ensures c.owner in alive ==> c in subscribers
      ensures snapshot.Some? ==> Good(c)
      ensures snapshot == None ==> scanRunning || c in old(subscribers)
      ensures (forall x :: x in old(subscribers) ==> x.owner !in old(alive)) ==>
        scanRunning && (scanAgain || lastStart > old(clock))
    {
      CompactSubscribers();
      ghost var compact := Now();
      assert subscribers != [] ==> subscribers[0] in old(subscribers) && subscribers[0].owner in old(alive);
      if c in subscribers {
        SubscribeAgain(c, budget, held, inHand, due);
      } else {
        SubscribeNew(c, budget, held, inHand, due);
      }
      OnwardOn(old(Now()), compact, Now(), held);
    }

    method SubscribeAgain(c: Client, budget: nat, held: set<nat>, ghost inHand: bool, ghost due: set<Client>)
      requires Steady(inHand, due) && c.owner in alive && c in subscribers
      modifies this
      decreases budget, 2, 0
      ensures Steady(inHand, due) && Onward(old(Now()), Now(), held)
      ensures c.owner in alive ==> c in subscribers
      ensures snapshot.Some? ==> Good(c)
      ensures NoneDead() && pollSource == (subscribers != [])
    {
      if snapshot.Some? {
        Deliver(c, budget, held, inHand, due);
      }
      ghost var told := Now();
      UpdatePollState();
      OnwardOn(old(Now()), told, Now(), held);
    }

    method SubscribeNew(c: Client, budget: nat, held: set<nat>, ghost inHand: bool, ghost due: set<Client>)
      requires Steady(inHand, due) && c.owner in alive
      modifies this
      decreases budget, 2, 0
      ensures Steady(inHand, due) && Onward(old(Now()), Now(), held)
      ensures c.owner in alive ==> c in subscribers
      ensures if snapshot.Some? then Good(c) else scanRunning
      ensures old(subscribers) == [] ==> scanRunning && (scanAgain || lastStart > old(clock))
    {
      ghost var before := Now();
      assert forall x :: x in before.subscribers ==> x.owner in before.born;
      hide Steady, Good;
      var firstLive := subscribers == [];
      AddSubscriber(c, inHand, due);
      ghost var added := Now();
      if snapshot.Some? {
        Deliver(c, budget, held, inHand, due);
      }
      OnwardOn(before, added, Now(), held);
      if snapshot == None || firstLive {
        StartSteady(inHand, due);
      }
    }

    method StartSteady(ghost inHand: bool, ghost due: set<Client>)
      requires Steady(inHand, due)
      modifies this`scanRunning, this`scanAgain, this`tasks, this`clock, this`lastStart
      ensures Steady(inHand, due) && scanRunning && (scanAgain || lastStart > old(clock)) && clock >= old(clock)
    {
      StartScan(inHand);
    }

    method AddSubscriber(c: Client, ghost inHand: bool, ghost due: set<Client>)
      requires Steady(inHand, due) && c.owner in alive
      modifies this`subscribers, this`pollSource
      ensures Steady(inHand, if snapshot.Some? then due + {c} else due) && c in subscribers
      ensures forall x :: x in old(subscribers) && x.owner in alive ==> x in subscribers
    {
      subscribers := subscribers + [c];
      UpdatePollState();
    }

    method TellError(c: Client, budget: nat, held: set<nat>, ghost inHand: bool)
      requires Steady(inHand, {}) && c.owner in alive
      modifies this
      ensures Steady(inHand, {}) && Onward(old(Now()), Now(), held)
      ensures calm ==>
        Load() == old(Load()) && Now() == old(Now()).(errors := old(errors)[c := Count(old(errors), c) + 1])
      ensures Count(errors, c) > Count(old(errors), c)
    {
      errors := errors[c := Count(errors, c) + 1];
      ghost var told := Now();
      React(budget, held, inHand, {});
      OnwardOn(old(Now()), told, Now(), held);
    }

    /** Everybody who lives and is subscribed now is called back, whatever the callbacks change. */
    method NotifySubscribers(drives: Option<seq<DriveInfo>>, ghost inHand: bool)
      requires Steady(inHand, if drives.Some? then Elements(subscribers) else {})
      requires drives.Some? ==> drives == snapshot
      modifies this
      ensures Steady(inHand, {}) && Onward(old(Now()), Now(), {})
      ensures calm ==> Load() == old(Load())
      ensures drives == None ==> ErrorTold(old(subscribers), old(alive), old(errors), errors)
      ensures NoneDead() && pollSource == (subscribers != [])
    {
      ghost var before, all := Now(), Elements(subscribers);
      assert forall c :: c in before.subscribers ==> c.owner in before.born;
      hide Steady, Onward, Load, OnceEach;
      Compact(inHand, if drives.Some? then all else {});
      assert {} * Elements(subscribers) == {} && all * Elements(subscribers) == Elements(subscribers);
      ghost var compact := Now();
      if subscribers == [] {
        Polls(inHand);
        OnwardOn(before, compact, Now(), {});
        return;
      }
      CallAll(drives, inHand);
      OnwardOn(before, compact, Now(), {});
    }

    method CallAll(drives: Option<seq<DriveInfo>>, ghost inHand: bool)
      requires Steady(inHand, if drives.Some? then Elements(subscribers) else {}) && NoneDead()
      requires drives.Some? ==> drives == snapshot
      modifies this
      ensures Steady(inHand, {}) && Onward(old(Now()), Now(), {})
      ensures calm ==>
        Load() == old(Load()) &&
        OnceEach(old(Now()), Now().(subscribers := old(subscribers)), drives, old(subscribers))
      ensures drives == None ==> ErrorTold(old(subscribers), old(alive), old(errors), errors)
      ensures NoneDead() && pollSource == (subscribers != [])
    {
      ghost var before := Now();
      assert forall c :: c in before.subscribers ==> c.owner in before.born;
      hide Steady, Onward, Load;
      CallTargets(drives, subscribers, set c | c in subscribers :: c.owner, inHand);
      ghost var told := Now();
      Tidy(inHand);
      OnwardOn(before, told, Now(), {});
    }

    method Polls(ghost inHand: bool)
      requires Steady(inHand, {})
      modifies this`subscribers, this`pollSource
      ensures Steady(inHand, {}) && Onward(old(Now()), Now(), {})
      ensures NoneDead() && pollSource == (subscribers != [])
    {
      UpdatePollState();
    }

    method Tidy(ghost inHand: bool)
      requires Steady(inHand, {})
      modifies this`subscribers, this`pollSource
      ensures Steady(inHand, {}) && Onward(old(Now()), Now(), {}) && Load() == old(Load())
      ensures NoneDead() && pollSource == (subscribers != [])
    {
      CompactSubscribers();
      UpdatePollState();
    }

    /** The dead are dropped, which changes nothing for the living. */
    method Compact(ghost inHand: bool, ghost due: set<Client>)
      requires Steady(inHand, due)
      modifies this`subscribers
      ensures Steady(inHand, due * Elements(subscribers)) && Onward(old(Now()), Now(), {})
      ensures forall c :: c in subscribers <==> c in old(subscribers) && c.owner in alive
    {
      CompactSubscribers();
    }

    method CallTargets(drives: Option<seq<DriveInfo>>, targets: seq<Client>, held: set<nat>, ghost inHand: bool)
      requires Steady(inHand, if drives.Some? then Elements(targets) else {})
      requires drives.Some? ==> drives == snapshot
      requires forall c :: c in targets ==> c.owner in held && c.owner in alive
      modifies this
      ensures Steady(inHand, {}) && Onward(old(Now()), Now(), {})
      ensures calm ==> Load() == old(Load()) && OnceEach(old(Now()), Now(), drives, targets)
      ensures drives == None ==> ErrorEach(old(errors), errors, targets)
    {
      NoneTold(errors);
      assert forall c :: c in old(Now()).subscribers ==> c.owner in old(Now()).born;
      OnwardStart(Now(), held);
      NoneYet(Now(), drives);
      hide Steady, Load, OnceEach, Onward, Elements, ErrorEach;
      var i := 0;
      assert targets[0..] == targets && targets[..0] == [];
      while i < |targets|
        invariant 0 <= i <= |targets|
        invariant Steady(inHand, if drives.Some? then Elements(targets[i..]) else {})
        invariant Onward(old(Now()), Now(), held) && snapshot == old(snapshot)
        invariant forall c :: c in targets ==> c.owner in alive
        invariant calm ==> Load() == old(Load()) && OnceEach(old(Now()), Now(), drives, targets[..i])
        invariant drives == None ==> ErrorEach(old(errors), errors, targets[..i])
      {
        ghost var then_ := Now();
        NextTarget(targets, i);
        CallTarget(drives, targets[i], held, inHand, Elements(targets[i + 1..]));
        OnwardOn(old(Now()), then_, Now(), held);
        StillThere(old(Now()), then_, held, targets);
        StillThere(then_, Now(), held, targets);
        OnceMore(old(Now()), then_, Now(), drives, targets, i);
        ErrorNext(old(errors), then_.errors, errors, targets, i);
        i := i + 1;
      }
      assert targets[..i] == targets;
      NoTarget();
      HoldsLess(old(Now()), Now(), held);
    }

    method CallTarget(drives: Option<seq<DriveInfo>>, c: Client, held: set<nat>, ghost inHand: bool,
                      ghost rest: set<Client>)
      requires Steady(inHand, if drives.Some? then rest + {c} else {})
      requires (drives.Some? ==> drives == snapshot) && c.owner in alive
      modifies this
      ensures Steady(inHand, if drives.Some? then rest else {}) && Onward(old(Now()), Now(), held)
      ensures calm ==> Load() == old(Load()) && OnceEach(old(Now()), Now(), drives, [c])
      ensures drives == None ==> Count(errors, c) > Count(old(errors), c)
    {
      var n: int := *;
      var budget: nat := if n > 0 then n else 0;
      if drives.Some? {
        Deliver(c, budget, held, inHand, rest);
      } else {
        TellError(c, budget, held, inHand);
      }
    }

    /** A scan comes back, with an array or with an error. */
    method ScanDone(drives: Option<seq<DriveInfo>>)
      requires Valid() && tasks > 0
      modifies this
      ensures Valid() && lastDone >= old(lastStart)
      ensures calm ==> unchanged(this`requestPending, this`setters, this`idleRequests, this`lastRequest)
      ensures calm ==> scanRunning == old(scanAgain) && !scanAgain
      ensures snapshot == if drives.Some? then drives else old(snapshot)
      ensures drives == None ==> ErrorTold(old(subscribers), old(alive), old(errors), errors)
      ensures drives.Some? && drives == old(snapshot) ==> delivered == old(delivered) && errors == old(errors)
      ensures Lasts(old(subscribers), old(alive), old(born), subscribers, alive, born)
    {
      hide Requests, Scans, NoneLost, Informed, Owned, Lasts, ErrorTold;
      var again := EndScan();
      Interfere(again);
      TakeResult(drives, again);
      Interfere(again);
      if again {
        StartScan(again);
      }
    }

    method EndScan() returns (again: bool)
      requires Valid() && tasks > 0
      modifies this`scanRunning, this`tasks, this`lastDone, this`scanAgain
      ensures Steady(again, {}) && again == old(scanAgain) && lastDone == lastStart && !scanRunning && !scanAgain
    {
      scanRunning := false;
      tasks := tasks - 1;
      lastDone := lastStart;
      again := scanAgain;
      scanAgain := false;
    }

    method TakeResult(drives: Option<seq<DriveInfo>>, ghost inHand: bool)
      requires Steady(inHand, {})
      modifies this
      ensures Steady(inHand, {}) && lastDone == old(lastDone)
      ensures calm ==> Load() == old(Load())
      ensures snapshot == if drives.Some? then drives else old(snapshot)
      ensures drives == None ==> ErrorTold(old(subscribers), old(alive), old(errors), errors)
      ensures drives.Some? && drives == old(snapshot) ==> delivered == old(delivered) && errors == old(errors)
      ensures Lasts(old(subscribers), old(alive), old(born), subscribers, alive, born)
    {
      if drives.Some? {
        var same := DriveArrayEqual(snapshot, drives);
        snapshot := drives;
        if !same {
          NotifySubscribers(snapshot, inHand);
        }
      } else {
        NotifySubscribers(None, inHand);
      }
    }

    /** A volume or USB event. */
    method VolumeChanged()
      requires Valid()
      modifies this
      ensures Valid() && (subscribers != [] ==> Asked())
      ensures subscribers == [] ==> scanRunning == old(scanRunning) && scanAgain == old(scanAgain)
      ensures forall c :: c in subscribers <==> c in old(subscribers) && c.owner in alive
    {
      CompactSubscribers();
      if subscribers != [] {
        StartScan(false);
      }
    }

    method PollCb()
      requires Valid() && pollSource
      modifies this
      ensures Valid() && pollSource == (subscribers != []) && (pollSource ==> Asked())
      ensures forall c :: c in subscribers <==> c in old(subscribers) && c.owner in alive
    {
      CompactSubscribers();
      if subscribers == [] {
        pollSource := false;
        return;
      }
      StartScan(false);
    }
  }

  lemma RemoveAt(s: seq<Client>, i: nat)
    requires i < |s|
    ensures forall c :: c in s <==> c == s[i] || c in s[..i] + s[i + 1..]
  {
    assert s == s[..i] + [s[i]] + s[i + 1..];
  }

  /**
   * When nothing is on its way and nothing is running, a scan that started after the last request has
   * been delivered.
   */
  lemma QuietMeansServed(m: DrivesMonitor)
    requires m.Valid() && !m.requestPending && !m.scanRunning
    ensures m.lastRequest <= m.lastDone
  {
  }

  /** How many steps are still to come: a request on its way is worth an idle call, a scan, and its end. */
  function Ahead(m: DrivesMonitor): nat
    reads m
  {
    3 * m.setters + 2 * m.idleRequests + m.tasks + if m.scanAgain then 1 else 0
  }

  /**
   * Left to itself, the monitor comes to rest in a few steps, whatever their order and whatever
   * the scans bring; a scan begun after the last request has been delivered by then.
   */
  method RunToRest(m: DrivesMonitor) returns (steps: nat)
    requires m.Valid() && m.calm
    modifies m
    ensures m.Valid() && !m.requestPending && !m.scanRunning && steps <= old(Ahead(m)) <= 5
    ensures m.lastRequest == old(m.lastRequest) <= m.lastDone
    ensures steps == 0 <==> old(!m.requestPending && !m.scanRunning)
  {
    steps := 0;
    while m.requestPending || m.scanRunning
      invariant m.Valid() && m.lastRequest == old(m.lastRequest) && steps + Ahead(m) <= old(Ahead(m))
      invariant steps == 0 ==> unchanged(m)
      invariant steps > 0 ==> old(m.requestPending || m.scanRunning)
      decreases Ahead(m)
    {
      OneStep(m);
      steps := steps + 1;
    }
    QuietMeansServed(m);
  }

  method OneStep(m: DrivesMonitor)
    requires m.Valid() && m.calm && (m.requestPending || m.scanRunning)
    modifies m
    ensures m.Valid() && m.lastRequest == old(m.lastRequest) && Ahead(m) < old(Ahead(m))
  {
    var scanFirst: bool, ok: bool, drives: seq<DriveInfo> := *, *, *;
    if m.setters > 0 && !(scanFirst && m.tasks > 0) {
      m.RequestIdleAdd();
    } else if m.idleRequests > 0 && !(scanFirst && m.tasks > 0) {
      m.RequestScanInMain();
    } else {
      m.ScanDone(if ok then Some(drives) else None);
    }
  }

  /** Any run of the monitor, with requests from any thread coming at any moment. */
  method AnyRun(m: DrivesMonitor, steps: nat)
    requires m.Valid()
    modifies m
    ensures m.Valid()
  {
    var i := 0;
    while i < steps
      invariant m.Valid()
    {
      var what: int, o: int, c: Client, ok: bool, drives: seq<DriveInfo> := *, *, *, *, *;
      if what == 0 {
        m.Interfere(false);
      } else if what == 1 && m.idleRequests > 0 {
        m.RequestScanInMain();
      } else if what == 2 && m.tasks > 0 {
        m.ScanDone(if ok then Some(drives) else None);
      } else if what == 3 && c.owner in m.alive && o >= 0 {
        m.Subscribe(c, o, {}, false, {});
      } else if what == 4 {
        m.VolumeChanged();
      } else if what == 5 && m.pollSource {
        m.PollCb();
      } else if what == 6 && o >= 0 {
        m.OwnerDies(o, false, {});
      } else if what == 7 {
        var born := m.OwnerBorn(false, {});
      }
      i := i + 1;
    }
  }
}
