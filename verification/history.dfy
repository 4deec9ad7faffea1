/** The list of visited directories: most recent first, doubly linked, with an index from path to node. */
module Histories {
  /** Where the list keeps at most this many entries. */
  function Clamp(limit: int): nat {
    if limit < 1 then 1 else if limit > 200 then 200 else limit
  }

  function Without(list: seq<string>, path: string): seq<string> {
    if list == [] then []
    else if list[0] == path then Without(list[1..], path)
    else [list[0]] + Without(list[1..], path)
  }

  function Shortened(list: seq<string>, limit: int): seq<string> {
    if |list| > Clamp(limit) then list[..Clamp(limit)] else list
  }

  function Visited(list: seq<string>, path: string, parent: string, limit: int): seq<string> {
    Shortened([path] + Without(Without(list, path), parent), limit)
  }

  ghost predicate NoDuplicates(list: seq<string>) {
    forall i, j :: 0 <= i < j < |list| ==> list[i] != list[j]
  }

  lemma {:induction false} WithoutAbsent(list: seq<string>, path: string)
    requires path !in list
    ensures Without(list, path) == list
  {
    if list != [] {
      assert list == [list[0]] + list[1..];
      WithoutAbsent(list[1..], path);
    }
  }

  /** Without duplicates, one entry goes and the rest close up. */
  lemma {:induction false} WithoutAt(list: seq<string>, k: nat)
    requires NoDuplicates(list) && k < |list|
    ensures Without(list, list[k]) == list[..k] + list[k + 1..]
  {
    if k == 0 {
      WithoutAbsent(list[1..], list[0]);
    } else {
      WithoutAt(list[1..], k - 1);
      assert list[1..][..k - 1] + list[1..][k..] == list[1..k] + list[k + 1..];
      assert list[..k] == [list[0]] + list[1..k];
    }
  }

  lemma {:induction false} WithoutMembers(list: seq<string>, path: string)
    ensures forall p :: p in Without(list, path) <==> p in list && p != path
    ensures NoDuplicates(list) ==> NoDuplicates(Without(list, path))
    ensures |Without(list, path)| <= |list|
  {
    if list != [] {
      WithoutMembers(list[1..], path);
      assert list == [list[0]] + list[1..];
      if NoDuplicates(list) {
        assert forall i, j {:trigger list[1..][i], list[1..][j]} ::
          0 <= i < j < |list| - 1 ==> list[1..][i] == list[i + 1] && list[1..][j] == list[j + 1];
        assert list[0] !in list[1..];
      }
    }
  }

  lemma WithoutBoth(list: seq<string>, path: string, parent: string)
    ensures path !in Without(Without(list, path), parent) && parent !in Without(Without(list, path), parent)
  {
    WithoutMembers(list, path);
    WithoutMembers(Without(list, path), parent);
  }

  class Entry {
    const data: string
    var prev: Entry?
    var next: Entry?

    constructor (data: string, next: Entry?)
      ensures this.data == data && this.prev == null && this.next == next
    {
      this.data, this.prev, this.next := data, null, next;
    }
  }

  ghost function Paths(nodes: seq<Entry>): (list: seq<string>)
    ensures |list| == |nodes| && forall i :: 0 <= i < |nodes| ==> list[i] == nodes[i].data
  {
    seq(|nodes|, i requires 0 <= i < |nodes| => nodes[i].data)
  }

  ghost predicate Chained(nodes: seq<Entry>, i: nat)
    requires i < |nodes|
    reads nodes
  {
    && nodes[i].prev == (if i == 0 then null else nodes[i - 1])
    && nodes[i].next == (if i == |nodes| - 1 then null else nodes[i + 1])
  }

  ghost predicate Found(hash: map<string, Entry>, n: Entry) {
    n.data in hash && hash[n.data] == n
  }

  /** Every path of the list leads to its own node, and no other path leads anywhere. */
  ghost predicate Index(hash: map<string, Entry>, nodes: seq<Entry>) {
    && (forall n :: n in nodes ==> Found(hash, n))
    && (forall p :: p in hash ==> hash[p] in nodes && hash[p].data == p)
  }

  lemma IndexWithout(hash: map<string, Entry>, nodes: seq<Entry>, k: nat)
    requires Index(hash, nodes) && NoDuplicates(Paths(nodes)) && k < |nodes|
    ensures var rest := nodes[..k] + nodes[k + 1..];
            && Index(hash - {nodes[k].data}, rest) && NoDuplicates(Paths(rest))
            && Paths(rest) == Without(Paths(nodes), nodes[k].data)
  {
    var rest := nodes[..k] + nodes[k + 1..];
    WithoutAt(Paths(nodes), k);
    assert Paths(rest) == Paths(nodes)[..k] + Paths(nodes)[k + 1..];
    WithoutMembers(Paths(nodes), nodes[k].data);
    var fewer := hash - {nodes[k].data};
    forall n | n in rest
      ensures Found(fewer, n)
    {
      assert Found(hash, n);
      var i :| 0 <= i < |rest| && rest[i] == n;
      assert Paths(rest)[i] == n.data;
    }
    forall p | p in fewer
      ensures fewer[p] in rest
    {
      assert hash[p] in nodes;
    }
  }

  lemma IndexWith(hash: map<string, Entry>, nodes: seq<Entry>, n: Entry)
    requires Index(hash, nodes) && NoDuplicates(Paths(nodes)) && n.data !in Paths(nodes)
    ensures Index(hash[n.data := n], [n] + nodes) && NoDuplicates(Paths([n] + nodes))
    ensures Paths([n] + nodes) == [n.data] + Paths(nodes)
  {
    var more := hash[n.data := n];
    forall m | m in [n] + nodes
      ensures Found(more, m)
    {
      assert m == n || (m in nodes && Found(hash, m));
      if m in nodes {
        var i :| 0 <= i < |nodes| && nodes[i] == m;
        assert Paths(nodes)[i] == m.data;
      }
    }
  }

  lemma NotListed(hash: map<string, Entry>, nodes: seq<Entry>, path: string)
    requires Index(hash, nodes) && path !in hash
    ensures path !in Paths(nodes)
  {
    forall i | 0 <= i < |nodes|
      ensures Paths(nodes)[i] != path
    {
      assert Found(hash, nodes[i]);
    }
  }

  lemma OwnPlaces(nodes: seq<Entry>, i: nat)
    requires NoDuplicates(Paths(nodes)) && i < |nodes|
    ensures forall j :: 0 <= j < |nodes| && nodes[j] == nodes[i] ==> j == i
  {
    forall j | 0 <= j < |nodes| && nodes[j] == nodes[i]
      ensures j == i
    {
      assert Paths(nodes)[i] == Paths(nodes)[j];
    }
  }

  class History {
    var history: Entry?
    var historyTail: Entry?
    var historyHash: map<string, Entry>
    ghost var nodes: seq<Entry>
    /** The objects of the list, those that have left it among them. */
    ghost var repr: set<Entry>
    /** What the library makes of a path: its UTF-8 form, and its directory. */
    const ensureUtf8: string -> string
    const dirname: string -> string

    constructor (ensureUtf8: string -> string, dirname: string -> string)
      ensures Valid() && Contents() == [] && repr == {}
      ensures this.ensureUtf8 == ensureUtf8 && this.dirname == dirname
    {
      history, historyTail, historyHash, nodes, repr := null, null, map[], [], {};
      this.ensureUtf8, this.dirname := ensureUtf8, dirname;
    }

    ghost function Contents(): (list: seq<string>)
      reads this`nodes
    {
      Paths(nodes)
    }

    /** The nodes are chained both ways, and the list and the tail point at the two ends. */
    ghost predicate Linked()
      reads this, repr
    {
      && (forall n :: n in nodes ==> n in repr)
      && (forall i :: 0 <= i < |nodes| ==> Chained(nodes, i))
      && history == (if nodes == [] then null else nodes[0])
      && historyTail == (if nodes == [] then null else nodes[|nodes| - 1])
    }

    ghost predicate Valid()
      reads this, repr
    {
      Linked() && Index(historyHash, nodes) && NoDuplicates(Contents())
    }

    method Remove(path: string)
      requires Valid()
      modifies this`history, this`historyTail, this`historyHash, this`nodes, repr
      ensures Valid() && Contents() == Without(old(Contents()), path)
    {
      if path in historyHash {
        var old_ := historyHash[path];
        ghost var k :| 0 <= k < |nodes| && nodes[k] == old_;
        IndexWithout(historyHash, nodes, k);
        historyHash := historyHash - {path};
        DeleteLink(old_, k);
      } else {
        NotListed(historyHash, nodes, path);
        WithoutAbsent(Contents(), path);
      }
    }

    /** `g_list_delete_link`, the tail seen to first. */
    method DeleteLink(old_: Entry, ghost k: nat)
      requires Linked() && NoDuplicates(Contents()) && k < |nodes| && nodes[k] == old_
      modifies this`history, this`historyTail, this`nodes, repr
      ensures Linked() && nodes == old(nodes[..k] + nodes[k + 1..])
    {
      assert Chained(nodes, k);
      OwnPlaces(nodes, k);
      if historyTail == old_ {
        historyTail := old_.prev;
      }
      var next := old_.next;
      Unlink(old_, k);
      if history == old_ {
        history := next;
      }
    }

    /** The node leaves the chain. */
    method Unlink(old_: Entry, ghost k: nat)
      requires k < |nodes| && nodes[k] == old_ && NoDuplicates(Contents())
      requires (forall n :: n in nodes ==> n in repr) && forall i :: 0 <= i < |nodes| ==> Chained(nodes, i)
      modifies this`nodes, repr
      ensures nodes == old(nodes[..k] + nodes[k + 1..])
      ensures forall i :: 0 <= i < |nodes| ==> Chained(nodes, i)
    {
      Bridge(old_, k);
      nodes := nodes[..k] + nodes[k + 1..];
      forall i | 0 <= i < |nodes|
        ensures Chained(nodes, i)
      {
        var j := if i < k then i else i + 1;
        assert nodes[i] == old(nodes)[j] && old(Chained(nodes, j)) && old(Chained(nodes, k));
      }
    }

    /** The neighbours of a node are joined to each other. */
    method Bridge(old_: Entry, ghost k: nat)
      requires k < |nodes| && nodes[k] == old_ && Chained(nodes, k) && NoDuplicates(Contents())
      requires forall n :: n in nodes ==> n in repr
      modifies repr
      ensures forall j :: 0 <= j < |nodes| ==>
        nodes[j].next == if j == k - 1 then old(nodes[k].next) else old(nodes[j].next)
      ensures forall j :: 0 <= j < |nodes| ==>
        nodes[j].prev == if j == k + 1 then old(nodes[k].prev) else old(nodes[j].prev)
    {
      if k > 0 { OwnPlaces(nodes, k - 1); }
      if k + 1 < |nodes| { OwnPlaces(nodes, k + 1); }
      if old_.prev != null {
        old_.prev.next := old_.next;
      }
      if old_.next != null {
        old_.next.prev := old_.prev;
      }
    }

    method Prepend(path: string)
      requires Valid() && path !in Contents()
      modifies this`history, this`historyTail, this`historyHash, this`nodes, this`repr, repr
      ensures Valid() && Contents() == [path] + old(Contents())
      ensures fresh(repr - old(repr))
    {
      var node := new Entry(path, history);
      IndexWith(historyHash, nodes, node);
      historyHash := historyHash[path := node];
      LinkFirst(node);
    }

    method LinkFirst(node: Entry)
      requires Linked() && NoDuplicates(Contents()) && node !in repr && node.prev == null && node.next == history
      modifies this`history, this`historyTail, this`nodes, this`repr, repr
      ensures Linked() && nodes == [node] + old(nodes) && repr == old(repr) + {node}
    {
      if nodes != [] { OwnPlaces(nodes, 0); }
      if history != null {
        history.prev := node;
      }
      history := node;
      if historyTail == null {
        historyTail := history;
      }
      nodes := [node] + nodes;
      repr := repr + {node};
      assert Chained(nodes, 0);
      forall i | 1 <= i < |nodes|
        ensures Chained(nodes, i)
      {
        assert old(Chained(nodes, i - 1));
      }
    }

    method Length() returns (n: nat)
      requires Valid()
      ensures n == |nodes|
    {
      n := 0;
      var node := history;
      while node != null
        invariant 0 <= n <= |nodes| && node == if n == |nodes| then null else nodes[n]
        decreases |nodes| - n
      {
        assert Chained(nodes, n);
        node := node.next;
        n := n + 1;
      }
    }

    method AddHistory(path: string, limit: int)
      requires Valid()
      modifies this`history, this`historyTail, this`historyHash, this`nodes, this`repr, repr
      ensures Valid() && Contents() == Visited(old(Contents()), ensureUtf8(path), dirname(path), limit)
      ensures fresh(repr - old(repr))
    {
      var new_ := ensureUtf8(path);
      Remove(new_);
      Remove(dirname(path));
      WithoutBoth(old(Contents()), new_, dirname(path));
      assert repr == old(repr);
      Prepend(new_);
      ghost var added := repr;
      Evict(limit);
      assert repr == added;
    }

    /** The oldest entries go until no more are left than allowed. */
    method Evict(limit: int)
      requires Valid() && |nodes| > 0
      modifies this`history, this`historyTail, this`historyHash, this`nodes, repr
      ensures Valid() && Contents() == Shortened(old(Contents()), limit)
    {
      var length := Length();
      while length > Clamp(limit)
        invariant Valid() && length == |nodes| <= |old(nodes)|
        invariant length >= Clamp(limit) || length == |old(nodes)|
        invariant Contents() == old(Contents())[..length]
      {
        ghost var before := Contents();
        WithoutAt(before, length - 1);
        assert historyTail == nodes[|nodes| - 1];
        Remove(historyTail.data);
        length := Length();
        assert Contents() == before[..|before| - 1];
      }
    }
  }

  /** The list after a run of visits; the option may have changed before each. */
  ghost function Run(visits: seq<string>, u: string -> string, dirname: string -> string,
                     limit: nat -> int): seq<string>
  {
    if visits == [] then []
    else
      var n := |visits| - 1;
      Visited(Run(visits[..n], u, dirname, limit), u(visits[n]), dirname(visits[n]), limit(n))
  }

  /** When `path` was last visited; -1 if never. */
  ghost function LastVisit(visits: seq<string>, ensureUtf8: string -> string, path: string): (k: int)
    ensures -1 <= k < |visits|
    ensures k >= 0 ==> ensureUtf8(visits[k]) == path
  {
    if visits == [] then -1
    else if ensureUtf8(visits[|visits| - 1]) == path then |visits| - 1
    else LastVisit(visits[..|visits| - 1], ensureUtf8, path)
  }

  /** Ordered by the time of the last visit, the latest first. */
  ghost predicate MostRecentFirst(list: seq<string>, visits: seq<string>, u: string -> string) {
    list != [] ==>
      && LastVisit(visits, u, list[0]) >= 0 && FirstOf(list[0], list[1..], visits, u)
      && MostRecentFirst(list[1..], visits, u)
  }

  ghost predicate FirstOf(p: string, rest: seq<string>, visits: seq<string>, u: string -> string) {
    forall q :: q in rest ==> LastVisit(visits, u, p) > LastVisit(visits, u, q)
  }

  /** What is left of a list keeps its order. */
  lemma {:induction false} WithoutKeepsOrder(list: seq<string>, path: string, visits: seq<string>, u: string -> string)
    requires MostRecentFirst(list, visits, u)
    ensures MostRecentFirst(Without(list, path), visits, u)
  {
    if list != [] {
      WithoutKeepsOrder(list[1..], path, visits, u);
      WithoutMembers(list[1..], path);
      assert list[0] != path ==> Without(list, path)[1..] == Without(list[1..], path);
    }
  }

  /** Cutting the end off does too. */
  lemma {:induction false} CutKeepsOrder(list: seq<string>, n: nat, visits: seq<string>, u: string -> string)
    requires MostRecentFirst(list, visits, u) && n <= |list|
    ensures MostRecentFirst(list[..n], visits, u)
  {
    if n > 0 {
      CutKeepsOrder(list[1..], n - 1, visits, u);
      assert list[..n][1..] == list[1..][..n - 1];
    }
  }

  /** A visit elsewhere does not change when these were last visited. */
  lemma {:induction false} OthersKeepOrder(list: seq<string>, before: seq<string>, v: string, u: string -> string)
    requires MostRecentFirst(list, before, u) && u(v) !in list
    ensures MostRecentFirst(list, before + [v], u) && FirstOf(u(v), list, before + [v], u)
  {
    assert (before + [v])[..|before|] == before;
    if list != [] {
      OthersKeepOrder(list[1..], before, v, u);
      assert forall q :: q in list[1..] ==> q in list && q != u(v);
    }
  }

  /** After any run of visits the list is ordered by the time of the last visit, and never too long. */
  lemma {:induction false} RunIsRecent(visits: seq<string>, u: string -> string, dirname: string -> string,
                                       limit: nat -> int)
    ensures MostRecentFirst(Run(visits, u, dirname, limit), visits, u)
    ensures visits != [] ==> |Run(visits, u, dirname, limit)| <= Clamp(limit(|visits| - 1))
  {
    if visits != [] {
      var before, v := visits[..|visits| - 1], visits[|visits| - 1];
      RunIsRecent(before, u, dirname, limit);
      VisitKeepsOrder(Run(before, u, dirname, limit), before, v, u, dirname(v), limit(|before|));
      assert visits == before + [v];
    }
  }

  lemma VisitKeepsOrder(list: seq<string>, before: seq<string>, v: string, u: string -> string, parent: string,
                        limit: int)
    requires MostRecentFirst(list, before, u)
    ensures MostRecentFirst(Visited(list, u(v), parent, limit), before + [v], u)
  {
    WithoutKeepsOrder(list, u(v), before, u);
    WithoutMembers(list, u(v));
    var fewer := Without(list, u(v));
    WithoutKeepsOrder(fewer, parent, before, u);
    WithoutMembers(fewer, parent);
    var rest := Without(fewer, parent);
    OthersKeepOrder(rest, before, v, u);
    assert ([u(v)] + rest)[1..] == rest;
    if |[u(v)] + rest| > Clamp(limit) {
      CutKeepsOrder([u(v)] + rest, Clamp(limit), before + [v], u);
    }
  }

  lemma {:induction false} WithoutIndex(list: seq<string>, path: string, i: nat) returns (j: nat)
    requires i < |list| && list[i] != path
    ensures j <= i && j < |Without(list, path)| && Without(list, path)[j] == list[i]
  {
    if i == 0 {
      j := 0;
    } else {
      j := WithoutIndex(list[1..], path, i - 1);
      if list[0] != path {
        j := j + 1;
      }
    }
  }

  /** A visit moves another place down by one at most, unless the list is cut above it. */
  lemma VisitedIndex(list: seq<string>, path: string, parent: string, limit: int, i: nat) returns (j: nat)
    requires i < |list| && list[i] != path && list[i] != parent && i + 1 < Clamp(limit)
    ensures var now := Visited(list, path, parent, limit); j <= i + 1 && j < |now| && now[j] == list[i]
  {
    j := WithoutIndex(list, path, i);
    j := WithoutIndex(Without(list, path), parent, j);
    j := j + 1;
  }

  /**
   * A visited place stays in the list, at most one further down for each later visit, unless
   * a place in it is visited or the list is cut above it.
   */
  lemma {:induction false} RecentStays(visits: seq<string>, u: string -> string, dirname: string -> string,
                                       limit: nat -> int, k: nat) returns (i: nat)
    requires k < |visits|
    requires forall j :: k < j < |visits| ==> dirname(visits[j]) != u(visits[k])
    requires forall j {:trigger limit(j)} :: k <= j < |visits| ==> Clamp(limit(j)) > j - k
    ensures var list := Run(visits, u, dirname, limit);
            i < |list| && i <= |visits| - 1 - k && list[i] == u(visits[k])
  {
    var n := |visits| - 1;
    assert Clamp(limit(n)) > n - k;
    i := 0;
    if k < n && u(visits[n]) != u(visits[k]) {
      var before := visits[..n];
      i := RecentStays(before, u, dirname, limit, k);
      i := VisitedIndex(Run(before, u, dirname, limit), u(visits[n]), dirname(visits[n]), limit(n), i);
    }
  }

  /** A limit between 1 and 200 is kept to and made use of; any other counts as the nearer of the two. */
  lemma LimitExactly(list: seq<string>, path: string, parent: string, limit: int)
    ensures var all := [path] + Without(Without(list, path), parent);
            var now := Visited(list, path, parent, limit);
            && (1 <= limit <= 200 && |all| > limit ==> now == all[..limit])
            && (limit <= 0 ==> now == [path])
            && (limit > 200 ==> now == if |all| > 200 then all[..200] else all)
            && (|all| <= limit <= 200 ==> now == all)
  {
  }

  /** Visiting the same place again at once changes nothing. */
  lemma VisitTwice(list: seq<string>, path: string, parent: string, limit: int)
    ensures var once := Visited(list, path, parent, limit);
            Visited(once, path, parent, limit) == once && (path != parent ==> parent !in once) && once[0] == path
  {
    var rest := Without(Without(list, path), parent);
    WithoutBoth(list, path, parent);
    var once := Visited(list, path, parent, limit);
    assert once[0] == path && once[1..] == rest[..|once| - 1];
    assert path !in once[1..] && parent !in once[1..];
    WithoutAbsent(once[1..], path);
    WithoutAbsent(once[1..], parent);
    assert once == [path] + once[1..];
  }
}
