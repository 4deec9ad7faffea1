/** Comparison functions: what sorting and searching need of them. */
module Orders {
  /** The sign of the answer turns with the arguments. */
  ghost predicate Opposite(x: int, y: int) {
    (x < 0 <==> y > 0) && (x == 0 <==> y == 0)
  }

  /** `cmp` ranks everything there is, ties allowed. */
  ghost predicate Consistent<T(!new)>(cmp: (T, T) -> int) {
    && (forall a, b :: Opposite(cmp(a, b), cmp(b, a)))
    && (forall a, b, c :: cmp(a, b) <= 0 && cmp(b, c) <= 0 ==> cmp(a, c) <= 0)
  }

  /** The second decides what the first leaves open. */
  function Lex<T>(first: (T, T) -> int, second: (T, T) -> int): (T, T) -> int {
    (a, b) => if first(a, b) != 0 then first(a, b) else second(a, b)
  }

  ghost predicate Same<T(!new)>(f: (T, T) -> int, g: (T, T) -> int) {
    forall a, b :: f(a, b) == g(a, b)
  }

  lemma StrictStep<T(!new)>(cmp: (T, T) -> int, a: T, b: T, c: T)
    requires Consistent(cmp) && cmp(a, b) <= 0 && cmp(b, c) <= 0
    ensures cmp(a, c) == 0 ==> cmp(a, b) == 0 && cmp(b, c) == 0
  {
    assert Opposite(cmp(a, c), cmp(c, a)) && Opposite(cmp(a, b), cmp(b, a)) && Opposite(cmp(b, c), cmp(c, b));
    if cmp(a, c) == 0 {
      assert cmp(c, a) <= 0;
      assert cmp(b, a) <= 0 && cmp(c, b) <= 0;
    }
  }

  lemma LexConsistent<T(!new)>(first: (T, T) -> int, second: (T, T) -> int)
    requires Consistent(first) && Consistent(second)
    ensures Consistent(Lex(first, second))
  {
    var lex := Lex(first, second);
    forall a, b
      ensures Opposite(lex(a, b), lex(b, a))
    {
      assert Opposite(first(a, b), first(b, a)) && Opposite(second(a, b), second(b, a));
    }
    forall a, b, c | lex(a, b) <= 0 && lex(b, c) <= 0
      ensures lex(a, c) <= 0
    {
      StrictStep(first, a, b, c);
    }
  }

  lemma SameConsistent<T(!new)>(f: (T, T) -> int, g: (T, T) -> int)
    requires Same(f, g) && Consistent(g)
    ensures Consistent(f)
  {
    forall a, b
      ensures Opposite(f(a, b), f(b, a))
    {
      assert f(a, b) == g(a, b) && f(b, a) == g(b, a) && Opposite(g(a, b), g(b, a));
    }
    forall a, b, c | f(a, b) <= 0 && f(b, c) <= 0
      ensures f(a, c) <= 0
    {
      assert g(a, b) <= 0 && g(b, c) <= 0 && f(a, c) == g(a, c);
    }
  }

  /** Comparing what things refer to. */
  function Through<P, T>(deref: P -> T, cmp: (T, T) -> int): (P, P) -> int {
    (p, q) => cmp(deref(p), deref(q))
  }

  lemma ThroughConsistent<P(!new), T(!new)>(deref: P -> T, cmp: (T, T) -> int)
    requires Consistent(cmp)
    ensures Consistent(Through(deref, cmp))
  {
    var through := Through(deref, cmp);
    forall p, q
      ensures Opposite(through(p, q), through(q, p))
    {
      assert Opposite(cmp(deref(p), deref(q)), cmp(deref(q), deref(p)));
    }
    forall p, q, r | through(p, q) <= 0 && through(q, r) <= 0
      ensures through(p, r) <= 0
    {
      assert cmp(deref(p), deref(q)) <= 0 && cmp(deref(q), deref(r)) <= 0;
    }
  }

  function Sign(x: int): int {
    if x < 0 then -1 else if x > 0 then 1 else 0
  }

  function Numeric(x: int, y: int): int {
    if x < y then -1 else if x > y then 1 else 0
  }

  lemma NumericConsistent()
    ensures Consistent(Numeric)
  {
    assert forall a, b :: Opposite(Numeric(a, b), Numeric(b, a));
  }

  /** `strcmp`: the first byte that differs decides; a string comes after its own beginnings. */
  function StrCmp(s: string, t: string): int {
    if s == [] && t == [] then 0
    else if s == [] then -1
    else if t == [] then 1
    else if s[0] != t[0] then s[0] as int - t[0] as int
    else StrCmp(s[1..], t[1..])
  }

  lemma {:induction false} StrCmpFlips(s: string, t: string)
    ensures Opposite(StrCmp(s, t), StrCmp(t, s)) && (StrCmp(s, t) == 0 <==> s == t)
  {
    if s != [] && t != [] && s[0] == t[0] {
      StrCmpFlips(s[1..], t[1..]);
      assert s == [s[0]] + s[1..] && t == [t[0]] + t[1..];
    }
  }

  lemma {:induction false} StrCmpChains(s: string, t: string, u: string)
    requires StrCmp(s, t) <= 0 && StrCmp(t, u) <= 0
    ensures StrCmp(s, u) <= 0
  {
    if s != [] && t != [] && u != [] && s[0] == t[0] == u[0] {
      StrCmpChains(s[1..], t[1..], u[1..]);
    }
  }

  /** Bytes decide where two strings first differ; a beginning comes before the whole. */
  lemma {:induction false} FirstByteDecides(common: string, s: string, t: string)
    requires s == [] || t == [] || s[0] != t[0]
    ensures StrCmp(common + s, common + t) < 0 <==> t != [] && (s == [] || s[0] < t[0])
  {
    if common == [] {
      assert common + s == s && common + t == t;
    } else {
      assert (common + s)[1..] == common[1..] + s && (common + t)[1..] == common[1..] + t;
      FirstByteDecides(common[1..], s, t);
    }
  }

  lemma StrCmpConsistent()
    ensures Consistent(StrCmp)
  {
    forall s, t
      ensures Opposite(StrCmp(s, t), StrCmp(t, s))
    {
      StrCmpFlips(s, t);
    }
    forall s, t, u | StrCmp(s, t) <= 0 && StrCmp(t, u) <= 0
      ensures StrCmp(s, u) <= 0
    {
      StrCmpChains(s, t, u);
    }
  }
}

/** How directory items are ordered. */
module Display {
  import opened Orders

  datatype MimeType = NoMime | Mime(mediaType: string, subtype: string)

  const TYPE_DIRECTORY: nat := 2

  datatype DirItem = DirItem(
    baseType: nat, appDir: bool, leafname: string, collate: nat, mime: MimeType,
    uid: nat, gid: nat, atime: int, ctime: int, mtime: int, size: int)

  type Compare = (DirItem, DirItem) -> int

  predicate IsADir(item: DirItem) {
    item.baseType == TYPE_DIRECTORY && !item.appDir
  }

  /** What SORT_DIRS decides; 0 when it falls through. */
  function SortDirs(i1: DirItem, i2: DirItem): int {
    if IsADir(i1) && !IsADir(i2) then -1
    else if IsADir(i2) && !IsADir(i1) then 1
    else 0
  }

  /** `keys` is `collate_key_cmp` with its option. */
  function SortByName(keys: (nat, nat) -> int, i1: DirItem, i2: DirItem): int {
    if SortDirs(i1, i2) != 0 then SortDirs(i1, i2)
    else
      var retval := keys(i1.collate, i2.collate);
      if retval != 0 then retval else StrCmp(i1.leafname, i2.leafname)
  }

  function Flag(b: bool): int {
    if b then 1 else 0
  }

  function CompareMime(m1: MimeType, m2: MimeType): int {
    if m1.Mime? && m2.Mime? then
      var diff := StrCmp(m1.mediaType, m2.mediaType);
      if diff != 0 then diff else StrCmp(m1.subtype, m2.subtype)
    else if m1.Mime? || m2.Mime? then
      if m1.Mime? then 1 else -1
    else 0
  }

  function SortByType(keys: (nat, nat) -> int, i1: DirItem, i2: DirItem): int {
    var base := i1.baseType - i2.baseType;
    var diff := if base != 0 then base else Flag(i1.appDir) - Flag(i2.appDir);
    if diff != 0 then (if diff > 0 then 1 else -1)
    else
      var mime := CompareMime(i1.mime, i2.mime);
      if mime != 0 then (if mime > 0 then 1 else -1) else SortByName(keys, i1, i2)
  }

  function SortByOwner(keys: (nat, nat) -> int, userName: nat -> string, i1: DirItem, i2: DirItem): int {
    if i1.uid == i2.uid then SortByName(keys, i1, i2) else StrCmp(userName(i1.uid), userName(i2.uid))
  }

  function SortByGroup(keys: (nat, nat) -> int, groupName: nat -> string, i1: DirItem, i2: DirItem): int {
    if i1.gid == i2.gid then SortByName(keys, i1, i2) else StrCmp(groupName(i1.gid), groupName(i2.gid))
  }

  /** The three dates differ only in the field. */
  function SortByDate(keys: (nat, nat) -> int, date: DirItem -> int, i1: DirItem, i2: DirItem): int {
    if date(i1) < date(i2) then -1
    else if date(i1) > date(i2) then 1
    else SortByName(keys, i1, i2)
  }

  function SortBySize(keys: (nat, nat) -> int, i1: DirItem, i2: DirItem): int {
    if SortDirs(i1, i2) != 0 then SortDirs(i1, i2)
    else if i1.size < i2.size then -1
    else if i1.size > i2.size then 1
    else SortByName(keys, i1, i2)
  }

  /** Consistent, and two items only tie when they have the same name. */
  ghost predicate Ranks(cmp: Compare) {
    Consistent(cmp) && forall a, b :: cmp(a, b) == 0 ==> a.leafname == b.leafname
  }

  function ByName(keys: (nat, nat) -> int): Compare {
    (a, b) => SortByName(keys, a, b)
  }

  function DirRank(item: DirItem): int {
    if IsADir(item) then 0 else 1
  }

  lemma ByNumber(field: DirItem -> int)
    ensures Consistent(Through(field, Numeric))
  {
    NumericConsistent();
    ThroughConsistent(field, Numeric);
  }

  lemma ByString(field: DirItem -> string)
    ensures Consistent(Through(field, StrCmp))
  {
    StrCmpConsistent();
    ThroughConsistent(field, StrCmp);
  }

  function Collated(item: DirItem): nat {
    item.collate
  }

  function Leaf(item: DirItem): string {
    item.leafname
  }

  function Size(item: DirItem): int {
    item.size
  }

  function BaseType(item: DirItem): int {
    item.baseType
  }

  function AppDir(item: DirItem): int {
    Flag(item.appDir)
  }

  lemma DirsFirst(keys: (nat, nat) -> int, a: DirItem, b: DirItem)
    ensures ByName(keys)(a, b) ==
      Lex(Through(DirRank, Numeric), Lex(Through(Collated, keys), Through(Leaf, StrCmp)))(a, b)
  {
    var dirs, collated, leaf := Through(DirRank, Numeric), Through(Collated, keys), Through(Leaf, StrCmp);
    var rest := Lex(collated, leaf);
    assert dirs(a, b) == Numeric(DirRank(a), DirRank(b)) == SortDirs(a, b);
    assert collated(a, b) == keys(a.collate, b.collate);
    assert leaf(a, b) == StrCmp(a.leafname, b.leafname);
    assert rest(a, b) == if collated(a, b) != 0 then collated(a, b) else leaf(a, b);
    assert Lex(dirs, rest)(a, b) == if dirs(a, b) != 0 then dirs(a, b) else rest(a, b);
    assert ByName(keys)(a, b) == SortByName(keys, a, b);
  }

  lemma NameRanks(keys: (nat, nat) -> int)
    requires Consistent(keys)
    ensures Ranks(ByName(keys))
  {
    var dirs, collated, leaf := Through(DirRank, Numeric), Through(Collated, keys), Through(Leaf, StrCmp);
    ByNumber(DirRank);
    ThroughConsistent(Collated, keys);
    ByString(Leaf);
    var rest := Lex(collated, leaf);
    LexConsistent(collated, leaf);
    LexConsistent(dirs, rest);
    forall a: DirItem, b: DirItem
      ensures ByName(keys)(a, b) == Lex(dirs, rest)(a, b)
    {
      DirsFirst(keys, a, b);
    }
    SameConsistent(ByName(keys), Lex(dirs, rest));
    forall a, b | ByName(keys)(a, b) == 0
      ensures a.leafname == b.leafname
    {
      NamesTie(keys, a, b);
    }
  }

  lemma NamesTie(keys: (nat, nat) -> int, a: DirItem, b: DirItem)
    requires ByName(keys)(a, b) == 0
    ensures a.leafname == b.leafname
  {
    StrCmpFlips(a.leafname, b.leafname);
  }

  /** Any ranking that falls back on the name. */
  lemma FallsBackOnName(keys: (nat, nat) -> int, first: Compare, cmp: Compare)
    requires Consistent(keys) && Consistent(first) && Same(cmp, Lex(first, ByName(keys)))
    ensures Ranks(cmp)
  {
    NameRanks(keys);
    LexConsistent(first, ByName(keys));
    SameConsistent(cmp, Lex(first, ByName(keys)));
    forall a, b | cmp(a, b) == 0
      ensures a.leafname == b.leafname
    {
      assert cmp(a, b) == Lex(first, ByName(keys))(a, b);
      assert ByName(keys)(a, b) == 0;
    }
  }

  lemma DateRanks(keys: (nat, nat) -> int, date: DirItem -> int)
    requires Consistent(keys)
    ensures Ranks((a, b) => SortByDate(keys, date, a, b))
  {
    ByNumber(date);
    FallsBackOnName(keys, Through(date, Numeric), (a, b) => SortByDate(keys, date, a, b));
  }

  lemma SizeRanks(keys: (nat, nat) -> int)
    requires Consistent(keys)
    ensures Ranks((a, b) => SortBySize(keys, a, b))
  {
    var dirs, size, cmp: Compare := Through(DirRank, Numeric), Through(Size, Numeric), (a, b) => SortBySize(keys, a, b);
    ByNumber(DirRank);
    ByNumber(Size);
    LexConsistent(dirs, size);
    var first := Lex(dirs, size);
    forall a: DirItem, b: DirItem
      ensures cmp(a, b) == Lex(first, ByName(keys))(a, b)
    {
      assert dirs(a, b) == Numeric(DirRank(a), DirRank(b)) == SortDirs(a, b);
    }
    FallsBackOnName(keys, first, cmp);
  }

  function HasMime(item: DirItem): int {
    if item.mime.Mime? then 1 else 0
  }

  function Media(item: DirItem): string {
    if item.mime.Mime? then item.mime.mediaType else ""
  }

  function Subtype(item: DirItem): string {
    if item.mime.Mime? then item.mime.subtype else ""
  }

  function Signed(cmp: Compare): Compare {
    (a, b) => Sign(cmp(a, b))
  }

  lemma SignedConsistent(cmp: Compare)
    requires Consistent(cmp)
    ensures Consistent(Signed(cmp))
  {
    forall a, b
      ensures Opposite(Signed(cmp)(a, b), Signed(cmp)(b, a))
    {
      assert Opposite(cmp(a, b), cmp(b, a));
    }
    forall a, b, c | Signed(cmp)(a, b) <= 0 && Signed(cmp)(b, c) <= 0
      ensures Signed(cmp)(a, c) <= 0
    {
      assert cmp(a, b) <= 0 && cmp(b, c) <= 0;
    }
  }

  function MimeOrder(): Compare {
    (a: DirItem, b: DirItem) => CompareMime(a.mime, b.mime)
  }

  lemma MimeConsistent()
    ensures Consistent(MimeOrder())
  {
    var has, media, sub := Through(HasMime, Numeric), Through(Media, StrCmp), Through(Subtype, StrCmp);
    ByNumber(HasMime);
    ByString(Media);
    ByString(Subtype);
    var names := Lex(media, sub);
    LexConsistent(media, sub);
    LexConsistent(has, names);
    forall a: DirItem, b: DirItem
      ensures MimeOrder()(a, b) == Lex(has, names)(a, b)
    {
      assert has(a, b) == Numeric(HasMime(a), HasMime(b));
      assert media(a, b) == StrCmp(Media(a), Media(b)) && sub(a, b) == StrCmp(Subtype(a), Subtype(b));
      StrCmpFlips("", "");
    }
    SameConsistent(MimeOrder(), Lex(has, names));
  }

  lemma TypeRanks(keys: (nat, nat) -> int)
    requires Consistent(keys)
    ensures Ranks((a, b) => SortByType(keys, a, b))
  {
    var cmp: Compare := (a, b) => SortByType(keys, a, b);
    var base, app := Through(BaseType, Numeric), Through(AppDir, Numeric);
    ByNumber(BaseType);
    ByNumber(AppDir);
    MimeConsistent();
    var rest := Lex(app, MimeOrder());
    LexConsistent(app, MimeOrder());
    var all := Lex(base, rest);
    LexConsistent(base, rest);
    SignedConsistent(all);
    var signed := Signed(all);
    forall a, b
      ensures cmp(a, b) == Lex(signed, ByName(keys))(a, b)
    {
      assert signed(a, b) == Sign(all(a, b));
    }
    FallsBackOnName(keys, signed, cmp);
  }

  ghost predicate Distinct(name: nat -> string) {
    forall u, v :: name(u) == name(v) ==> u == v
  }

  /** Sorting by owner is an order exactly when no two owners share a name. */
  lemma OwnerRanksExactly(keys: (nat, nat) -> int, userName: nat -> string)
    requires Consistent(keys)
    ensures Ranks((a, b) => SortByOwner(keys, userName, a, b)) <==> Distinct(userName)
  {
    var cmp := (a, b) => SortByOwner(keys, userName, a, b);
    if Distinct(userName) {
      var owner := Through((i: DirItem) => userName(i.uid), StrCmp);
      ByString((i: DirItem) => userName(i.uid));
      forall a: DirItem, b: DirItem
        ensures cmp(a, b) == Lex(owner, ByName(keys))(a, b)
      {
        StrCmpFlips(userName(a.uid), userName(b.uid));
      }
      FallsBackOnName(keys, owner, cmp);
    }
    if Consistent(cmp) {
      forall u, v | userName(u) == userName(v)
        ensures u == v
      {
        OwnerTie(keys, userName, u, v);
      }
    }
  }

  /** Two owners of one name: b ties with a and with c, but a comes before c. */
  lemma OwnerTie(keys: (nat, nat) -> int, userName: nat -> string, u: nat, v: nat)
    requires Consistent(keys) && userName(u) == userName(v)
    requires Consistent((a, b) => SortByOwner(keys, userName, a, b))
    ensures u == v
  {
    var cmp := (a, b) => SortByOwner(keys, userName, a, b);
    var a := DirItem(0, false, "a", 0, NoMime, u, 0, 0, 0, 0, 0);
    var b, c := a.(uid := v), a.(leafname := "c");
    assert Opposite(keys(0, 0), keys(0, 0));
    StrCmpFlips(userName(u), userName(v));
    assert StrCmp("a", "c") < 0 && StrCmp("c", "a") > 0;
    assert u != v ==> cmp(c, b) <= 0 && cmp(b, a) <= 0;
    assert cmp(c, a) > 0;
  }

  /** And so for groups. */
  lemma GroupRanksExactly(keys: (nat, nat) -> int, groupName: nat -> string)
    requires Consistent(keys)
    ensures Ranks((a, b) => SortByGroup(keys, groupName, a, b)) <==> Distinct(groupName)
  {
    var cmp := (a, b) => SortByGroup(keys, groupName, a, b);
    if Distinct(groupName) {
      var group := Through((i: DirItem) => groupName(i.gid), StrCmp);
      ByString((i: DirItem) => groupName(i.gid));
      forall a: DirItem, b: DirItem
        ensures cmp(a, b) == Lex(group, ByName(keys))(a, b)
      {
        StrCmpFlips(groupName(a.gid), groupName(b.gid));
      }
      FallsBackOnName(keys, group, cmp);
    }
    if Consistent(cmp) {
      forall u, v | groupName(u) == groupName(v)
        ensures u == v
      {
        GroupTie(keys, groupName, u, v);
      }
    }
  }

  lemma GroupTie(keys: (nat, nat) -> int, groupName: nat -> string, u: nat, v: nat)
    requires Consistent(keys) && groupName(u) == groupName(v)
    requires Consistent((a, b) => SortByGroup(keys, groupName, a, b))
    ensures u == v
  {
    var cmp := (a, b) => SortByGroup(keys, groupName, a, b);
    var a := DirItem(0, false, "a", 0, NoMime, 0, u, 0, 0, 0, 0);
    var b, c := a.(gid := v), a.(leafname := "c");
    assert Opposite(keys(0, 0), keys(0, 0));
    StrCmpFlips(groupName(u), groupName(v));
    assert StrCmp("a", "c") < 0 && StrCmp("c", "a") > 0;
    assert u != v ==> cmp(c, b) <= 0 && cmp(b, a) <= 0;
    assert cmp(c, a) > 0;
  }

  /** In order: of any two, the later one does not come first. */
  ghost predicate InOrder(items: seq<DirItem>, cmp: Compare) {
    forall i, j :: 0 <= i < j < |items| ==> cmp(items[i], items[j]) <= 0
  }

  /** In order by name or size the directories are in front, and in each part the smaller comes before the larger. */
  lemma DirectoriesFirst(keys: (nat, nat) -> int, items: seq<DirItem>, i: nat, j: nat)
    requires Consistent(keys) && i < j < |items|
    ensures InOrder(items, ByName(keys)) && IsADir(items[j]) ==> IsADir(items[i])
    ensures InOrder(items, (a, b) => SortBySize(keys, a, b)) && IsADir(items[j]) ==> IsADir(items[i])
    ensures InOrder(items, (a, b) => SortBySize(keys, a, b)) && (IsADir(items[i]) <==> IsADir(items[j])) ==>
              items[i].size <= items[j].size
    ensures InOrder(items, ByName(keys)) && (IsADir(items[i]) <==> IsADir(items[j])) ==>
              keys(items[i].collate, items[j].collate) <= 0
  {
    if InOrder(items, ByName(keys)) {
      assert ByName(keys)(items[i], items[j]) <= 0;
    }
    var bySize: Compare := (a, b) => SortBySize(keys, a, b);
    if InOrder(items, bySize) {
      assert bySize(items[i], items[j]) <= 0;
    }
  }

  /** By date the older comes before the newer, whatever it is; only equal dates leave it to the name. */
  lemma OlderFirst(keys: (nat, nat) -> int, date: DirItem -> int, a: DirItem, b: DirItem)
    ensures date(a) < date(b) ==> SortByDate(keys, date, a, b) < 0 < SortByDate(keys, date, b, a)
    ensures date(a) == date(b) ==> SortByDate(keys, date, a, b) == SortByName(keys, a, b)
  {
  }

  /** An application directory is no directory here, and comes after one. */
  lemma WhatIsADirectory(item: DirItem)
    ensures IsADir(item) <==> item.baseType == 2 && !item.appDir
  {
  }

  /** By type: the base types in their order, applications last of theirs, then media type, subtype and name. */
  lemma TypesInOrder(keys: (nat, nat) -> int, a: DirItem, b: DirItem)
    ensures a.baseType < b.baseType ==> SortByType(keys, a, b) < 0 < SortByType(keys, b, a)
    ensures a.baseType == b.baseType && !a.appDir && b.appDir ==> SortByType(keys, a, b) < 0 < SortByType(keys, b, a)
    ensures a.baseType == b.baseType && a.appDir == b.appDir && a.mime.NoMime? && b.mime.Mime? ==>
              SortByType(keys, a, b) < 0 < SortByType(keys, b, a)
    ensures (a.baseType == b.baseType && a.appDir == b.appDir && a.mime.Mime? && b.mime.Mime? &&
             StrCmp(a.mime.mediaType, b.mime.mediaType) < 0) ==> SortByType(keys, a, b) < 0 < SortByType(keys, b, a)
    ensures (a.baseType == b.baseType && a.appDir == b.appDir && a.mime.Mime? && b.mime.Mime? &&
             a.mime.mediaType == b.mime.mediaType && StrCmp(a.mime.subtype, b.mime.subtype) < 0) ==>
              SortByType(keys, a, b) < 0 < SortByType(keys, b, a)
    ensures a.baseType == b.baseType && a.appDir == b.appDir && a.mime == b.mime ==>
              SortByType(keys, a, b) == SortByName(keys, a, b)
  {
    if a.mime.Mime? && b.mime.Mime? {
      StrCmpFlips(a.mime.mediaType, b.mime.mediaType);
      StrCmpFlips(a.mime.subtype, b.mime.subtype);
    }
  }

  /** By owner or group: the names of these in their order. */
  lemma NamesInOrder(keys: (nat, nat) -> int, name: nat -> string, a: DirItem, b: DirItem)
    ensures StrCmp(name(a.uid), name(b.uid)) < 0 ==>
              SortByOwner(keys, name, a, b) < 0 < SortByOwner(keys, name, b, a)
    ensures a.uid == b.uid ==> SortByOwner(keys, name, a, b) == SortByName(keys, a, b)
    ensures StrCmp(name(a.gid), name(b.gid)) < 0 ==>
              SortByGroup(keys, name, a, b) < 0 < SortByGroup(keys, name, b, a)
    ensures a.gid == b.gid ==> SortByGroup(keys, name, a, b) == SortByName(keys, a, b)
  {
    StrCmpFlips(name(a.uid), name(b.uid));
    StrCmpFlips(name(a.gid), name(b.gid));
  }
}
