/** The globals of the forked action process, and its conversation with the window. */
module Children {
  import opened Wrappers
  import opened Paths

  datatype ConflictPolicy = Ask | ReplaceAll | SkipExisting | UpdateNewer

  /** What a policy comes to as long as the user agrees to everything. */
  function WhenAgreed(policy: ConflictPolicy): ConflictPolicy {
    if policy == Ask then ReplaceAll else policy
  }

  /** The policy that answers come to is the same, or everything that exists is to be skipped. */
  predicate StaysOrSkips(before: ConflictPolicy, now: ConflictPolicy) {
    WhenAgreed(now) == WhenAgreed(before) || now == SkipExisting
  }

  /** `r` is in `after` more often than it was in `before`. */
  predicate Added(before: multiset<Path>, after: multiset<Path>, r: Path) {
    after[r] > before[r]
  }

  /** A flag that is flipped, or, for an `E`, the text that is now in the entry. */
  datatype Toggle = Toggle(flag: char, text: string)

  datatype Settings = Settings(quiet: bool, force: bool, brief: bool, merge: bool, recurse: bool, newer: bool,
                               ignore: bool, newEntry: string)

  function Flipped(s: Settings, t: Toggle): Settings {
    match t.flag
    case 'Q' => s.(quiet := !s.quiet)
    case 'F' => s.(force := !s.force)
    case 'R' => s.(recurse := !s.recurse)
    case 'B' => s.(brief := !s.brief)
    case 'M' => s.(merge := !s.merge)
    case 'W' => s.(newer := !s.newer)
    case 'I' => s.(ignore := !s.ignore)
    case 'E' => s.(newEntry := t.text)
    case _ => s
  }

  /** What the settings are after these toggles, one after the other. */
  function Toggled(s: Settings, toggles: seq<Toggle>): Settings {
    if toggles == [] then s else Flipped(Toggled(s, toggles[..|toggles| - 1]), toggles[|toggles| - 1])
  }

  /** Each flag has its own letter and is flipped by it alone. */
  lemma FlippedExactly(s: Settings, t: Toggle)
    ensures Flipped(s, t).quiet == (s.quiet != (t.flag == 'Q'))
    ensures Flipped(s, t).force == (s.force != (t.flag == 'F'))
    ensures Flipped(s, t).brief == (s.brief != (t.flag == 'B'))
    ensures Flipped(s, t).merge == (s.merge != (t.flag == 'M'))
    ensures Flipped(s, t).recurse == (s.recurse != (t.flag == 'R'))
    ensures Flipped(s, t).newer == (s.newer != (t.flag == 'W'))
    ensures Flipped(s, t).ignore == (s.ignore != (t.flag == 'I'))
    ensures Flipped(s, t).newEntry == if t.flag == 'E' then t.text else s.newEntry
  {
    match t.flag
    case 'Q' => assert Flipped(s, t) == s.(quiet := !s.quiet);
    case 'F' => assert Flipped(s, t) == s.(force := !s.force);
    case 'R' => assert Flipped(s, t) == s.(recurse := !s.recurse);
    case 'B' => assert Flipped(s, t) == s.(brief := !s.brief);
    case 'M' => assert Flipped(s, t) == s.(merge := !s.merge);
    case 'W' => assert Flipped(s, t) == s.(newer := !s.newer);
    case 'I' => assert Flipped(s, t) == s.(ignore := !s.ignore);
    case 'E' => assert Flipped(s, t) == s.(newEntry := t.text);
    case _ => assert Flipped(s, t) == s;
  }

  class Child {
    var conflictPolicy: ConflictPolicy
    var actionLeaf: Option<Name>
    var quiet: bool
    var force: bool
    var brief: bool
    var merge: bool
    var recurse: bool
    var newer: bool
    var ignore: bool
    /** What is in the text entry of the window. */
    var newEntry: string
    /** Somebody sits at the window: flags may be toggled at any moment. */
    const attended: bool
    /** The paths the user has said no to, as often as that happened. */
    ghost var denied: multiset<Path>
    /** The paths the user has been asked about, and every answer, in the order they came. */
    ghost var asked: multiset<Path>
    ghost var answers: seq<char>
    /** Every toggle that has been read. */
    ghost var toggles: seq<Toggle>
    /** Whoever is to act on the flags has looked for toggles first. */
    ghost var current: bool

    constructor (policy: ConflictPolicy, leaf: Option<Name>, quiet: bool, force: bool, attended: bool)
      ensures conflictPolicy == policy && actionLeaf == leaf
      ensures this.quiet == quiet && this.force == force && this.attended == attended
      ensures !brief && !merge && !recurse && !newer && !ignore && newEntry == ""
      ensures denied == asked == multiset{} && answers == [] && toggles == []
    {
      conflictPolicy, actionLeaf := policy, leaf;
      this.quiet, this.force, this.attended := quiet, force, attended;
      brief, merge, denied, asked, answers := false, false, multiset{}, multiset{}, [];
      recurse, newer, ignore, newEntry, toggles, current := false, false, false, "", [], false;
    }

    /** The run asks nothing by itself and nobody interferes. */
    ghost predicate Unattended()
      reads this
    {
      !attended && quiet && conflictPolicy != Ask
    }

    /** `text` is what follows an `E` on the pipe. */
    method ProcessFlag(flag: char, text: string)
      modifies this`quiet, this`force, this`brief, this`merge, this`recurse, this`newer, this`ignore, this`newEntry
      ensures quiet == (old(quiet) != (flag == 'Q')) && force == (old(force) != (flag == 'F'))
      ensures brief == (old(brief) != (flag == 'B')) && merge == (old(merge) != (flag == 'M'))
      ensures recurse == (old(recurse) != (flag == 'R')) && newer == (old(newer) != (flag == 'W'))
      ensures ignore == (old(ignore) != (flag == 'I')) && newEntry == if flag == 'E' then text else old(newEntry)
    {
      match flag
      case 'Q' => quiet := !quiet;
      case 'F' => force := !force;
      case 'B' => brief := !brief;
      case 'R' => recurse := !recurse;
      case 'M' => merge := !merge;
      case 'W' => newer := !newer;
      case 'I' => ignore := !ignore;
      case 'E' => newEntry := text;
      case _ =>
    }

    /** What the flags and the entry say, in one value. */
    ghost function Now(): Settings
      reads this
    {
      Settings(quiet, force, brief, merge, recurse, newer, ignore, newEntry)
    }

    /** Reads every toggle that has arrived, before anything is done. */
    method CheckFlags()
      modifies this`quiet, this`force, this`brief, this`merge, this`recurse, this`newer, this`ignore, this`newEntry,
        this`toggles, this`current
      ensures current && Read() && (!attended ==> Now() == old(Now()))
    {
      ReadToggles();
      current := true;
    }

    /** Some toggles have come, and all of them have been obeyed. */
    twostate predicate Read()
      reads this
    {
      old(toggles) <= toggles && Now() == Toggled(old(Now()), toggles[|old(toggles)|..])
    }

    method ReadToggles()
      modifies this`quiet, this`force, this`brief, this`merge, this`recurse, this`newer, this`ignore, this`newEntry,
        this`toggles
      ensures Read() && (!attended ==> Now() == old(Now()))
    {
      var arrived: int := *;
      assert toggles[|toggles|..] == [];
      while attended && arrived > 0
        invariant Read() && (!attended ==> Now() == old(Now()))
      {
        var flag: char, text: string := *, *;
        FlippedExactly(Now(), Toggle(flag, text));
        ProcessFlag(flag, text);
        ghost var more := toggles + [Toggle(flag, text)];
        assert more[|old(toggles)|..] == toggles[|old(toggles)|..] + [Toggle(flag, text)];
        toggles := more;
        arrived := arrived - 1;
      }
    }

    /** The user is asked, and gives one of the answers there are; toggles may come before it. */
    method Prompt(about: Path, allowed: set<char>) returns (answer: char)
      requires allowed != {}
      modifies this`quiet, this`force, this`brief, this`merge, this`recurse, this`newer, this`ignore, this`newEntry,
        this`asked, this`answers, this`toggles
      ensures answer in allowed && answers == old(answers) + [answer] && asked == old(asked) + multiset{about}
      ensures !attended ==> Now() == old(Now())
    {
      ReadToggles();
      answer :| answer in allowed;
      asked, answers := asked + multiset{about}, answers + [answer];
    }

    /** Asked is one more question, and the answer to it is the last. */
    twostate predicate Asked(about: Path)
      reads this
    {
      && asked == old(asked) + multiset{about}
      && |answers| == |old(answers)| + 1 && answers[..|old(answers)|] == old(answers)
    }

    /** Waits for the user unless quiet. */
    method Reply(ignoreQuiet: bool, about: Path) returns (yes: bool)
      modifies this`quiet, this`force, this`brief, this`merge, this`recurse, this`newer, this`ignore, this`newEntry,
        this`denied, this`asked, this`answers, this`toggles
      ensures denied == if yes then old(denied) else old(denied) + multiset{about}
      ensures old(quiet) && !ignoreQuiet ==> yes && unchanged(this)
      ensures !old(quiet) || ignoreQuiet ==> Asked(about)
      ensures !old(quiet) || ignoreQuiet ==>
        answers[|old(answers)|] in {'Y', 'N'} && yes == (answers[|old(answers)|] == 'Y')
      ensures !attended ==> Now() == old(Now())
    {
      if quiet && !ignoreQuiet {
        return true;
      }
      var answer := Prompt(about, {'Y', 'N'});
      yes := answer == 'Y';
      denied := if yes then denied else denied + multiset{about};
    }

    /** Replacing and skipping everything answer by themselves, from the answer on that says so. */
    method ConflictReply(about: Path) returns (yes: bool)
      modifies this`quiet, this`force, this`brief, this`merge, this`recurse, this`newer, this`ignore, this`newEntry,
        this`conflictPolicy, this`denied, this`asked, this`answers, this`toggles
      ensures denied == if yes then old(denied) else old(denied) + multiset{about}
      ensures old(conflictPolicy) == ReplaceAll ==> yes && unchanged(this)
      ensures old(conflictPolicy) == SkipExisting ==>
        !yes && conflictPolicy == SkipExisting && Now() == old(Now()) && asked == old(asked)
      ensures old(conflictPolicy) !in {ReplaceAll, SkipExisting} ==> Asked(about)
      ensures old(conflictPolicy) !in {ReplaceAll, SkipExisting} ==>
        match answers[|old(answers)|]
        case 'A' => yes && conflictPolicy == ReplaceAll
        case 'S' => !yes && conflictPolicy == SkipExisting
        case 'Y' => yes && conflictPolicy == old(conflictPolicy)
        case 'N' => !yes && conflictPolicy == old(conflictPolicy)
        case _ => false
      ensures !attended ==> Now() == old(Now())
    {
      if conflictPolicy == ReplaceAll {
        return true;
      }
      yes := false;
      if conflictPolicy != SkipExisting {
        var answer := Prompt(about, {'A', 'S', 'Y', 'N'});
        match answer
        case 'A' =>
          conflictPolicy := ReplaceAll;
          yes := true;
        case 'S' =>
          conflictPolicy := SkipExisting;
        case 'Y' => yes := true;
        case _ =>
      }
      denied := if yes then denied else denied + multiset{about};
    }

    /** The path in `dir` that `source` goes to: its own leaf, unless the action renames it. */
    function DestPath(source: Path, dir: Path): Path
      reads this`actionLeaf
      requires source != []
    {
      dir + [if actionLeaf.Some? then actionLeaf.value else Leaf(source)]
    }
  }
}
