/** The xor handler and the command line as objects. `Parse` is proved to
    compute Scan.Parse, and what Acceptance proves of that is carried over. */
module CmdLines {
  import opened Args
  import opened Scan
  import opened ArgObjects
  import opened Acceptance
  import L = Labels
  import Accounting
  import Repeats
  import Verdicts

  ghost function Snaps(list: seq<Arg>): (r: seq<ArgState>)
    reads list
    ensures |r| == |list|
  {
    seq(|list|, j requires 0 <= j < |list| reads list => list[j].Snap())
  }

  ghost function Objects(list: seq<Arg>): set<Arg> { set a | a in list }

  function IdsOf(list: seq<Arg>): (r: seq<nat>)
    ensures |r| == |list|
  {
    seq(|list|, j requires 0 <= j < |list| => list[j].id)
  }

  function GroupIds(lists: seq<seq<Arg>>): (r: seq<seq<nat>>)
    ensures |r| == |lists|
  {
    seq(|lists|, g requires 0 <= g < |lists| => IdsOf(lists[g]))
  }

  ghost predicate NoRepeats(list: seq<Arg>) {
    forall i, j :: 0 <= i < j < |list| ==> list[i] != list[j]
  }

  // Two objects have the same address only if they are the same object.
  ghost predicate Addressed(list: seq<Arg>) {
    forall a, b :: a in list && b in list && a.id == b.id ==> a == b
  }

  lemma InIds(list: seq<Arg>, members: seq<Arg>, a: Arg)
    requires Addressed(list) && a in list && forall m :: m in members ==> m in list
    ensures a.id in IdsOf(members) <==> a in members
  {
    if a.id in IdsOf(members) {
      var i :| 0 <= i < |members| && IdsOf(members)[i] == a.id;
      assert members[i] in list;
    }
    if a in members {
      var i :| 0 <= i < |members| && members[i] == a;
      assert IdsOf(members)[i] == a.id;
    }
  }

  lemma AddressedWithin(all: seq<Arg>, list: seq<Arg>, ors: seq<Arg>, m: nat)
    requires Addressed(all) && m < |ors|
    requires Objects(list) + Objects(ors) <= Objects(all)
    ensures Addressed(list + [ors[m]])
  {
    forall x | x in list + [ors[m]] ensures x in all {
      assert x in Objects(list) + Objects(ors);
    }
  }

  /** Whether an argument is new to a list: a labeled one has a name of its own, and
      a flag of its own if it has any; an unlabeled one has a name and a description
      of its own. A required argument is described with its label in front. */
  ghost predicate Newcomer(a: Arg, list: seq<Arg>)
    reads list
  {
    if a.kind.Unlabeled() then
      forall b :: b in list ==>
        b.name != a.name
        && a.description != if b.required then "(" + b.requireLabel + ")  " + b.description else b.description
    else NewLabel(a, list)
  }

  ghost predicate NewLabel(a: Arg, list: seq<Arg>) {
    forall b :: b in list ==> b.name != a.name && (a.flag == "" || b.flag != a.flag)
  }

  lemma NewcomerFits(a: Arg, list: seq<Arg>)
    ensures Newcomer(a, list) <==> forall b :: b in list ==> !a.Spec().Clashes(b.Spec())
  {
  }

  // Nobody in the list could be meant by a token that means the argument.
  ghost predicate Unmistakable(a: Arg, list: seq<Arg>)
    reads a, list
  {
    !a.kind.Unlabeled() && L.Told(a.Spec()) && (forall b :: b in list ==> L.Told(b.Spec())) ==>
      (Newcomer(a, list) <==> forall b :: b in list ==> !L.Confused(a.Spec(), b.Spec()))
  }

  lemma NewcomerUnmistakable(a: Arg, list: seq<Arg>)
    ensures Unmistakable(a, list)
  {
    if !a.kind.Unlabeled() && L.Told(a.Spec()) && forall b :: b in list ==> L.Told(b.Spec()) {
      forall b | b in list { L.ClashesIff(a.Spec(), b.Spec()); }
      NewcomerFits(a, list);
    }
  }

  // Newness depends on the members alone.
  lemma SameMembers(list: seq<Arg>, list': seq<Arg>)
    requires Objects(list) == Objects(list')
    ensures forall a: Arg :: NewLabel(a, list) <==> NewLabel(a, list')
  {
    assert forall b :: b in list <==> b in Objects(list);
    assert forall b :: b in list' <==> b in Objects(list');
  }

  // The labeled arguments up to there are new, one after the other.
  ghost predicate NewUpTo(before: seq<Arg>, ors: seq<Arg>, m: nat)
    requires m <= |ors|
  {
    forall i :: 0 <= i < m && !ors[i].kind.Unlabeled() ==> NewLabel(ors[i], before + ors[..i])
  }

  // Distinct new arguments, required by now.
  ghost predicate Added(before: seq<Arg>, ors: seq<Arg>)
    reads ors
  {
    && NoRepeats(ors)
    && forall x :: x in ors ==> x !in before && x.required && x.requireLabel == "OR required"
  }

  lemma AddedGrows(before: seq<Arg>, ors: seq<Arg>, m: nat)
    requires m < |ors| && Added(before, ors[..m])
    requires ors[m] !in before && ors[m] !in ors[..m]
    requires ors[m].required && ors[m].requireLabel == "OR required"
    ensures Objects(ors[..m + 1]) == Objects(ors[..m]) + {ors[m]}
    ensures Added(before, ors[..m + 1])
  {
    assert ors[..m + 1] == ors[..m] + [ors[m]];
  }

  class XorHandler {
    var orList: seq<seq<Arg>>

    constructor ()
      ensures orList == []
    {
      orList := [];
    }

    method Add(ors: seq<Arg>)
      modifies this
      ensures orList == old(orList) + [ors]
    {
      orList := orList + [ors];
    }

    // The first member of the list other than a that is set, if there is one.
    method RivalOf(members: seq<Arg>, a: Arg, ghost list: seq<Arg>) returns (rival: seq<nat>)
      requires Addressed(list) && a in list && forall m :: m in members ==> m in list
      ensures rival == if RivalSet(Snaps(list), IdsOf(members), a.id)
                       then [Rival(Snaps(list), IdsOf(members), a.id)] else []
    {
      ghost var ids := IdsOf(members);
      assert ids[0..] == ids;
      for i := 0 to |members|
        invariant forall j :: 0 <= j < i && members[j] != a ==> !members[j].Snap().IsSet()
        invariant Rival(Snaps(list), ids, a.id) == Rival(Snaps(list), ids[i..], a.id)
      {
        RivalNext(list, members, a, i);
        if members[i] != a && members[i].Snap().IsSet() {
          RivalsAgree(list, members, a);
          return [members[i].id];
        }
      }
      RivalsAgree(list, members, a);
      return [];
    }

    method SetOthers(members: seq<Arg>, a: Arg)
      modifies Objects(members)
      ensures forall b :: b in members ==>
        b.Snap() == if b == a then old(b.Snap()) else old(b.Snap()).(alreadySet := true, xorSet := true)
    {
      for i := 0 to |members|
        invariant forall b :: b in members ==>
          b.Snap() == if b != a && b in members[..i] then old(b.Snap()).(alreadySet := true, xorSet := true)
                      else old(b.Snap())
      {
        if members[i] != a { members[i].XorSet(); }
        assert members[..i + 1] == members[..i] + [members[i]];
      }
      assert members[..|members|] == members;
    }

    ghost predicate Within(list: seq<Arg>)
      reads this
    {
      Addressed(list) && forall g :: 0 <= g < |orList| ==> forall m :: m in orList[g] ==> m in list
    }

    /** check: the weight of a match, or the clash with a member already set.
        The other members of the list are barred. */
    method Check(a: Arg, ghost list: seq<Arg>, ghost k: nat) returns (error: seq<Error>, weight: int)
      requires Within(list) && k < |list| && list[k] == a
      modifies Objects(list)
      ensures match Scan.Check(GroupIds(orList), old(Snaps(list)), k)
              case Clash(e) => error == [e] && Snaps(list) == old(Snaps(list))
              case Counted(args, w) => error == [] && weight == w && Snaps(list) == args
    {
      ghost var groups := GroupIds(orList);
      for i := 0 to |orList|
        invariant forall h :: 0 <= h < i ==> a !in orList[h]
        invariant Snaps(list) == old(Snaps(list))
      {
        if a in orList[i] {
          GroupFound(list, a, i);
          assert Snaps(list)[k] == a.Snap();
          var rival := RivalOf(orList[i], a, list);
          if |rival| > 0 { return [MutuallyExclusive(rival[0])], 0; }
          assert Objects(orList[i]) <= Objects(list);
          SetOthers(orList[i], a);
          var more := a.AllowMore();
          MembersAgree(list, orList[i]);
          assert Snaps(list) == Exclude(old(Snaps(list)), groups[i], a.id);
          return [], if more then 0 else |orList[i]|;
        }
      }
      NoGroup(list, a);
      assert Snaps(list)[k] == a.Snap();
      return [], if a.Snap().IsRequired() then 1 else 0;
    }

    lemma GroupFound(list: seq<Arg>, a: Arg, i: nat)
      requires Within(list) && a in list && i < |orList|
      requires a in orList[i] && forall h :: 0 <= h < i ==> a !in orList[h]
      ensures GroupOf(GroupIds(orList), a.id) == i
    {
      forall h | 0 <= h < |orList| ensures a.id in GroupIds(orList)[h] <==> a in orList[h] {
        InIds(list, orList[h], a);
      }
      assert a.id in GroupIds(orList)[i];
      assert forall h :: 0 <= h < i ==> a.id !in GroupIds(orList)[h];
    }

    lemma NoGroup(list: seq<Arg>, a: Arg)
      requires Within(list) && a in list && forall h :: 0 <= h < |orList| ==> a !in orList[h]
      ensures GroupOf(GroupIds(orList), a.id) == |orList|
    {
      forall h | 0 <= h < |orList| ensures a.id !in GroupIds(orList)[h] {
        InIds(list, orList[h], a);
      }
    }
  }

  lemma SetAgrees(list: seq<Arg>, a: Arg)
    requires Addressed(list) && a in list
    ensures SetId(Snaps(list), a.id) <==> a.Snap().IsSet()
  {
    var k :| 0 <= k < |list| && list[k] == a;
    assert Snaps(list)[k].spec.id == a.id;
    if SetId(Snaps(list), a.id) {
      var j :| 0 <= j < |list| && Snaps(list)[j].spec.id == a.id && Snaps(list)[j].IsSet();
      assert list[j] in list;
    }
  }

  // One member more is looked at.
  lemma RivalNext(list: seq<Arg>, members: seq<Arg>, a: Arg, i: nat)
    requires Addressed(list) && a in list && i < |members| && members[i] in list
    ensures Rival(Snaps(list), IdsOf(members)[i..], a.id)
         == if members[i] != a && members[i].Snap().IsSet() then members[i].id
            else Rival(Snaps(list), IdsOf(members)[i + 1..], a.id)
  {
    var ids := IdsOf(members)[i..];
    assert ids[0] == members[i].id && ids[1..] == IdsOf(members)[i + 1..];
    SetAgrees(list, members[i]);
  }

  lemma RivalsAgree(list: seq<Arg>, members: seq<Arg>, a: Arg)
    requires Addressed(list) && a in list && forall m :: m in members ==> m in list
    ensures RivalSet(Snaps(list), IdsOf(members), a.id) <==>
            exists b :: b in members && b != a && b.Snap().IsSet()
  {
    if b :| b in members && b != a && b.Snap().IsSet() {
      var j :| 0 <= j < |list| && list[j] == b;
      InIds(list, members, b);
      assert Snaps(list)[j].spec.id in IdsOf(members);
    }
    if RivalSet(Snaps(list), IdsOf(members), a.id) {
      var j :| 0 <= j < |list| && Snaps(list)[j].spec.id in IdsOf(members)
               && Snaps(list)[j].spec.id != a.id && Snaps(list)[j].IsSet();
      InIds(list, members, list[j]);
    }
  }

  lemma MembersAgree(list: seq<Arg>, members: seq<Arg>)
    requires Addressed(list) && forall m :: m in members ==> m in list
    ensures forall b :: b in list ==> (b.id in IdsOf(members) <==> b in members)
  {
    forall b | b in list ensures b.id in IdsOf(members) <==> b in members {
      InIds(list, members, b);
    }
  }

  // How a call of parse ends.
  datatype Answer = Refusal(error: Error) | Departure | Success

  const IGNORE_TEXT := "Ignores the rest of the labeled arguments following this flag."
  const VERSION_TEXT := "Displays version information and exits."
  const HELP_TEXT := "Displays usage information and exits."

  function BuiltIn(id: nat, flag: string, name: string, text: string, visitor: Visitor): ArgState {
    ArgState(Spec(id, Switch, flag, name, text, "required", visitor, true, false),
             false, false, false, false, 0, "", [])
  }

  method NewBuiltIn(id: nat, flag: string, name: string, text: string, visitor: Visitor) returns (a: Arg)
    ensures fresh(a) && a.Snap() == BuiltIn(id, flag, name, text, visitor)
  {
    a := new Arg(id, Switch, flag, name, text, false, visitor, true, false, 0, "");
  }

  function BuiltIns(helpAndVersion: bool): seq<ArgState> {
    [BuiltIn(0, "-", "ignore_rest", IGNORE_TEXT, IgnoreRest)]
    + if helpAndVersion then
        [BuiltIn(1, "", "version", VERSION_TEXT, Leave), BuiltIn(2, "h", "help", HELP_TEXT, Leave)]
      else []
  }

  lemma BuiltInsSorted(helpAndVersion: bool)
    ensures L.Sorted(BuiltIns(helpAndVersion)) && RequiredIds(BuiltIns(helpAndVersion)) == {}
  {
    var args := BuiltIns(helpAndVersion);
    assert args[0].spec.name[0] == 'i';
    assert helpAndVersion ==> args[1].spec.name[0] == 'v' && args[2].spec.name[0] == 'h';
  }

  /** The switches a command line begins with: `--help`, `-h` and `--version` leave
      the program wherever they stand first, whatever else the line holds and
      whichever arguments have been added. */
  lemma HelpLeaves(c: Scan.Config, args: seq<ArgState>, required: int, tokens: seq<string>)
    requires L.WellLabeled(args, c.delimiter) && Built(c.groups, args) && Fresh(args)
    requires forall b :: b in BuiltIns(true) ==> b in args
    requires tokens != [] && tokens[0] in ["-h", "--help", "--version"]
    ensures Scan.Parse(c, State(args, false, 0), required, tokens) == Gone
  {
    var b := BuiltIns(true)[if tokens[0] == "--version" then 1 else 2];
    assert b in BuiltIns(true) && b.spec.Matches(tokens[0]);
    var p :| 0 <= p < |args| && args[p] == b;
    Verdicts.LeavesAtOnce(c, args, required, tokens, p);
  }

  /** And `--` and `--ignore_rest` end the labels: from there on every token is a
      word or passed over. */
  lemma DashesEnd(c: Scan.Config, args: seq<ArgState>, closed: set<nat>, token: string)
    requires L.WellLabeled(args, c.delimiter) && BuiltIns(true)[0] in args && token in ["--", "--ignore_rest"]
    ensures !Accounting.NextReader(c, args, Accounting.Reader(true, closed), token).labels
  {
    var b := BuiltIns(true)[0];
    var p :| 0 <= p < |args| && args[p] == b;
    assert b.spec.Matches(token);
    Accounting.FateExact(c, args, Accounting.Reader(true, closed), token, Accounting.Named(p));
  }

  lemma BuiltInsFit(list: seq<Arg>, helpAndVersion: bool)
    requires Snaps(list) == BuiltIns(helpAndVersion)
    ensures ListedAs(list, 0) && forall a :: a in list ==> !a.required
  {
    BuiltInsSorted(helpAndVersion);
    var args := BuiltIns(helpAndVersion);
    assert forall j :: 0 <= j < |args| ==> list[j].Snap() == args[j] && args[j].spec.id == j;
  }

  // Distinct objects, sorted and counted, and fit to be parsed.
  ghost predicate ListedAs(list: seq<Arg>, numRequired: int)
    reads list
  {
    && Addressed(list)
    && NoRepeats(list)
    && Fit(Snaps(list), numRequired)
  }

  // A list is listed as long as its members are as they were.
  lemma ListedFrom(list: seq<Arg>, snaps: seq<ArgState>, numRequired: int)
    requires Addressed(list) && NoRepeats(list) && Fit(snaps, numRequired)
    requires |snaps| == |list| && forall j :: 0 <= j < |list| ==> list[j].Snap() == snaps[j]
    ensures ListedAs(list, numRequired)
  {
    assert Snaps(list) == snaps;
  }

  // The counting loops of the list end.
  ghost predicate AllCountable(list: seq<Arg>, delimiter: char) {
    forall a :: a in list && a.kind.MultiSwitch? ==> Countable(a.flag, delimiter)
  }

  /** What makes an argument readable on a line: a flag of one character at most
      and a name, neither of which holds the delimiter, and the dash as flag for
      the ignore-rest switch alone. */
  ghost predicate LabelFits(a: Arg, delimiter: char) {
    if a.kind.Unlabeled() then !a.visitor.IgnoreRest?
    else L.GoodLabel(Args.Spec(a.id, a.kind, a.flag, a.name, a.description, "", a.visitor, a.ignoreable, false),
                     delimiter)
  }

  ghost predicate AllReadable(list: seq<Arg>, delimiter: char) {
    delimiter != DASH && delimiter != BLANK && forall a :: a in list ==> LabelFits(a, delimiter)
  }

  lemma MembersFit(list: seq<Arg>, before: seq<Arg>, a: Arg, delimiter: char)
    requires Objects(list) == Objects(before) + {a}
    ensures AllCountable(before, delimiter) && (a.kind.MultiSwitch? ==> Countable(a.flag, delimiter)) ==>
      AllCountable(list, delimiter)
    ensures AllReadable(before, delimiter) && LabelFits(a, delimiter) ==> AllReadable(list, delimiter)
  {
    assert forall x :: x in list ==> x in Objects(before) + {a};
  }

  lemma ReadableLabeled(list: seq<Arg>, numRequired: int, delimiter: char)
    requires ListedAs(list, numRequired) && AllReadable(list, delimiter)
    ensures L.WellLabeled(Snaps(list), delimiter)
  {
    forall j | 0 <= j < |list| ensures LabelFits(list[j], delimiter) {
      assert list[j] in list;
    }
  }

  // Sorted and counted.
  ghost predicate Fit(args: seq<ArgState>, numRequired: int) {
    L.Sorted(args) && numRequired == |RequiredIds(args)|
  }

  lemma FitPlaced(args: seq<ArgState>, a: ArgState, numRequired: int)
    requires Fit(args, numRequired) && (a.spec.kind.Unlabeled() ==> a.spec.flag == "")
    requires forall j :: 0 <= j < |args| ==> L.Apart(a.spec, args[j].spec) && args[j].spec.id != a.spec.id
    ensures Fit(Placed(args, a, a.spec.kind.Unlabeled()), numRequired + if a.spec.required then 1 else 0)
  {
    PlacedSorted(args, a);
    PlacedCount(args, a, a.spec.kind.Unlabeled());
  }

  lemma BuiltInsGood(d: char)
    requires d == ' ' || d == '='
    ensures L.GoodLabel(BuiltIn(0, "-", "ignore_rest", IGNORE_TEXT, IgnoreRest).spec, d)
    ensures L.GoodLabel(BuiltIn(1, "", "version", VERSION_TEXT, Leave).spec, d)
    ensures L.GoodLabel(BuiltIn(2, "h", "help", HELP_TEXT, Leave).spec, d)
  {
  }

  lemma BuiltInsReadable(list: seq<Arg>, helpAndVersion: bool)
    requires Snaps(list) == BuiltIns(helpAndVersion)
    ensures AllReadable(list, ' ') && AllReadable(list, '=') && forall a :: a in list ==> a.kind.Switch?
  {
    BuiltInsGood(' ');
    BuiltInsGood('=');
    forall j | 0 <= j < |list|
      ensures LabelFits(list[j], ' ') && LabelFits(list[j], '=') && list[j].kind.Switch?
    {
      SameLabel(list[j], BuiltIns(helpAndVersion)[j]);
    }
  }

  lemma SameLabel(a: Arg, b: ArgState)
    requires a.Snap() == b && !b.spec.kind.Unlabeled()
    ensures forall d :: LabelFits(a, d) <==> L.GoodLabel(b.spec, d)
  {
  }

  method NewBuiltIns(helpAndVersion: bool) returns (list: seq<Arg>)
    ensures Snaps(list) == BuiltIns(helpAndVersion) && fresh(Objects(list))
    ensures ListedAs(list, 0) && forall a :: a in list ==> !a.required
    ensures AllReadable(list, ' ') && AllReadable(list, '=') && forall a :: a in list ==> a.kind.Switch?
  {
    var ignore := NewBuiltIn(0, "-", "ignore_rest", IGNORE_TEXT, IgnoreRest);
    if helpAndVersion {
      var version := NewBuiltIn(1, "", "version", VERSION_TEXT, Leave);
      var help := NewBuiltIn(2, "h", "help", HELP_TEXT, Leave);
      list := [ignore, version, help];
    } else {
      list := [ignore];
    }
    assert forall j :: 0 <= j < |list| ==> Snaps(list)[j] == BuiltIns(helpAndVersion)[j];
    BuiltInsFit(list, helpAndVersion);
    BuiltInsReadable(list, helpAndVersion);
  }

  class CmdLine {
    var argList: seq<Arg>
    var numRequired: int
    var progName: string
    const xorHandler: XorHandler
    const globals: Globals

    /** The switches every command line begins with: `--`, and on request
        `--version` and `-h`. They sit at addresses 0, 1 and 2. */
    constructor (delimiter: char, helpAndVersion: bool)
      ensures Valid() && (delimiter == ' ' || delimiter == '=' ==> Readable())
      ensures Snaps(argList) == BuiltIns(helpAndVersion)
      ensures numRequired == 0 && xorHandler.orList == [] && progName == "not_set_yet"
      ensures fresh(xorHandler) && fresh(globals) && fresh(Objects(argList))
      ensures !globals.ignoreRest && globals.delimiter == delimiter
    {
      numRequired, progName := 0, "not_set_yet";
      xorHandler := new XorHandler();
      globals := new Globals(delimiter);
      var builtIns := NewBuiltIns(helpAndVersion);
      argList := builtIns;
    }

    ghost predicate Listed()
      reads this, argList
    {
      ListedAs(argList, numRequired)
    }

    // The xor lists hold required arguments of the list, each once, and a
    // switch is required only there.
    ghost predicate Grouped()
      reads this, argList, xorHandler
    {
      var lists := xorHandler.orList;
      && xorHandler.Within(argList)
      && (forall g, m, n :: 0 <= g < |lists| && 0 <= m < n < |lists[g]| ==> lists[g][m] != lists[g][n])
      && (forall g, h, a :: 0 <= g < h < |lists| && a in lists[g] ==> a !in lists[h])
      && (forall g, a :: 0 <= g < |lists| && a in lists[g] && a in argList ==> a.required)
      && (forall a :: a in argList && (a.kind.Switch? || a.kind.MultiSwitch?) && a.required ==>
            exists g :: 0 <= g < |lists| && a in lists[g])
    }

    ghost predicate Valid()
      reads this, argList, xorHandler, globals
    {
      Listed() && Grouped() && AllCountable(argList, globals.delimiter)
    }

    // The line can be read as module Accounting reads it.
    ghost predicate Readable()
      reads this, globals
    {
      AllReadable(argList, globals.delimiter)
    }

    method ClashesWithAny(a: Arg) returns (found: bool)
      ensures found <==> !Newcomer(a, argList)
      ensures a in argList ==> found
    {
      NewcomerFits(a, argList);
      for i := 0 to |argList|
        invariant forall j :: 0 <= j < i ==> !a.Spec().Clashes(argList[j].Spec())
      {
        if a.Spec().Clashes(argList[i].Spec()) { return true; }
      }
      return false;
    }

    /** add: refused if the argument clashes with one already there; otherwise
        it goes to the front, or to the back if it is unlabeled. */
    method Add(a: Arg) returns (ok: bool)
      requires a !in argList ==> Listed()
      requires Addressed(argList + [a]) && Untouched(a.Snap())
      requires a.kind.Unlabeled() ==> a.flag == ""
      modifies this
      ensures ok <==> Newcomer(a, old(argList))
      ensures ok ==> a !in old(argList) && Listed()
      ensures argList == if ok then Placed(old(argList), a, a.kind.Unlabeled()) else old(argList)
      ensures numRequired == old(numRequired) + (if ok && a.required then 1 else 0) && progName == old(progName)
    {
      var taken := ClashesWithAny(a);
      if taken { return false; }
      ghost var before := argList;
      NewcomerFits(a, argList);
      AddKeeps(before, a, numRequired);
      ghost var snaps := Snaps(Placed(before, a, a.kind.Unlabeled()));
      assert a.Snap().IsRequired() == a.required;
      argList := Placed(argList, a, a.kind.Unlabeled());
      if a.Snap().IsRequired() { numRequired := numRequired + 1; }
      assert Snaps(argList) == snaps;
      return true;
    }

    /** add by reference, for an argument of its own: what the command line must
        be to parse is kept. Only xorAdd makes a switch required. */
    method AddOwn(a: Arg) returns (ok: bool)
      requires Valid() && Addressed(argList + [a]) && Addable(a)
      requires a.kind.MultiSwitch? ==> Countable(a.flag, globals.delimiter)
      requires !((a.kind.Switch? || a.kind.MultiSwitch?) && a.required)
      modifies this
      ensures Valid() && (ok <==> Newcomer(a, old(argList))) && Unmistakable(a, old(argList))
      ensures old(Readable()) && LabelFits(a, globals.delimiter) ==> Readable()
      ensures argList == if ok then Placed(old(argList), a, a.kind.Unlabeled()) else old(argList)
      ensures numRequired == old(numRequired) + (if ok && a.required then 1 else 0)
    {
      ghost var before := argList;
      NewcomerUnmistakable(a, argList);
      ok := Add(a);
      if ok {
        PlacedMembers(before, a, a.kind.Unlabeled());
        MembersFit(argList, before, a, globals.delimiter);
        StaysGrouped(before, a);
      }
    }

    // What an argument must be when it is added to a command line.
    static ghost predicate Addable(a: Arg)
      reads a
    {
      Untouched(a.Snap()) && (a.kind.Unlabeled() ==> a.flag == "")
    }

    // The body of the loop of xorAdd.
    method AddRequired(a: Arg) returns (ok: bool)
      requires Listed() && Addressed(argList + [a]) && Addable(a)
      modifies this, a
      ensures ok ==> Listed() && a !in old(argList)
      ensures ok ==> Objects(argList) == Objects(old(argList)) + {a}
      ensures ok ==> numRequired == old(numRequired) + 1 && Addable(a)
      ensures !ok ==> argList == old(argList) && numRequired == old(numRequired)
      ensures (ok <==> Newcomer(a, old(argList))) && a.required && a.requireLabel == "OR required"
    {
      ghost var list, snaps := argList, Snaps(argList);
      a.ForceRequired();
      a.SetRequireLabel("OR required");
      if a !in list { ListedFrom(list, snaps, numRequired); }
      ok := Add(a);
      PlacedMembers(list, a, a.kind.Unlabeled());
    }

    // The loop of xorAdd.
    method AddAll(ors: seq<Arg>) returns (added: nat)
      requires Listed() && Addressed(argList + ors) && forall a :: a in ors ==> Addable(a)
      modifies this, Objects(ors)
      ensures added <= |ors| && numRequired == old(numRequired) + added
      ensures Objects(argList) == Objects(old(argList)) + Objects(ors[..added])
      ensures added == |ors| ==> Listed()
      ensures Added(old(argList), ors[..added]) && NewUpTo(old(argList), ors, added)
      ensures added < |ors| ==> RefusedLast(old(argList), ors, added)
    {
      ghost var before, all := argList, argList + ors;
      for m := 0 to |ors|
        invariant AddedUpTo(before, ors, m, old(numRequired))
      {
        AddressedWithin(all, argList, ors, m);
        var ok := AddNext(before, ors, m, old(numRequired));
        if !ok { return m; }
      }
      assert ors[..|ors|] == ors;
      return |ors|;
    }

    // The first m arguments have been added to the list, one by one.
    ghost predicate AddedUpTo(before: seq<Arg>, ors: seq<Arg>, m: nat, required: int)
      requires m <= |ors|
      reads this, argList, ors
    {
      && Listed() && numRequired == required + m
      && Objects(argList) == Objects(before) + Objects(ors[..m])
      && Added(before, ors[..m]) && NewUpTo(before, ors, m)
      && forall x :: x in ors ==> Addable(x)
    }

    method AddNext(ghost before: seq<Arg>, ors: seq<Arg>, m: nat, ghost required: int) returns (ok: bool)
      requires m < |ors| && AddedUpTo(before, ors, m, required) && Addressed(argList + [ors[m]])
      modifies this, ors[m]
      ensures ok ==> AddedUpTo(before, ors, m + 1, required)
      ensures !ok ==> argList == old(argList) && numRequired == old(numRequired) && RefusedLast(before, ors, m)
      ensures !ok ==> Added(before, ors[..m])
    {
      SameMembers(argList, before + ors[..m]);
      ok := AddRequired(ors[m]);
      if ok { AddedGrows(before, ors, m); }
    }

    // What refuses the argument: its label, if it has one, is taken.
    ghost predicate RefusedLast(before: seq<Arg>, ors: seq<Arg>, k: nat)
      requires k < |ors|
      reads this, argList, ors
    {
      && !Newcomer(ors[k], argList)
      && (!ors[k].kind.Unlabeled() ==> !NewLabel(ors[k], before + ors[..k]))
    }

    /** xorAdd: the arguments become one xor list and are added as required. An
        exception part of the way leaves the list recorded, and the arguments
        before the refused one added. */
    method XorAdd(ors: seq<Arg>) returns (added: nat)
      requires Valid() && Addressed(argList + ors) && forall a :: a in ors ==> Addable(a)
      requires AllCountable(ors, globals.delimiter)
      modifies this, xorHandler, Objects(ors)
      ensures xorHandler.orList == old(xorHandler.orList) + [ors]
      ensures added <= |ors| && numRequired == old(numRequired) + added
      ensures Objects(argList) == Objects(old(argList)) + Objects(ors[..added])
      ensures added == |ors| ==> Valid()
      ensures Added(old(argList), ors[..added]) && NewUpTo(old(argList), ors, added)
      ensures added < |ors| ==> RefusedLast(old(argList), ors, added)
      ensures old(Readable()) && (forall a :: a in ors ==> LabelFits(a, globals.delimiter)) ==> Readable()
    {
      ghost var before := argList;
      ghost var lists := xorHandler.orList;
      xorHandler.Add(ors);
      added := AddAll(ors);
      assert forall x :: x in argList ==> x in before || x in ors by {
        assert forall x :: x in argList ==> x in Objects(before) + Objects(ors[..added]);
      }
      if added == |ors| {
        assert ors[..added] == ors;
        assert forall x :: x in before ==> x !in ors by {
          assert forall x :: x in before ==> x in Objects(before);
        }
        JoinGrouped(before, lists, ors);
      }
    }

    // A new xor list of newly added arguments fits in with the old ones.
    lemma JoinGrouped(before: seq<Arg>, lists: seq<seq<Arg>>, ors: seq<Arg>)
      requires Addressed(argList) && xorHandler.orList == lists + [ors]
      requires Objects(argList) == Objects(before) + Objects(ors)
      requires forall g, x :: 0 <= g < |lists| && x in lists[g] ==> x in before && x.required
      requires forall g, m, n :: 0 <= g < |lists| && 0 <= m < n < |lists[g]| ==> lists[g][m] != lists[g][n]
      requires forall g, h, a :: 0 <= g < h < |lists| && a in lists[g] ==> a !in lists[h]
      requires NoRepeats(ors) && Objects(ors) !! Objects(before) && forall x :: x in Objects(ors) ==> x.required
      requires forall a :: a in before && (a.kind.Switch? || a.kind.MultiSwitch?) && a.required ==>
                 exists g :: 0 <= g < |lists| && a in lists[g]
      ensures Grouped()
    {
      var all := xorHandler.orList;
      assert forall x :: x in argList <==> x in Objects(before) + Objects(ors);
      assert forall g :: 0 <= g < |lists| ==> all[g] == lists[g];
      assert all[|lists|] == ors;
      forall a | a in argList && (a.kind.Switch? || a.kind.MultiSwitch?) && a.required
        ensures exists g :: 0 <= g < |all| && a in all[g]
      {
        if a in before {
          var g :| 0 <= g < |lists| && a in lists[g];
          assert a in all[g];
        } else {
          assert a in all[|lists|];
        }
      }
    }

    // Adding an argument of its own, outside the xor lists, keeps them as they are.
    lemma StaysGrouped(before: seq<Arg>, a: Arg)
      requires Addressed(argList) && Objects(argList) == Objects(before) + {a}
      requires !((a.kind.Switch? || a.kind.MultiSwitch?) && a.required)
      requires forall g, x :: 0 <= g < |xorHandler.orList| && x in xorHandler.orList[g] ==> x in before && x.required
      requires var lists := xorHandler.orList;
        && (forall g, m, n :: 0 <= g < |lists| && 0 <= m < n < |lists[g]| ==> lists[g][m] != lists[g][n])
        && (forall g, h, x :: 0 <= g < h < |lists| && x in lists[g] ==> x !in lists[h])
        && (forall x :: x in before && (x.kind.Switch? || x.kind.MultiSwitch?) && x.required ==>
              exists g :: 0 <= g < |lists| && x in lists[g])
      ensures Grouped()
    {
      assert forall x :: x in argList <==> x in Objects(before) + {a};
    }

    // What Acceptance asks of the lists.
    lemma ValidBuilt()
      requires Listed() && Grouped()
      ensures Built(GroupIds(xorHandler.orList), Snaps(argList))
    {
      var lists := xorHandler.orList;
      var groups := GroupIds(lists);
      forall g | 0 <= g < |groups| ensures Distinct(groups[g]) {
        forall m, n | 0 <= m < n < |groups[g]| ensures groups[g][m] != groups[g][n] {
          assert lists[g][m] in lists[g] && lists[g][n] in lists[g];
        }
      }
      forall g, id | 0 <= g < |groups| && id in groups[g]
        ensures GroupOf(groups, id) == g && Known(Snaps(argList), id)
      {
        GroupMember(g, id);
      }
      forall j | 0 <= j < |argList| && (argList[j].kind.Switch? || argList[j].kind.MultiSwitch?) && argList[j].required
        ensures Acceptance.Grouped(groups, argList[j].id)
      {
        var g :| 0 <= g < |lists| && argList[j] in lists[g];
        InIds(argList, lists[g], argList[j]);
        assert argList[j].id in groups[g];
      }
    }

    lemma GroupMember(g: nat, id: nat)
      requires Listed() && Grouped() && g < |xorHandler.orList| && id in GroupIds(xorHandler.orList)[g]
      ensures GroupOf(GroupIds(xorHandler.orList), id) == g && Known(Snaps(argList), id)
    {
      var lists := xorHandler.orList;
      var i :| 0 <= i < |lists[g]| && IdsOf(lists[g])[i] == id;
      var a := lists[g][i];
      assert a in lists[g] && a in argList;
      var j :| 0 <= j < |argList| && argList[j] == a;
      assert Snaps(argList)[j].spec.id == id && Snaps(argList)[j].spec.required;
      assert forall h :: 0 <= h < g ==> a !in lists[h];
      xorHandler.GroupFound(argList, a, g);
    }

    ghost function Config(): Config
      reads this, xorHandler, globals
    {
      Scan.Config(GroupIds(xorHandler.orList), globals.delimiter)
    }

    // All that the inner loop needs of the list.
    ghost predicate Parsable()
      reads this, globals
    {
      NoRepeats(argList) && AllCountable(argList, globals.delimiter)
    }

    // One turn of the inner loop: argument k is offered the token at i.
    method OfferOne(k: nat, i: nat, args: array<string>) returns (r: Response, next: nat)
      requires Parsable() && k < |argList| && i < args.Length
      modifies argList[k], args, globals
      ensures globals.delimiter == old(globals.delimiter)
      ensures match Process(old(Snaps(argList)[k]), old(globals.delimiter), old(globals.ignoreRest), old(args[i]),
                            old(args[i + 1..]))
              case Failed(e) => r == Threw(e)
              case Quit => r == LeftProgram
              case Went(matched, a, token, extra, ignore) =>
                && r == Returned(matched) && next == i + extra && globals.ignoreRest == ignore
                && Snaps(argList) == old(Snaps(argList))[k := a]
                && args[..] == old(args[..])[i := token]
      ensures r == Returned(false) ==> next == i
    {
      ghost var snaps := Snaps(argList);
      ProcessFrame(snaps[k], globals.delimiter, globals.ignoreRest, args[i], args[i + 1..]);
      var a := argList[k];
      assert snaps[k] == a.Snap();
      r, next := a.ProcessArg(i, args, globals);
      assert Snaps(argList) == snaps[k := a.Snap()];
    }

    // How an offer of the token at i in `tokens` ends.
    ghost predicate OfferedAll(o: Offered, i: nat, args: array<string>, tokens: seq<string>,
                               r: Response, next: nat, taker: nat)
      requires i < |tokens|
      reads this, argList, args, globals
    {
      match o
      case Refused(e) => r == Threw(e)
      case Leaving => r == LeftProgram
      case Offered(after, token, ignore, k, extra) =>
        && r == Returned(k < |after|) && taker == k && next == i + extra
        && Snaps(argList) == after && args[..] == tokens[i := token] && globals.ignoreRest == ignore
    }

    // The body of the inner loop of parse; only the token at i is not as in `tokens`.
    method OfferNext(k: nat, i: nat, args: array<string>, ghost tokens: seq<string>) returns (r: Response, next: nat)
      requires Parsable() && k < |argList| && i < args.Length == |tokens| && args[..] == tokens[i := args[i]]
      modifies argList[k], args, globals
      ensures globals.delimiter == old(globals.delimiter)
      ensures var o := Offer(old(Config()), old(Snaps(argList)), old(globals.ignoreRest), k, old(args[i]),
                             tokens[i + 1..]);
              if r != Returned(false) then OfferedAll(o, i, args, tokens, r, next, k)
              else
                && next == i && args[..] == tokens[i := args[i]]
                && o == Offer(old(Config()), Snaps(argList), globals.ignoreRest, k + 1, args[i], tokens[i + 1..])
    {
      ghost var c, snaps, ignore, token, rest := Config(), Snaps(argList), globals.ignoreRest, args[i], tokens[i + 1..];
      ghost var all := args[..];
      assert args[i + 1..] == all[i + 1..] == rest;
      r, next := OfferOne(k, i, args);
      OfferMore(c, snaps, ignore, k, token, rest);
      assert r.Returned? ==> args[..][i] == args[i];
      assert all[i := args[i]] == tokens[i := args[i]];
    }

    // The inner loop of parse: the token at i is offered down the list.
    method OfferToken(i: nat, args: array<string>) returns (r: Response, next: nat, taker: nat)
      requires Parsable() && i < args.Length
      modifies Objects(argList), args, globals
      ensures globals.delimiter == old(globals.delimiter)
      ensures OfferedAll(Offer(old(Config()), old(Snaps(argList)), old(globals.ignoreRest), 0, old(args[i]),
                               old(args[i + 1..])),
                         i, args, old(args[..]), r, next, taker)
    {
      next := i;
      ghost var c, tokens := Config(), args[..];
      ghost var rest := tokens[i + 1..];
      ghost var o := Offer(c, Snaps(argList), globals.ignoreRest, 0, args[i], rest);
      assert tokens[i := args[i]] == tokens && args[i + 1..] == rest;
      taker := 0;
      while taker < |argList|
        invariant taker <= |argList| && next == i && Config() == c
        invariant args[..] == tokens[i := args[i]]
        invariant o == Offer(c, Snaps(argList), globals.ignoreRest, taker, args[i], rest)
      {
        assert argList[taker] in Objects(argList);
        r, next := OfferNext(taker, i, args, tokens);
        if r != Returned(false) { return; }
        taker := taker + 1;
      }
      r := Returned(false);
    }

    // One argument of an offer, and then the others.
    static lemma OfferMore(c: Scan.Config, args: seq<ArgState>, ignore: bool, k: nat, token: string, rest: seq<string>)
      requires k < |args|
      ensures Offer(c, args, ignore, k, token, rest) ==
              match Process(args[k], c.delimiter, ignore, token, rest)
              case Failed(e) => Refused(e)
              case Quit => Leaving
              case Went(matched, arg, t, extra, ign) =>
                if matched then Offered(args[k := arg], t, ign, k, extra)
                else Offer(c, args[k := arg], ign, k + 1, t, rest)
    {
    }

    // _emptyCombined
    method IsEmptyCombined(s: string) returns (empty: bool)
      ensures empty == EmptyCombined(s)
    {
      if |s| > 0 && s[0] != DASH { return false; }
      var i := 1;
      while i < |s|
        invariant 1 <= i
        invariant forall j :: 1 <= j < i && j < |s| ==> s[j] == BLANK
      {
        if s[i] != BLANK { return false; }
        i := i + 1;
      }
      return true;
    }

    // The body of the outer loop of parse.
    method Turn(i: nat, args: array<string>, count: int) returns (r: Response, next: nat, newCount: int)
      requires Parsable() && xorHandler.Within(argList) && i < args.Length
      modifies Objects(argList), args, globals
      ensures globals.delimiter == old(globals.delimiter)
      ensures match Step(old(Config()), State(old(Snaps(argList)), old(globals.ignoreRest), count), old(args[i]),
                         old(args[i + 1..]))
              case Stop(e) => r == Threw(e)
              case Exit => r == LeftProgram
              case Next(s, extra) =>
                && r.Returned? && next == i + 1 + extra && newCount == s.count
                && Snaps(argList) == s.args && globals.ignoreRest == s.ignore
                && args[i + 1..] == old(args[i + 1..])
    {
      ghost var c, tokens := Config(), args[..];
      OfferFrame(c, Snaps(argList), globals.ignoreRest, 0, args[i], args[i + 1..]);
      var taker: nat;
      r, next, taker := OfferToken(i, args);
      next := next + 1;
      newCount := count;
      if !r.Returned? { return; }
      assert args[i + 1..] == args[..][i + 1..] == tokens[i + 1..];
      if r.matched {
        var error, weight := xorHandler.Check(argList[taker], argList, taker);
        if error != [] { return Threw(error[0]), next, newCount; }
        newCount := newCount + weight;
      } else {
        var empty := IsEmptyCombined(args[i]);
        if !empty && !globals.ignoreRest {
          return Threw(NoMatch(args[i])), next, newCount;
        }
      }
    }

    // The outer loop of parse: the exception or exit it ends in, or the count.
    method ScanTokens(args: array<string>) returns (r: Response, count: int)
      requires Parsable() && xorHandler.Within(argList)
      modifies Objects(argList), args, globals
      ensures match Run(old(Config()), State(old(Snaps(argList)), old(globals.ignoreRest), 0), old(args[..]))
              case Stopped(e) => r == Threw(e)
              case Exited => r == LeftProgram
              case Done(s) =>
                r.Returned? && count == s.count && Snaps(argList) == s.args && globals.ignoreRest == s.ignore
    {
      ghost var c, s0, all := Config(), State(Snaps(argList), globals.ignoreRest, 0), args[..];
      count := 0;
      var i := 0;
      assert args[0..] == all;
      while i < args.Length
        invariant i <= args.Length && Parsable() && xorHandler.Within(argList) && Config() == c
        invariant Run(c, s0, all) == Run(c, State(Snaps(argList), globals.ignoreRest, count), args[i..])
      {
        ghost var s, tokens, from := State(Snaps(argList), globals.ignoreRest, count), args[i..], i;
        assert tokens[0] == args[i] && tokens[1..] == args[i + 1..];
        r, i, count := Turn(i, args, count);
        if !r.Returned? { return; }
        assert args[from + 1..] == tokens[1..] && args[i..] == tokens[i - from..];
        assert Run(c, s, tokens) == Run(c, State(Snaps(argList), globals.ignoreRest, count), tokens[i - from..]);
      }
      assert args[i..] == [];
      r := Returned(true);
    }

    // The tokens after the name of the program.
    static method WithoutFirst(argv: seq<string>) returns (args: array<string>)
      requires argv != []
      ensures fresh(args) && args[..] == argv[1..]
    {
      args := new string[|argv| - 1](i requires 0 <= i < |argv| - 1 => argv[i + 1]);
      assert args[..] == argv[1..];
    }

    // The scan, and the comparison at its end.
    method ScanAndCompare(args: array<string>) returns (r: Answer)
      requires Parsable() && xorHandler.Within(argList)
      modifies Objects(argList), args, globals
      ensures Answers(old(Config()), old(Snaps(argList)), old(globals.ignoreRest), numRequired, old(args[..]),
                      r, Snaps(argList), globals.ignoreRest)
    {
      var end, requiredCount := ScanTokens(args);
      if end.Threw? { return Refusal(end.error); }
      if end.LeftProgram? { return Departure; }
      if requiredCount < numRequired { return Refusal(MissingArgs); }
      if requiredCount > numRequired { return Refusal(TooManyArgs); }
      r := Success;
    }

    // parse, once the name of the program has been put aside.
    method ParseTokens(args: array<string>) returns (r: Answer)
      requires Valid()
      modifies Objects(argList), args, globals
      ensures Answers(old(Config()), old(Snaps(argList)), old(globals.ignoreRest), numRequired, old(args[..]),
                      r, Snaps(argList), globals.ignoreRest)
      ensures r.Success? ==>
        Promised(old(Config()), old(Snaps(argList)), old(globals.ignoreRest), old(args[..]), Snaps(argList))
      ensures ToldFrom(old(Config()), old(Snaps(argList)), old(globals.ignoreRest), old(args[..]), r)
    {
      ValidBuilt();
      ghost var c, snaps, ignore, tokens := Config(), Snaps(argList), globals.ignoreRest, args[..];
      r := ScanAndCompare(args);
      AnswersPromised(c, snaps, ignore, tokens, r, Snaps(argList), globals.ignoreRest);
    }

    // What the promises about a line ask of the labels.
    lemma ReadableLine()
      requires Valid() && Readable()
      ensures L.WellLabeled(Snaps(argList), globals.delimiter)
    {
      ReadableLabeled(argList, numRequired, globals.delimiter);
    }

    /** parse: the same answer as Scan.Parse; the line alone tells whether it is
        accepted, and then all holds that the modules Acceptance, Accounting,
        Repeats and Verdicts prove of it. */
    method Parse(argv: seq<string>) returns (r: Answer)
      requires Valid() && argv != []
      modifies this`progName, Objects(argList), globals
      ensures Answers(old(Config()), old(Snaps(argList)), old(globals.ignoreRest), numRequired, argv[1..],
                      r, Snaps(argList), globals.ignoreRest)
      ensures r.Success? ==>
        Promised(old(Config()), old(Snaps(argList)), old(globals.ignoreRest), argv[1..], Snaps(argList))
      ensures ToldFrom(old(Config()), old(Snaps(argList)), old(globals.ignoreRest), argv[1..], r)
      ensures old(Readable()) ==> L.WellLabeled(old(Snaps(argList)), old(globals.delimiter))
    {
      if Readable() { ReadableLine(); }
      progName := argv[0];
      var args := WithoutFirst(argv);
      r := ParseTokens(args);
    }
  }

  // The answer is that of Scan.Parse, and after success so are the arguments.
  ghost predicate Answers(c: Scan.Config, args: seq<ArgState>, ignore: bool, required: int, tokens: seq<string>,
                          r: Answer, out: seq<ArgState>, ignoring: bool)
  {
    match Scan.Parse(c, State(args, ignore, 0), required, tokens)
    case Rejected(e) => r == Refusal(e)
    case Gone => r == Departure
    case Accepted(s) => r == Success && out == s.args && ignoring == s.ignore
  }

  lemma AnswersPromised(c: Scan.Config, args: seq<ArgState>, ignore: bool, tokens: seq<string>,
                        r: Answer, out: seq<ArgState>, ignoring: bool)
    requires Built(c.groups, args) && Answers(c, args, ignore, |RequiredIds(args)|, tokens, r, out, ignoring)
    ensures r.Success? ==> Promised(c, args, ignore, tokens, out)
    ensures ToldFrom(c, args, ignore, tokens, r)
  {
    AcceptedPromised(c, args, ignore, tokens);
    if Fresh(args) && L.WellLabeled(args, c.delimiter) {
      Verdicts.ParseTold(c, args, ignore, |RequiredIds(args)|, tokens);
    }
  }

  /** Fresh arguments and readable labels: the line alone tells the answer. */
  ghost predicate ToldFrom(c: Scan.Config, args: seq<ArgState>, ignore: bool, tokens: seq<string>, r: Answer) {
    Fresh(args) && L.WellLabeled(args, c.delimiter) ==>
      match Verdicts.LineVerdict(c, args, ignore, |RequiredIds(args)|, tokens)
      case Accept => r == Success
      case Depart => r == Departure
      case Refuse(e) => r == Refusal(e)
  }

  /** What is promised of an accepted line. Fresh arguments: without a counting
      switch in an xor list everything required is met. Readable labels: every
      argument holds what the line gives it. Both, with any lists: what is met and
      what is decided can be told from the line, and without lists of one member
      everything is decided exactly if the line names no counting switch of a list
      twice. */
  ghost predicate Promised(c: Scan.Config, args: seq<ArgState>, ignore: bool, tokens: seq<string>, out: seq<ArgState>) {
    && (Fresh(args) && NoMultiSwitchGrouped(c.groups, args) ==> AllMet(c.groups, out))
    && (L.WellLabeled(args, c.delimiter) ==>
          Accounting.LineHolds(c, args, Accounting.Start(State(args, ignore, 0)), tokens, out))
    && (Fresh(args) && L.WellLabeled(args, c.delimiter) ==> MetAsTold(c, args, ignore, tokens, out))
  }

  ghost predicate MetAsTold(c: Scan.Config, args: seq<ArgState>, ignore: bool, tokens: seq<string>,
                            out: seq<ArgState>) {
    var v := Verdicts.ReadFresh(c, args, ignore, tokens);
    && v.Whole?
    && (AllMet(c.groups, out) <==> Verdicts.MetByNotes(c.groups, args, v.notes))
    && (AllDecided(c.groups, out) <==> Verdicts.DecidedByNotes(c.groups, args, v.notes))
    && (NoSingles(c.groups) ==> (AllDecided(c.groups, out) <==> Repeats.NamedOnce(c, args, ignore, tokens)))
  }

  lemma AcceptedRun(c: Scan.Config, s: State, required: int, tokens: seq<string>)
    ensures var p, r := Scan.Parse(c, s, required, tokens), Run(c, s, tokens);
      p.Accepted? ==> r.Done? && p.state == r.state
  {
  }

  lemma AcceptedPromised(c: Scan.Config, args: seq<ArgState>, ignore: bool, tokens: seq<string>)
    requires Built(c.groups, args)
    ensures var p := Scan.Parse(c, State(args, ignore, 0), |RequiredIds(args)|, tokens);
      p.Accepted? ==> Promised(c, args, ignore, tokens, p.state.args)
  {
    var s := State(args, ignore, 0);
    if Fresh(args) && NoMultiSwitchGrouped(c.groups, args) { AcceptanceSound(c, args, ignore, tokens); }
    if L.WellLabeled(args, c.delimiter) {
      AcceptedRun(c, s, |RequiredIds(args)|, tokens);
      Accounting.RunHolds(c, s, Accounting.Start(s), tokens);
      if Fresh(args) { AcceptedMet(c, args, ignore, tokens); }
    }
  }

  lemma AcceptedMet(c: Scan.Config, args: seq<ArgState>, ignore: bool, tokens: seq<string>)
    requires Built(c.groups, args) && L.WellLabeled(args, c.delimiter) && Fresh(args)
    ensures var p := Scan.Parse(c, State(args, ignore, 0), |RequiredIds(args)|, tokens);
      p.Accepted? ==> MetAsTold(c, args, ignore, tokens, p.state.args)
  {
    AcceptedRun(c, State(args, ignore, 0), |RequiredIds(args)|, tokens);
    Verdicts.LineTells(c, args, ignore, tokens);
    if NoSingles(c.groups) && Scan.Parse(c, State(args, ignore, 0), |RequiredIds(args)|, tokens).Accepted? {
      Repeats.CountingSwitchesExact(c, args, ignore, tokens);
    }
  }

  // Where add puts an argument.
  function Placed<T>(list: seq<T>, a: T, back: bool): (r: seq<T>)
    ensures |r| == |list| + 1
    ensures a in r && (forall x :: x in list ==> x in r) && (forall x :: x in r ==> x in list + [a])
  {
    if back then list + [a] else [a] + list
  }

  lemma PlacedMembers(list: seq<Arg>, a: Arg, back: bool)
    ensures Objects(Placed(list, a, back)) == Objects(list) + {a}
  {
    assert forall x :: x in list + [a] ==> x in list || x == a;
  }

  lemma SnapsPlaced(before: seq<Arg>, a: Arg, back: bool)
    ensures Snaps(Placed(before, a, back)) == Placed(Snaps(before), a.Snap(), back)
  {
    var list, snaps := Placed(before, a, back), Placed(Snaps(before), a.Snap(), back);
    forall j | 0 <= j < |list| ensures Snaps(list)[j] == snaps[j] {
      assert Snaps(list)[j] == list[j].Snap();
    }
  }

  lemma PlacedSorted(args: seq<ArgState>, a: ArgState)
    requires L.Sorted(args) && (a.spec.kind.Unlabeled() ==> a.spec.flag == "")
    requires forall j :: 0 <= j < |args| ==> L.Apart(a.spec, args[j].spec)
    ensures L.Sorted(Placed(args, a, a.spec.kind.Unlabeled()))
  {
    PlacedApart(args, a, a.spec.kind.Unlabeled());
    PlacedOrder(args, a);
    PlacedFlags(args, a);
  }

  lemma PlacedOrder(args: seq<ArgState>, a: ArgState)
    requires forall i, j :: 0 <= i < j < |args| && args[i].spec.kind.Unlabeled() ==> args[j].spec.kind.Unlabeled()
    ensures var r := Placed(args, a, a.spec.kind.Unlabeled());
      forall i, j :: 0 <= i < j < |r| && r[i].spec.kind.Unlabeled() ==> r[j].spec.kind.Unlabeled()
  {
    var r, off := Placed(args, a, a.spec.kind.Unlabeled()), if a.spec.kind.Unlabeled() then 0 else 1;
    PlacedAt(args, a, a.spec.kind.Unlabeled());
    forall i, j | 0 <= i < j < |r| && r[i].spec.kind.Unlabeled() ensures r[j].spec.kind.Unlabeled() {
      assert r[j] == a || r[j] == args[j - off];
    }
  }

  lemma PlacedFlags(args: seq<ArgState>, a: ArgState)
    requires a.spec.kind.Unlabeled() ==> a.spec.flag == ""
    requires forall j :: 0 <= j < |args| && args[j].spec.kind.Unlabeled() ==> args[j].spec.flag == ""
    ensures var r := Placed(args, a, a.spec.kind.Unlabeled());
      forall j :: 0 <= j < |r| && r[j].spec.kind.Unlabeled() ==> r[j].spec.flag == ""
  {
    PlacedAt(args, a, a.spec.kind.Unlabeled());
  }

  lemma PlacedApart(args: seq<ArgState>, a: ArgState, back: bool)
    requires forall i, j :: 0 <= i < |args| && 0 <= j < |args| && i != j ==> L.Apart(args[i].spec, args[j].spec)
    requires forall j :: 0 <= j < |args| ==> L.Apart(a.spec, args[j].spec)
    ensures var r := Placed(args, a, back);
      forall i, j :: 0 <= i < |r| && 0 <= j < |r| && i != j ==> L.Apart(r[i].spec, r[j].spec)
  {
    var r, off := Placed(args, a, back), if back then 0 else 1;
    PlacedAt(args, a, back);
    forall i, j | 0 <= i < |r| && 0 <= j < |r| && i != j ensures L.Apart(r[i].spec, r[j].spec) {
      assert r[i] == a || r[i] == args[i - off];
      assert r[j] == a || r[j] == args[j - off];
    }
  }

  // Where the old members stand, and the new one.
  lemma PlacedAt(args: seq<ArgState>, a: ArgState, back: bool)
    ensures var r, off := Placed(args, a, back), if back then 0 else 1;
      forall j :: 0 <= j < |r| ==> if 0 <= j - off < |args| then r[j] == args[j - off] else r[j] == a
  {
  }

  lemma PlacedCount(args: seq<ArgState>, a: ArgState, back: bool)
    requires forall j :: 0 <= j < |args| ==> args[j].spec.id != a.spec.id
    ensures |RequiredIds(Placed(args, a, back))| == |RequiredIds(args)| + (if a.spec.required then 1 else 0)
  {
    var r := Placed(args, a, back);
    var off, at := if back then 0 else 1, if back then |args| else 0;
    var more := if a.spec.required then {a.spec.id} else {};
    forall id | id in RequiredIds(args) ensures id in RequiredIds(r) {
      var j :| 0 <= j < |args| && args[j].spec.required && args[j].spec.id == id;
      assert r[j + off] == args[j];
    }
    forall id | id in RequiredIds(r) ensures id in RequiredIds(args) + more {
      var j :| 0 <= j < |r| && r[j].spec.required && r[j].spec.id == id;
      assert j == at || r[j] == args[j - off];
    }
    assert r[at] == a;
    assert RequiredIds(r) == RequiredIds(args) + more;
  }

  // What add needs of an argument that clashes with none before it.
  lemma AddKeeps(before: seq<Arg>, a: Arg, numRequired: int)
    requires ListedAs(before, numRequired) && (a.kind.Unlabeled() ==> a.flag == "")
    requires Addressed(before + [a]) && a !in before
    requires forall b :: b in before ==> !a.Spec().Clashes(b.Spec())
    ensures ListedAs(Placed(before, a, a.kind.Unlabeled()), numRequired + if a.required then 1 else 0)
  {
    NewcomerApart(before, a);
    SnapsPlaced(before, a, a.kind.Unlabeled());
    FitPlaced(Snaps(before), a.Snap(), numRequired);
    PlacedObjects(before, a, a.kind.Unlabeled());
  }

  lemma NewcomerApart(before: seq<Arg>, a: Arg)
    requires L.Sorted(Snaps(before)) && (a.kind.Unlabeled() ==> a.flag == "")
    requires Addressed(before + [a]) && a !in before
    requires forall b :: b in before ==> !a.Spec().Clashes(b.Spec())
    ensures forall j :: 0 <= j < |before| ==>
      L.Apart(a.Spec(), Snaps(before)[j].spec) && Snaps(before)[j].spec.id != a.id
  {
    forall j | 0 <= j < |before|
      ensures L.Apart(a.Spec(), Snaps(before)[j].spec) && Snaps(before)[j].spec.id != a.id
    {
      assert before[j] in before && before[j] in before + [a] && a in before + [a];
    }
  }

  lemma PlacedObjects(before: seq<Arg>, a: Arg, back: bool)
    requires Addressed(before + [a]) && a !in before
    ensures Addressed(Placed(before, a, back))
    ensures NoRepeats(before) ==> NoRepeats(Placed(before, a, back))
  {
    assert forall x :: x in Placed(before, a, back) ==> x in before + [a];
  }
}
