/** Why one integer comparison is enough. `parse` accepts when the weights it
    has added up equal the number of required arguments. Every required
    argument outside the xor lists adds 1 at most, and every xor list adds 0 or
    its size, so equal totals leave nothing missing. */
module Acceptance {
  import opened Args
  import opened Scan

  ghost predicate Grouped(groups: seq<seq<nat>>, id: nat) {
    GroupOf(groups, id) < |groups|
  }

  ghost predicate Member(args: seq<ArgState>, members: seq<nat>, j: int) {
    0 <= j < |args| && args[j].spec.id in members
  }

  ghost predicate Distinct(ids: seq<nat>) {
    forall m, n :: 0 <= m < n < |ids| ==> ids[m] != ids[n]
  }

  // A required argument with this address is in the list.
  ghost predicate Known(args: seq<ArgState>, id: nat) {
    exists j :: 0 <= j < |args| && args[j].spec.id == id && args[j].spec.required
  }

  // What add and xorAdd have established of the lists (see CmdLines.dfy):
  // addresses differ, xor lists have distinct known members and do not
  // overlap, and a switch is required only in an xor list.
  ghost predicate Built(groups: seq<seq<nat>>, args: seq<ArgState>) {
    && (forall i, j :: 0 <= i < j < |args| ==> args[i].spec.id != args[j].spec.id)
    && (forall g :: 0 <= g < |groups| ==> Distinct(groups[g]))
    && (forall g, id :: 0 <= g < |groups| && id in groups[g] ==> GroupOf(groups, id) == g && Known(args, id))
    && (forall j :: 0 <= j < |args| ==>
          (args[j].spec.kind.Switch? || args[j].spec.kind.MultiSwitch?) && args[j].spec.required ==>
          Grouped(groups, args[j].spec.id))
  }

  ghost predicate NoMultiSwitchGrouped(groups: seq<seq<nat>>, args: seq<ArgState>) {
    forall j :: 0 <= j < |args| && Grouped(groups, args[j].spec.id) ==> !args[j].spec.kind.MultiSwitch?
  }

  // No xor list has just one member.
  ghost predicate NoSingles(groups: seq<seq<nat>>) {
    forall g :: 0 <= g < |groups| ==> |groups[g]| != 1
  }

  predicate Untouched(a: ArgState) {
    !a.alreadySet && !a.xorSet && !a.allowMore && a.values == []
  }

  ghost predicate Fresh(args: seq<ArgState>) {
    forall j :: 0 <= j < |args| ==> Untouched(args[j])
  }

  ghost function RequiredIds(args: seq<ArgState>): set<nat> {
    set j | 0 <= j < |args| && args[j].spec.required :: args[j].spec.id
  }

  // Member w was matched and every other member is barred.
  ghost predicate Winner(args: seq<ArgState>, members: seq<nat>, w: int) {
    && Member(args, members, w) && args[w].IsSet()
    && forall j :: Member(args, members, j) && j != w ==> args[j].xorSet
  }

  ghost predicate Barred(args: seq<ArgState>, members: seq<nat>) {
    exists j :: Member(args, members, j) && args[j].xorSet
  }

  ghost predicate Touched(args: seq<ArgState>, members: seq<nat>) {
    exists j :: Member(args, members, j) && args[j].alreadySet
  }

  // The list has been credited with its size.
  ghost predicate Settled(args: seq<ArgState>, members: seq<nat>) {
    if |members| == 1 then Touched(args, members) else Barred(args, members)
  }

  ghost predicate CreditedAt(groups: seq<seq<nat>>, args: seq<ArgState>, j: nat)
    requires j < |args|
  {
    && args[j].spec.required
    && var g := GroupOf(groups, args[j].spec.id);
       if g < |groups| then Settled(args, groups[g]) else args[j].alreadySet
  }

  ghost function Credited(groups: seq<seq<nat>>, args: seq<ArgState>): set<nat> {
    set j | 0 <= j < |args| && CreditedAt(groups, args, j) :: args[j].spec.id
  }

  // What every turn of the loop keeps.
  ghost predicate Inv(groups: seq<seq<nat>>, args: seq<ArgState>) {
    && Built(groups, args)
    && (forall j :: 0 <= j < |args| ==> InvAt(groups, args, j))
  }

  ghost predicate InvAt(groups: seq<seq<nat>>, args: seq<ArgState>, j: nat)
    requires j < |args|
  {
    var a := args[j];
    var g := GroupOf(groups, a.spec.id);
    if g == |groups| then
      && !a.xorSet
      && (a.spec.kind.Collects() ==> (a.alreadySet <==> |a.values| >= 1))
    else
      && (a.xorSet ==> a.alreadySet && exists w :: Winner(args, groups[g], w))
      && (a.spec.kind.Collects() && a.IsSet() ==> a.allowMore)
      && (a.allowMore ==> Settled(args, groups[g]))
  }

  // What an offer that did not match may do to an argument.
  ghost predicate Passed(a: ArgState, b: ArgState) {
    && a.spec == b.spec && a.xorSet == b.xorSet && a.allowMore == b.allowMore && a.values == b.values
    && (a.alreadySet ==> b.alreadySet)
    && (b.alreadySet && !a.alreadySet ==> a.spec.kind.Switch? || a.spec.kind.MultiSwitch?)
  }

  // What a matching offer does.
  ghost predicate Taken(a: ArgState, b: ArgState) {
    && a.spec == b.spec && a.xorSet == b.xorSet && a.allowMore == b.allowMore
    && b.alreadySet
    && (a.alreadySet ==> a.spec.kind.Collects() || a.spec.kind.MultiSwitch?)
    && |b.values| == |a.values| + (if a.spec.kind.Collects() then 1 else 0)
  }

  lemma ProcessEffect(a: ArgState, delimiter: char, ignore: bool, token: string, rest: seq<string>)
    ensures var r := Process(a, delimiter, ignore, token, rest);
            r.Went? ==> if r.matched then Taken(a, r.arg) else Passed(a, r.arg)
  {
    match a.spec.kind
    case Switch => SwitchEffect(a, delimiter, ignore, token);
    case MultiSwitch => MultiSwitchEffect(a, delimiter, ignore, token);
    case Value => ValueEffect(a, delimiter, ignore, token, rest);
    case Multi => ValueEffect(a, delimiter, ignore, token, rest);
    case UnlabeledValue =>
    case UnlabeledMulti =>
  }

  lemma SwitchEffect(a: ArgState, delimiter: char, ignore: bool, token: string)
    requires a.spec.kind.Switch?
    ensures var r := ProcessSwitch(a, delimiter, ignore, token);
            r.Went? ==> if r.matched then Taken(a, r.arg) else Passed(a, r.arg)
  {
  }

  lemma MultiSwitchEffect(a: ArgState, delimiter: char, ignore: bool, token: string)
    requires a.spec.kind.MultiSwitch?
    ensures var r := ProcessMultiSwitch(a, delimiter, ignore, token);
            r.Went? ==> if r.matched then Taken(a, r.arg) else Passed(a, r.arg)
  {
  }

  lemma ValueEffect(a: ArgState, delimiter: char, ignore: bool, token: string, rest: seq<string>)
    requires a.spec.kind.TakesValue()
    ensures var r := ProcessValue(a, delimiter, ignore, token, rest);
            r.Went? ==> if r.matched then Taken(a, r.arg) else Passed(a, r.arg)
  {
    forall v | a.spec.kind.Value? ==> !a.alreadySet ensures Taken(a, Store(a, v)) {
      StoreTaken(a, v);
    }
  }

  lemma StoreTaken(a: ArgState, v: string)
    requires a.spec.kind.TakesValue() && (a.spec.kind.Value? ==> !a.alreadySet)
    ensures Taken(a, Store(a, v))
  {
  }

  // Nobody but the taker is matched by an offer.
  ghost predicate OfferedTo(args: seq<ArgState>, args': seq<ArgState>, from: nat, taker: nat) {
    && |args'| == |args|
    && (forall j :: 0 <= j < |args| && j != taker ==> Passed(args[j], args'[j]))
    && (forall j :: 0 <= j < from && j < |args| ==> args'[j] == args[j])
    && (taker < |args| ==> from <= taker && Taken(args[taker], args'[taker]))
  }

  lemma {:induction false} OfferEffect(c: Config, args: seq<ArgState>, ignore: bool, k: nat, token: string,
                                       rest: seq<string>)
    requires k <= |args|
    ensures var r := Offer(c, args, ignore, k, token, rest);
            r.Offered? ==> OfferedTo(args, r.args, k, r.taker) && r.taker <= |args|
    decreases |args| - k
  {
    if k == |args| {
    } else {
      ProcessEffect(args[k], c.delimiter, ignore, token, rest);
      var r := Process(args[k], c.delimiter, ignore, token, rest);
      if r.Went? && !r.matched {
        OfferEffect(c, args[k := r.arg], r.ignore, k + 1, r.token, rest);
      }
    }
  }

  lemma BuiltKept(groups: seq<seq<nat>>, args: seq<ArgState>, args': seq<ArgState>)
    requires Built(groups, args) && SameShapes(args, args')
    ensures Built(groups, args')
  {
    forall id | Known(args, id) ensures Known(args', id) {
      var j :| 0 <= j < |args| && args[j].spec.id == id && args[j].spec.required;
      assert args'[j].spec.id == id;
    }
  }

  lemma SettledGrows(args: seq<ArgState>, args': seq<ArgState>, members: seq<nat>)
    requires SameShapes(args, args')
    requires forall j :: 0 <= j < |args| ==>
      (args[j].alreadySet ==> args'[j].alreadySet) && (args[j].xorSet ==> args'[j].xorSet)
    ensures Settled(args, members) ==> Settled(args', members)
  {
    if |members| == 1 && Touched(args, members) {
      var j :| Member(args, members, j) && args[j].alreadySet;
      assert Member(args', members, j);
    } else if Barred(args, members) {
      var j :| Member(args, members, j) && args[j].xorSet;
      assert Member(args', members, j);
    }
  }

  lemma CreditedGrows(groups: seq<seq<nat>>, args: seq<ArgState>, args': seq<ArgState>)
    requires SameShapes(args, args')
    requires forall j :: 0 <= j < |args| ==>
      (args[j].alreadySet ==> args'[j].alreadySet) && (args[j].xorSet ==> args'[j].xorSet)
    ensures forall j :: 0 <= j < |args| && CreditedAt(groups, args, j) ==> CreditedAt(groups, args', j)
    ensures Credited(groups, args) <= Credited(groups, args')
  {
    forall j | 0 <= j < |args| && CreditedAt(groups, args, j)
      ensures CreditedAt(groups, args', j)
    {
      var g := GroupOf(groups, args[j].spec.id);
      if g < |groups| { SettledGrows(args, args', groups[g]); }
    }
    forall id | id in Credited(groups, args) ensures id in Credited(groups, args') {
      var j :| 0 <= j < |args| && CreditedAt(groups, args, j) && args[j].spec.id == id;
      assert CreditedAt(groups, args', j) && args'[j].spec.id == id;
    }
  }

  // An unmatched token leaves the invariant and the credit as they were.
  lemma PassKeeps(groups: seq<seq<nat>>, args: seq<ArgState>, args': seq<ArgState>)
    requires Inv(groups, args) && |args'| == |args|
    requires forall j :: 0 <= j < |args| ==> Passed(args[j], args'[j])
    ensures Inv(groups, args')
    ensures Credited(groups, args) <= Credited(groups, args')
    ensures NoSingles(groups) ==> Credited(groups, args) == Credited(groups, args')
  {
    BuiltKept(groups, args, args');
    forall j | 0 <= j < |args'| ensures InvAt(groups, args', j) {
      assert InvAt(groups, args, j);
      var g := GroupOf(groups, args[j].spec.id);
      if g < |groups| {
        SettledGrows(args, args', groups[g]);
        if args[j].xorSet {
          var w :| Winner(args, groups[g], w);
          forall i | Member(args', groups[g], i) && i != w ensures args'[i].xorSet {
            assert Member(args, groups[g], i);
          }
          assert Winner(args', groups[g], w);
        }
      }
    }
    CreditedGrows(groups, args, args');
    if NoSingles(groups) {
      forall j | 0 <= j < |args| && CreditedAt(groups, args', j) ensures CreditedAt(groups, args, j) {
        assert InvAt(groups, args, j);
        var g := GroupOf(groups, args[j].spec.id);
        if g < |groups| {
          var i :| Member(args', groups[g], i) && args'[i].xorSet;
          assert Member(args, groups[g], i);
        }
      }
      forall id | id in Credited(groups, args') ensures id in Credited(groups, args) {
        var j :| 0 <= j < |args'| && CreditedAt(groups, args', j) && args'[j].spec.id == id;
        assert CreditedAt(groups, args, j) && args[j].spec.id == id;
      }
    }
  }

  // An xor list is judged by its members alone.
  lemma GroupUntouched(args: seq<ArgState>, args': seq<ArgState>, members: seq<nat>)
    requires SameShapes(args, args')
    requires forall j :: Member(args, members, j) ==> args'[j] == args[j]
    ensures Settled(args', members) <==> Settled(args, members)
    ensures forall w :: Winner(args, members, w) <==> Winner(args', members, w)
  {
    assert forall j :: Member(args, members, j) <==> Member(args', members, j);
    assert Barred(args, members) <==> Barred(args', members);
    assert Touched(args, members) <==> Touched(args', members);
  }

  lemma InvAtUntouched(groups: seq<seq<nat>>, args: seq<ArgState>, args': seq<ArgState>, j: nat)
    requires SameShapes(args, args') && j < |args| && InvAt(groups, args, j)
    requires args'[j] == args[j]
    requires var g := GroupOf(groups, args[j].spec.id);
             g < |groups| ==> forall i :: Member(args, groups[g], i) ==> args'[i] == args[i]
    ensures InvAt(groups, args', j)
    ensures CreditedAt(groups, args', j) <==> CreditedAt(groups, args, j)
  {
    var g := GroupOf(groups, args[j].spec.id);
    if g < |groups| { GroupUntouched(args, args', groups[g]); }
  }

  // The credit after a match, when it grows by the ids in `more`.
  lemma CreditGrowsBy(groups: seq<seq<nat>>, args: seq<ArgState>, args': seq<ArgState>, more: set<nat>)
    requires SameShapes(args, args')
    requires forall j :: 0 <= j < |args| ==>
      (CreditedAt(groups, args', j) <==> CreditedAt(groups, args, j) || args[j].spec.id in more)
    requires forall id :: id in more ==> Known(args, id)
    requires more !! Credited(groups, args)
    ensures |Credited(groups, args')| == |Credited(groups, args)| + |more|
  {
    forall id | id in Credited(groups, args') ensures id in Credited(groups, args) + more {
      var j :| 0 <= j < |args'| && CreditedAt(groups, args', j) && args'[j].spec.id == id;
      assert CreditedAt(groups, args, j) || args[j].spec.id in more;
    }
    forall id | id in Credited(groups, args) + more ensures id in Credited(groups, args') {
      var j :| 0 <= j < |args| && args[j].spec.id == id && (id in more || CreditedAt(groups, args, j));
      assert CreditedAt(groups, args', j) && args'[j].spec.id == id;
    }
    assert Credited(groups, args') == Credited(groups, args) + more;
  }

  lemma NotYetCredited(groups: seq<seq<nat>>, args: seq<ArgState>, k: nat)
    requires Built(groups, args) && k < |args| && !CreditedAt(groups, args, k)
    ensures args[k].spec.id !in Credited(groups, args)
  {
  }

  // A required argument outside the xor lists adds 1 the first time, then 0.
  lemma TakeAlone(groups: seq<seq<nat>>, args: seq<ArgState>, k: nat, b: ArgState)
    requires Inv(groups, args) && k < |args| && Taken(args[k], b)
    requires !Grouped(groups, b.spec.id)
    ensures Inv(groups, args[k := b])
    ensures |Credited(groups, args[k := b])| == |Credited(groups, args)| + (if b.IsRequired() then 1 else 0)
  {
    var args' := args[k := b];
    BuiltKept(groups, args, args');
    assert InvAt(groups, args, k);
    forall j | 0 <= j < |args'| && j != k
      ensures InvAt(groups, args', j)
      ensures CreditedAt(groups, args', j) <==> CreditedAt(groups, args, j)
    {
      assert InvAt(groups, args, j);
      InvAtUntouched(groups, args, args', j);
    }
    assert InvAt(groups, args', k);
    var more := if b.IsRequired() then {b.spec.id} else {};
    if b.IsRequired() { NotYetCredited(groups, args, k); }
    CreditGrowsBy(groups, args, args', more);
  }

  ghost function Ids(members: seq<nat>): set<nat> { set id | id in members }

  lemma {:induction false} IdsCount(members: seq<nat>)
    requires Distinct(members)
    ensures |Ids(members)| == |members|
  {
    if members == [] {
    } else {
      var n := |members| - 1;
      IdsCount(members[..n]);
      assert Ids(members) == Ids(members[..n]) + {members[n]};
    }
  }

  // A check that lets k through finds no other member set, so only k can be
  // the winner, and k is not barred.
  lemma OnlyWinner(groups: seq<seq<nat>>, args: seq<ArgState>, k: nat, b: ArgState, g: nat)
    requires Inv(groups, args) && k < |args| && Taken(args[k], b)
    requires g == GroupOf(groups, b.spec.id) < |groups|
    requires !RivalSet(args[k := b], groups[g], b.spec.id)
    ensures !b.xorSet
    ensures forall j :: Member(args, groups[g], j) && args[j].xorSet ==> args[k].IsSet()
  {
    var args' := args[k := b];
    assert forall i :: 0 <= i < |args'| && i != k ==> args'[i] == args[i];
    assert forall w :: Winner(args, groups[g], w) ==> w == k;
    forall j | Member(args, groups[g], j) && args[j].xorSet ensures args[k].IsSet() {
      assert InvAt(groups, args, j);
    }
  }

  lemma SoleMember(groups: seq<seq<nat>>, args: seq<ArgState>, k: nat, g: nat)
    requires Built(groups, args) && k < |args|
    requires g == GroupOf(groups, args[k].spec.id) < |groups| && |groups[g]| == 1
    ensures Touched(args, groups[g]) <==> args[k].alreadySet
  {
    assert Member(args, groups[g], k);
    forall j | Member(args, groups[g], j) ensures j == k {
      assert args[j].spec.id == groups[g][0] == args[k].spec.id;
    }
  }

  lemma SettledSet(groups: seq<seq<nat>>, args: seq<ArgState>, k: nat, g: nat)
    requires Inv(groups, args) && k < |args|
    requires g == GroupOf(groups, args[k].spec.id) < |groups|
    ensures args[k].allowMore ==> Settled(args, groups[g])
    ensures args[k].spec.kind.Collects() && args[k].IsSet() ==> args[k].allowMore
  {
    assert InvAt(groups, args, k);
  }

  // The list was credited before only if k may be given again.
  lemma CheckedOnce(groups: seq<seq<nat>>, args: seq<ArgState>, k: nat, b: ArgState, g: nat)
    requires Inv(groups, args) && k < |args| && Taken(args[k], b)
    requires g == GroupOf(groups, b.spec.id) < |groups|
    requires !RivalSet(args[k := b], groups[g], b.spec.id)
    ensures Settled(args, groups[g]) && !b.spec.kind.MultiSwitch? <==> b.spec.kind.Collects() && b.allowMore
  {
    OnlyWinner(groups, args, k, b, g);
    if Settled(args, groups[g]) {
      if |groups[g]| == 1 {
        SoleMember(groups, args, k, g);
      } else {
        var j :| Member(args, groups[g], j) && args[j].xorSet;
      }
      assert args[k].IsSet();
    }
    SettledSet(groups, args, k, g);
  }

  // One xor list on its own: its members belong to no other list and are
  // required, k is one of them, and unless the list is single there is another.
  ghost predicate OwnList(groups: seq<seq<nat>>, args: seq<ArgState>, g: nat, k: nat)
    requires g < |groups|
  {
    && Member(args, groups[g], k)
    && (forall j :: Member(args, groups[g], j) ==>
          && GroupOf(groups, args[j].spec.id) == g && args[j].spec.required
          && (args[j].spec.id == args[k].spec.id ==> j == k))
    && (|groups[g]| != 1 ==> exists j :: Member(args, groups[g], j) && j != k)
  }

  lemma BuiltOwnList(groups: seq<seq<nat>>, args: seq<ArgState>, g: nat, k: nat)
    requires Built(groups, args) && k < |args|
    requires g == GroupOf(groups, args[k].spec.id) < |groups|
    ensures OwnList(groups, args, g, k)
  {
    var members := groups[g];
    forall j | Member(args, members, j) ensures args[j].spec.required {
      assert Known(args, args[j].spec.id);
    }
    if |members| > 1 {
      var other := if members[0] == args[k].spec.id then members[1] else members[0];
      assert other in members && Known(args, other);
      var j :| 0 <= j < |args| && args[j].spec.id == other && args[j].spec.required;
      assert Member(args, members, j) && j != k;
    }
  }

  // What excluding does to the list that was checked: k has won.
  lemma ExcludedWinner(groups: seq<seq<nat>>, args: seq<ArgState>, k: nat, g: nat)
    requires g < |groups| && OwnList(groups, args, g, k) && args[k].IsSet()
    ensures var r := Exclude(args, groups[g], args[k].spec.id);
            forall j :: Member(args, groups[g], j) ==> InvAt(groups, r, j) && CreditedAt(groups, r, j)
  {
    var members := groups[g];
    var r := Exclude(args, members, args[k].spec.id);
    assert Member(r, members, k) && Winner(r, members, k);
    assert Settled(r, members) by {
      if |members| != 1 {
        var j :| Member(args, members, j) && j != k;
        assert Member(r, members, j) && r[j].xorSet;
      }
    }
  }

  // Whether the list is credited does not depend on who asks.
  lemma OwnCredit(groups: seq<seq<nat>>, args: seq<ArgState>, k: nat, g: nat)
    requires Built(groups, args) && g < |groups| && OwnList(groups, args, g, k)
    ensures forall j :: Member(args, groups[g], j) ==> (CreditedAt(groups, args, j) <==> Settled(args, groups[g]))
    ensures !Settled(args, groups[g]) ==> Ids(groups[g]) !! Credited(groups, args)
  {
  }

  // What a check of k adds although its list has been credited: a counting
  // switch is paid for again.
  ghost function Repaid(groups: seq<seq<nat>>, args: seq<ArgState>, k: nat): nat
    requires k < |args|
  {
    var g := GroupOf(groups, args[k].spec.id);
    if args[k].spec.kind.MultiSwitch? && g < |groups| && Settled(args, groups[g]) then |groups[g]| else 0
  }

  // A match in an xor list adds the size of the list the first time, then 0,
  // but for a counting switch, which adds it again.
  lemma TakeGrouped(groups: seq<seq<nat>>, args: seq<ArgState>, k: nat, b: ArgState, g: nat)
    requires Inv(groups, args) && k < |args| && Taken(args[k], b)
    requires g == GroupOf(groups, b.spec.id) < |groups|
    requires !RivalSet(args[k := b], groups[g], b.spec.id)
    ensures var r := Exclude(args[k := b], groups[g], b.spec.id);
            && Inv(groups, r)
            && |Credited(groups, r)| + Repaid(groups, args, k) == |Credited(groups, args)|
               + (if b.spec.kind.Collects() && b.allowMore then 0 else |groups[g]|)
  {
    var mid := args[k := b];
    var r := Exclude(mid, groups[g], b.spec.id);
    var more := if Settled(args, groups[g]) then {} else Ids(groups[g]);
    assert Inv(groups, r) by {
      TakeGroupedMembers(groups, args, k, b, g);
      BuiltKept(groups, args, r);
      BuiltOwnList(groups, args, g, k);
      forall j | 0 <= j < |args| ensures InvAt(groups, r, j) {
        TakeGroupedAt(groups, args, mid, r, g, k, j);
      }
    }
    assert |more| + Repaid(groups, args, k) == if b.spec.kind.Collects() && b.allowMore then 0 else |groups[g]| by {
      CheckedOnce(groups, args, k, b, g);
      IdsCount(groups[g]);
    }
    TakeGroupedCredit(groups, args, k, b, g);
  }

  lemma TakeGroupedCredit(groups: seq<seq<nat>>, args: seq<ArgState>, k: nat, b: ArgState, g: nat)
    requires Inv(groups, args) && k < |args| && Taken(args[k], b)
    requires g == GroupOf(groups, b.spec.id) < |groups|
    requires !RivalSet(args[k := b], groups[g], b.spec.id)
    ensures |Credited(groups, Exclude(args[k := b], groups[g], b.spec.id))|
            == |Credited(groups, args)| + |if Settled(args, groups[g]) then {} else Ids(groups[g])|
  {
    var mid := args[k := b];
    var r := Exclude(mid, groups[g], b.spec.id);
    var more := if Settled(args, groups[g]) then {} else Ids(groups[g]);
    TakeGroupedMembers(groups, args, k, b, g);
    BuiltOwnList(groups, args, g, k);
    OwnCredit(groups, args, k, g);
    forall j | 0 <= j < |args|
      ensures CreditedAt(groups, r, j) <==> CreditedAt(groups, args, j) || args[j].spec.id in more
    {
      TakeGroupedAt(groups, args, mid, r, g, k, j);
    }
    forall id | id in more ensures Known(args, id) {
      assert id in groups[g];
    }
    CreditGrowsBy(groups, args, r, more);
  }

  lemma TakeGroupedMembers(groups: seq<seq<nat>>, args: seq<ArgState>, k: nat, b: ArgState, g: nat)
    requires Inv(groups, args) && k < |args| && Taken(args[k], b)
    requires g == GroupOf(groups, b.spec.id) < |groups|
    requires !RivalSet(args[k := b], groups[g], b.spec.id)
    ensures var mid := args[k := b];
            var r := Exclude(mid, groups[g], b.spec.id);
            && SameShapes(args, mid) && SameShapes(args, r)
            && (forall i :: 0 <= i < |args| && !Member(args, groups[g], i) ==> r[i] == args[i])
            && (forall i :: Member(mid, groups[g], i) ==> InvAt(groups, r, i) && CreditedAt(groups, r, i))
  {
    var mid := args[k := b];
    OnlyWinner(groups, args, k, b, g);
    BuiltKept(groups, args, mid);
    BuiltOwnList(groups, mid, g, k);
    ExcludedWinner(groups, mid, k, g);
  }

  lemma TakeGroupedAt(groups: seq<seq<nat>>, args: seq<ArgState>, mid: seq<ArgState>, r: seq<ArgState>,
                      g: nat, k: nat, j: nat)
    requires Inv(groups, args) && g < |groups| && SameShapes(args, mid) && SameShapes(args, r) && j < |args|
    requires OwnList(groups, args, g, k)
    requires forall i :: 0 <= i < |args| && !Member(args, groups[g], i) ==> r[i] == args[i]
    requires forall i :: Member(mid, groups[g], i) ==> InvAt(groups, r, i) && CreditedAt(groups, r, i)
    ensures InvAt(groups, r, j)
    ensures CreditedAt(groups, r, j) <==>
            CreditedAt(groups, args, j)
            || args[j].spec.id in (if Settled(args, groups[g]) then {} else Ids(groups[g]))
  {
    OwnCredit(groups, args, k, g);
    if Member(args, groups[g], j) {
      assert Member(mid, groups[g], j);
    } else {
      assert InvAt(groups, args, j);
      OtherGroup(groups, args, r, g, j);
      InvAtUntouched(groups, args, r, j);
    }
  }

  // Lists do not overlap, so an argument outside one keeps its own list.
  lemma OtherGroup(groups: seq<seq<nat>>, args: seq<ArgState>, args': seq<ArgState>, g: nat, j: nat)
    requires Built(groups, args) && g < |groups| && j < |args| && |args'| == |args|
    requires !Member(args, groups[g], j)
    requires forall i :: 0 <= i < |args| && !Member(args, groups[g], i) ==> args'[i] == args[i]
    ensures var h := GroupOf(groups, args[j].spec.id);
            h < |groups| ==> forall i :: Member(args, groups[h], i) ==> args'[i] == args[i]
  {
    var h := GroupOf(groups, args[j].spec.id);
    if h < |groups| {
      forall i | Member(args, groups[h], i) ensures args'[i] == args[i] {
        assert GroupOf(groups, args[i].spec.id) == h;
        assert args[i].spec.id in groups[g] ==> h == g;
      }
    }
  }

  // What one turn repays.
  ghost function StepRepaid(c: Config, s: State, token: string, rest: seq<string>): nat {
    var o := Offer(c, s.args, s.ignore, 0, token, rest);
    if o.Offered? && o.taker < |s.args| then Repaid(c.groups, s.args, o.taker) else 0
  }

  // Passing a token on settles nothing in a list that has another member, and a
  // list of one is judged by its member alone.
  lemma RepaidKept(groups: seq<seq<nat>>, args: seq<ArgState>, args': seq<ArgState>, k: nat)
    requires Built(groups, args) && k < |args| && |args'| == |args| && args'[k] == args[k]
    requires forall j :: 0 <= j < |args| ==> Passed(args[j], args'[j])
    ensures Repaid(groups, args', k) == Repaid(groups, args, k)
  {
    var g := GroupOf(groups, args[k].spec.id);
    if g < |groups| {
      assert forall j :: Member(args, groups[g], j) <==> Member(args', groups[g], j);
      assert Barred(args, groups[g]) <==> Barred(args', groups[g]);
      if |groups[g]| == 1 {
        BuiltKept(groups, args, args');
        SoleMember(groups, args, k, g);
        SoleMember(groups, args', k, g);
      }
    }
  }

  // The arguments after an offer, but for the taker.
  ghost function PassedBy(args: seq<ArgState>, after: seq<ArgState>, taker: nat): seq<ArgState>
    requires |after| == |args|
  {
    if taker < |args| then after[taker := args[taker]] else after
  }

  // What one turn credits without a check: a switch alone in its xor list that
  // is set among combined switches, and does not take the token, is not counted.
  ghost function StepMissed(c: Config, s: State, token: string, rest: seq<string>): int {
    var o := Offer(c, s.args, s.ignore, 0, token, rest);
    if o.Offered? && |o.args| == |s.args| then
      |Credited(c.groups, PassedBy(s.args, o.args, o.taker))| - |Credited(c.groups, s.args)|
    else 0
  }

  lemma StepCredit(c: Config, s: State, token: string, rest: seq<string>)
    requires Inv(c.groups, s.args)
    ensures var r := Step(c, s, token, rest);
            var repaid, missed := StepRepaid(c, s, token, rest), StepMissed(c, s, token, rest);
            r.Next? ==>
              && Inv(c.groups, r.state.args) && missed >= 0 && (NoSingles(c.groups) ==> missed == 0)
              && r.state.count - s.count + missed
                 == |Credited(c.groups, r.state.args)| - |Credited(c.groups, s.args)| + repaid
  {
    OfferEffect(c, s.args, s.ignore, 0, token, rest);
    var o := Offer(c, s.args, s.ignore, 0, token, rest);
    if o.Offered? {
      var mid := PassedBy(s.args, o.args, o.taker);
      PassKeeps(c.groups, s.args, mid);
      SubsetCount(Credited(c.groups, s.args), Credited(c.groups, mid));
      if o.taker < |s.args| { TakerCredit(c.groups, s.args, o.args, o.taker); }
    }
  }

  // The check of a taker, and what was credited before it.
  lemma TakerCredit(groups: seq<seq<nat>>, args: seq<ArgState>, after: seq<ArgState>, k: nat)
    requires Inv(groups, args) && k < |args| && OfferedTo(args, after, 0, k)
    ensures var r := Check(groups, after, k);
      r.Counted? ==>
        && Inv(groups, r.args)
        && |Credited(groups, r.args)| + Repaid(groups, args, k)
           == |Credited(groups, PassedBy(args, after, k))| + r.weight
  {
    var mid := PassedBy(args, after, k);
    PassKeeps(groups, args, mid);
    RepaidKept(groups, args, mid, k);
    CheckCredit(groups, mid, k, after[k]);
    assert mid[k := after[k]] == after;
  }

  lemma SubsetCount(a: set<nat>, b: set<nat>)
    requires a <= b
    ensures |a| <= |b|
    ensures |a| == |b| ==> a == b
  {
    assert b == a + (b - a);
  }

  // The weight that check returns is the growth of the credit, and what is repaid.
  lemma CheckCredit(groups: seq<seq<nat>>, args: seq<ArgState>, k: nat, b: ArgState)
    requires Inv(groups, args) && k < |args| && Taken(args[k], b)
    ensures var r := Check(groups, args[k := b], k);
            r.Counted? ==>
              && Inv(groups, r.args)
              && |Credited(groups, r.args)| + Repaid(groups, args, k) == |Credited(groups, args)| + r.weight
  {
    var g := GroupOf(groups, b.spec.id);
    if g == |groups| {
      TakeAlone(groups, args, k, b);
    } else if !RivalSet(args[k := b], groups[g], b.spec.id) {
      TakeGrouped(groups, args, k, b, g);
    }
  }

  /** What a run adds beyond the size of each list: the checks of counting
      switches in xor lists that were credited already. */
  ghost function Overpaid(c: Config, s: State, tokens: seq<string>): nat
    decreases |tokens|
  {
    if tokens == [] then 0
    else
      match Step(c, s, tokens[0], tokens[1..])
      case Next(s', extra) =>
        StepRepaid(c, s, tokens[0], tokens[1..]) + Overpaid(c, s', tokens[1 + extra..])
      case _ => 0
  }

  /** What a run credits without a check. */
  ghost function Missed(c: Config, s: State, tokens: seq<string>): int
    decreases |tokens|
  {
    if tokens == [] then 0
    else
      match Step(c, s, tokens[0], tokens[1..])
      case Next(s', extra) =>
        StepMissed(c, s, tokens[0], tokens[1..]) + Missed(c, s', tokens[1 + extra..])
      case _ => 0
  }

  // The count is what has been met, with what was repaid and without what was missed.
  ghost predicate Balanced(groups: seq<seq<nat>>, s: State, repaid: int, missed: int) {
    && Inv(groups, s.args) && missed >= 0
    && s.count + missed == |Credited(groups, s.args)| + repaid
  }

  lemma StepBalanced(c: Config, s: State, token: string, rest: seq<string>, repaid: int, missed: int)
    requires Balanced(c.groups, s, repaid, missed)
    ensures var r := Step(c, s, token, rest);
            r.Next? ==>
              Balanced(c.groups, r.state, repaid + StepRepaid(c, s, token, rest),
                       missed + StepMissed(c, s, token, rest))
  {
    StepCredit(c, s, token, rest);
  }

  /** At every point of every run the count is what has been met and what was
      repaid, less what was missed. */
  lemma {:induction false} RunBalanced(c: Config, s: State, tokens: seq<string>, repaid: int, missed: int)
    requires Balanced(c.groups, s, repaid, missed)
    ensures var r := Run(c, s, tokens);
            r.Done? ==>
              && Balanced(c.groups, r.state, repaid + Overpaid(c, s, tokens), missed + Missed(c, s, tokens))
              && SameShapes(s.args, r.state.args)
    decreases |tokens|
  {
    if tokens == [] {
    } else {
      StepBalanced(c, s, tokens[0], tokens[1..], repaid, missed);
      var r := Step(c, s, tokens[0], tokens[1..]);
      if r.Next? {
        RunBalanced(c, r.state, tokens[1 + r.extra..], repaid + StepRepaid(c, s, tokens[0], tokens[1..]),
                    missed + StepMissed(c, s, tokens[0], tokens[1..]));
      }
    }
  }

  // Without an xor list of one member nothing is missed.
  lemma {:induction false} NeverMissed(c: Config, s: State, tokens: seq<string>)
    requires Inv(c.groups, s.args) && NoSingles(c.groups) && Run(c, s, tokens).Done?
    ensures Missed(c, s, tokens) == 0
    decreases |tokens|
  {
    if tokens == [] {
    } else {
      StepCredit(c, s, tokens[0], tokens[1..]);
      var r := Step(c, s, tokens[0], tokens[1..]);
      NeverMissed(c, r.state, tokens[1 + r.extra..]);
    }
  }

  lemma {:induction false} NeverRepaid(c: Config, s: State, tokens: seq<string>)
    requires NoMultiSwitchGrouped(c.groups, s.args)
    ensures Overpaid(c, s, tokens) == 0
    decreases |tokens|
  {
    if tokens == [] {
    } else {
      StepNotRepaid(c, s, tokens[0], tokens[1..]);
      var r := Step(c, s, tokens[0], tokens[1..]);
      if r.Next? { NeverRepaid(c, r.state, tokens[1 + r.extra..]); }
    }
  }

  lemma StepNotRepaid(c: Config, s: State, token: string, rest: seq<string>)
    requires NoMultiSwitchGrouped(c.groups, s.args)
    ensures StepRepaid(c, s, token, rest) == 0
    ensures var r := Step(c, s, token, rest); r.Next? ==> NoMultiSwitchGrouped(c.groups, r.state.args)
  {
    var r := Step(c, s, token, rest);
    assert r.Next? ==> forall j :: 0 <= j < |s.args| ==> r.state.args[j].spec == s.args[j].spec;
  }

  ghost predicate ExactlyOneSet(args: seq<ArgState>, members: seq<nat>) {
    exists w :: Member(args, members, w) && args[w].IsSet()
      && forall j :: Member(args, members, j) && args[j].IsSet() ==> j == w
  }

  /** What a caller may rely on after a successful parse. */
  ghost predicate AllMet(groups: seq<seq<nat>>, args: seq<ArgState>) {
    && (forall j :: 0 <= j < |args| && args[j].spec.required && !Grouped(groups, args[j].spec.id) ==>
          args[j].IsSet())
    && (forall g :: 0 <= g < |groups| && groups[g] != [] ==> ExactlyOneSet(args, groups[g]))
  }

  lemma CreditedRequired(groups: seq<seq<nat>>, args: seq<ArgState>)
    ensures Credited(groups, args) <= RequiredIds(args)
  {
  }

  lemma SettledOne(groups: seq<seq<nat>>, args: seq<ArgState>, g: nat, k: nat)
    requires Inv(groups, args) && g < |groups| && Member(args, groups[g], k) && Settled(args, groups[g])
    ensures ExactlyOneSet(args, groups[g])
  {
    BuiltOwnList(groups, args, g, k);
    if j :| Member(args, groups[g], j) && args[j].xorSet {
      assert InvAt(groups, args, j);
      var w :| Winner(args, groups[g], w);
      assert Member(args, groups[g], w);
    } else {
      SoleMember(groups, args, k, g);
      assert args[k].IsSet();
      forall j | Member(args, groups[g], j) ensures j == k {
        assert args[j].spec.id == groups[g][0] == args[k].spec.id;
      }
    }
  }

  lemma CreditedAllMet(groups: seq<seq<nat>>, args: seq<ArgState>)
    requires Inv(groups, args)
    requires Credited(groups, args) == RequiredIds(args)
    ensures AllMet(groups, args)
  {
    forall j | 0 <= j < |args| && args[j].spec.required ensures CreditedAt(groups, args, j) {
      assert args[j].spec.id in RequiredIds(args);
      NotYetCreditedContra(groups, args, j);
    }
    forall j | 0 <= j < |args| && args[j].spec.required && !Grouped(groups, args[j].spec.id)
      ensures args[j].IsSet()
    {
      assert InvAt(groups, args, j) && CreditedAt(groups, args, j);
    }
    forall g | 0 <= g < |groups| && groups[g] != [] ensures ExactlyOneSet(args, groups[g]) {
      assert groups[g][0] in groups[g] && Known(args, groups[g][0]);
      var k :| 0 <= k < |args| && args[k].spec.id == groups[g][0] && args[k].spec.required;
      assert Member(args, groups[g], k) && CreditedAt(groups, args, k);
      SettledOne(groups, args, g, k);
    }
  }

  lemma NotYetCreditedContra(groups: seq<seq<nat>>, args: seq<ArgState>, k: nat)
    requires Built(groups, args) && k < |args| && args[k].spec.id in Credited(groups, args)
    ensures CreditedAt(groups, args, k)
  {
    if !CreditedAt(groups, args, k) { NotYetCredited(groups, args, k); }
  }

  lemma FreshBalanced(groups: seq<seq<nat>>, args: seq<ArgState>, ignore: bool)
    requires Built(groups, args) && Fresh(args)
    ensures Balanced(groups, State(args, ignore, 0), 0, 0)
  {
    assert Credited(groups, args) == {};
  }

  lemma RunCovered(c: Config, args: seq<ArgState>, ignore: bool, tokens: seq<string>)
    requires Built(c.groups, args) && Fresh(args)
    ensures var s := State(args, ignore, 0);
            var r := Run(c, s, tokens);
            r.Done? ==>
              && Balanced(c.groups, r.state, Overpaid(c, s, tokens), Missed(c, s, tokens))
              && SameShapes(args, r.state.args)
              && Credited(c.groups, r.state.args) <= RequiredIds(r.state.args) == RequiredIds(args)
              && (|Credited(c.groups, r.state.args)| == |RequiredIds(args)| ==>
                    Credited(c.groups, r.state.args) == RequiredIds(r.state.args))
              && |Credited(c.groups, r.state.args)| <= |RequiredIds(args)|
  {
    var s := State(args, ignore, 0);
    FreshBalanced(c.groups, args, ignore);
    RunBalanced(c, s, tokens, 0, 0);
    var r := Run(c, s, tokens);
    if r.Done? {
      CreditedRequired(c.groups, r.state.args);
      SubsetCount(Credited(c.groups, r.state.args), RequiredIds(r.state.args));
    }
  }

  // Where nothing is repaid, the count is never too large, and equal totals
  // leave nothing missing.
  lemma UnpaidSound(c: Config, args: seq<ArgState>, ignore: bool, tokens: seq<string>)
    requires Built(c.groups, args) && Fresh(args) && Overpaid(c, State(args, ignore, 0), tokens) == 0
    ensures var r := Run(c, State(args, ignore, 0), tokens);
            r.Done? ==> r.state.count <= |RequiredIds(args)|
    ensures var r := Parse(c, State(args, ignore, 0), |RequiredIds(args)|, tokens);
            r.Accepted? ==> SameShapes(args, r.state.args) && AllMet(c.groups, r.state.args)
  {
    RunCovered(c, args, ignore, tokens);
    var r := Run(c, State(args, ignore, 0), tokens);
    if r.Done? && r.state.count == |RequiredIds(args)| {
      CreditedAllMet(c.groups, r.state.args);
    }
  }

  /** Acceptance is sound: if the count comes out equal to the number of
      required arguments, every required argument outside the xor lists is set
      and exactly one member of every xor list is. The count never comes out
      larger, so "Too many arguments!" is never reported. */
  lemma AcceptanceSound(c: Config, args: seq<ArgState>, ignore: bool, tokens: seq<string>)
    requires Built(c.groups, args) && NoMultiSwitchGrouped(c.groups, args) && Fresh(args)
    ensures var r := Run(c, State(args, ignore, 0), tokens);
            r.Done? ==> r.state.count <= |RequiredIds(args)|
    ensures var r := Parse(c, State(args, ignore, 0), |RequiredIds(args)|, tokens);
            r.Accepted? ==> SameShapes(args, r.state.args) && AllMet(c.groups, r.state.args)
  {
    NeverRepaid(c, State(args, ignore, 0), tokens);
    UnpaidSound(c, args, ignore, tokens);
  }

  /** Every xor list has a member that was checked: it is set and the others
      are barred. */
  ghost predicate AllDecided(groups: seq<seq<nat>>, args: seq<ArgState>) {
    && (forall j :: 0 <= j < |args| && args[j].spec.required && !Grouped(groups, args[j].spec.id) ==>
          args[j].IsSet())
    && (forall g :: 0 <= g < |groups| && groups[g] != [] ==> exists w :: Winner(args, groups[g], w))
  }

  /** The comparison, exactly: the count is what has been met and what was repaid,
      less what was missed, and everything is decided if and only if everything
      required has been met. */
  lemma CountExact(c: Config, args: seq<ArgState>, ignore: bool, tokens: seq<string>)
    requires Built(c.groups, args) && Fresh(args)
    ensures var s := State(args, ignore, 0);
            var r := Run(c, s, tokens);
            r.Done? ==>
              && r.state.count + Missed(c, s, tokens) == |Credited(c.groups, r.state.args)| + Overpaid(c, s, tokens)
              && Missed(c, s, tokens) >= 0 && |Credited(c.groups, r.state.args)| <= |RequiredIds(args)|
              && (AllDecided(c.groups, r.state.args)
                  <==> |Credited(c.groups, r.state.args)| == |RequiredIds(args)|)
  {
    RunCovered(c, args, ignore, tokens);
    var r := Run(c, State(args, ignore, 0), tokens);
    if r.Done? {
      if |Credited(c.groups, r.state.args)| == |RequiredIds(args)| {
        CreditedDecided(c.groups, r.state.args);
      }
      if AllDecided(c.groups, r.state.args) {
        DecidedCredited(c.groups, r.state.args);
      }
    }
  }

  lemma AcceptedCount(c: Config, s: State, required: int, tokens: seq<string>)
    requires Run(c, s, tokens).Done?
    ensures Parse(c, s, required, tokens).Accepted? <==> Run(c, s, tokens).state.count == required
  {
  }

  /** So, with no counting switch in an xor list, a scan that comes to its end is
      accepted if and only if everything required is set, every xor list has been
      decided, and none by a check that was missed. */
  lemma AcceptanceExact(c: Config, args: seq<ArgState>, ignore: bool, tokens: seq<string>)
    requires Built(c.groups, args) && NoMultiSwitchGrouped(c.groups, args) && Fresh(args)
    requires Run(c, State(args, ignore, 0), tokens).Done?
    ensures Parse(c, State(args, ignore, 0), |RequiredIds(args)|, tokens).Accepted?
       <==> AllDecided(c.groups, Run(c, State(args, ignore, 0), tokens).state.args)
            && Missed(c, State(args, ignore, 0), tokens) == 0
    ensures NoSingles(c.groups) ==> Missed(c, State(args, ignore, 0), tokens) == 0
  {
    NeverRepaid(c, State(args, ignore, 0), tokens);
    CountExact(c, args, ignore, tokens);
    AcceptedCount(c, State(args, ignore, 0), |RequiredIds(args)|, tokens);
    FreshBalanced(c.groups, args, ignore);
    if NoSingles(c.groups) { NeverMissed(c, State(args, ignore, 0), tokens); }
  }

  lemma CreditedDecided(groups: seq<seq<nat>>, args: seq<ArgState>)
    requires Inv(groups, args)
    requires Credited(groups, args) == RequiredIds(args)
    ensures AllDecided(groups, args)
  {
    CreditedAllMet(groups, args);
    forall g | 0 <= g < |groups| && groups[g] != [] ensures exists w :: Winner(args, groups[g], w) {
      assert groups[g][0] in groups[g] && Known(args, groups[g][0]);
      var k :| 0 <= k < |args| && args[k].spec.id == groups[g][0] && args[k].spec.required;
      assert args[k].spec.id in RequiredIds(args);
      CreditedWinner(groups, args, k, g);
    }
  }

  lemma CreditedWinner(groups: seq<seq<nat>>, args: seq<ArgState>, k: nat, g: nat)
    requires Inv(groups, args) && g < |groups| && Member(args, groups[g], k)
    requires args[k].spec.id in Credited(groups, args)
    ensures exists w :: Winner(args, groups[g], w)
  {
    NotYetCreditedContra(groups, args, k);
    if |groups[g]| == 1 {
      SoleWinner(groups, args, k, g);
    } else {
      var j :| Member(args, groups[g], j) && args[j].xorSet;
      assert InvAt(groups, args, j);
    }
  }

  // The one member of a list has won it as soon as it is set.
  lemma SoleWinner(groups: seq<seq<nat>>, args: seq<ArgState>, k: nat, g: nat)
    requires Inv(groups, args) && g < |groups| && |groups[g]| == 1 && Member(args, groups[g], k)
    requires Touched(args, groups[g])
    ensures Winner(args, groups[g], k)
  {
    assert GroupOf(groups, args[k].spec.id) == g;
    SoleMember(groups, args, k, g);
    forall j | Member(args, groups[g], j) ensures j == k {
      assert args[j].spec.id == groups[g][0] == args[k].spec.id;
    }
    assert InvAt(groups, args, k);
  }

  lemma DecidedCredited(groups: seq<seq<nat>>, args: seq<ArgState>)
    requires Inv(groups, args) && AllDecided(groups, args)
    ensures Credited(groups, args) == RequiredIds(args)
  {
    forall j | 0 <= j < |args| && args[j].spec.required ensures CreditedAt(groups, args, j) {
      var g := GroupOf(groups, args[j].spec.id);
      if g < |groups| {
        var w :| Winner(args, groups[g], w);
        BuiltOwnList(groups, args, g, w);
        if |groups[g]| != 1 {
          var i :| Member(args, groups[g], i) && i != w;
          assert args[i].xorSet;
        }
      }
    }
    forall id | id in RequiredIds(args) ensures id in Credited(groups, args) {
      var j :| 0 <= j < |args| && args[j].spec.required && args[j].spec.id == id;
      assert CreditedAt(groups, args, j);
    }
    CreditedRequired(groups, args);
  }

  // A switch of the given kind as xorAdd leaves it.
  function ForcedSwitch(id: nat, kind: Kind, flag: string, name: string): ArgState {
    ArgState(Spec(id, kind, flag, name, name, "OR required", NoVisitor, true, true),
             false, false, false, false, 0, "", [])
  }

  const VERBOSE := ForcedSwitch(1, MultiSwitch, "v", "verbose")
  const QUIET := ForcedSwitch(2, Switch, "q", "quiet")
  const ALL := ForcedSwitch(3, Switch, "a", "all")
  const NONE := ForcedSwitch(4, Switch, "n", "none")
  const FOUR := [VERBOSE, QUIET, ALL, NONE]
  const PAIRS: seq<seq<nat>> := [[1, 2], [3, 4]]

  lemma TwoPairs(id: nat)
    ensures GroupOf(PAIRS, id) == if 1 <= id <= 2 then 0 else if 3 <= id <= 4 then 1 else 2
  {
    assert GroupFrom(PAIRS, id, 2) == 2;
  }

  lemma FourKnown()
    ensures forall id :: 1 <= id <= 4 ==> Known(FOUR, id)
    ensures |RequiredIds(FOUR)| == 4
  {
    var args := FOUR;
    forall id | 1 <= id <= 4 ensures Known(args, id) && id in RequiredIds(args) {
      assert args[id - 1].spec.id == id && args[id - 1].spec.required;
    }
    assert RequiredIds(args) == {1, 2, 3, 4};
  }

  lemma PaysTwiceBuilt()
    ensures Built(PAIRS, FOUR)
  {
    FourKnown();
    forall id: nat { TwoPairs(id); }
  }

  lemma FourFresh()
    ensures Fresh(FOUR) && |RequiredIds(FOUR)| == 4
  {
    FourKnown();
  }

  // One `-v`: the list of `verbose` is credited with 2, whatever it got before.
  lemma VerboseStep(s: State, rest: seq<string>) returns (args: seq<ArgState>)
    requires |s.args| == 4 && s.args[0].spec == VERBOSE.spec && s.args[1].spec == QUIET.spec
    requires s.args[2..] == [ALL, NONE] && !s.ignore && !s.args[1].IsSet()
    ensures Step(Config(PAIRS, ' '), s, "-v", rest) == Next(State(args, false, s.count + 2), 0)
    ensures SameShapes(s.args, args) && args[2..] == [ALL, NONE] && !args[1].IsSet()
  {
    var groups := PAIRS;
    var v := s.args[0];
    var mid := s.args[0 := v.(alreadySet := true, count := v.count + 1)];
    assert mid[2] == s.args[2..][0] && mid[3] == s.args[2..][1];
    assert Offer(Config(groups, ' '), s.args, false, 0, "-v", rest) == Offered(mid, "-v", false, 0, 0);
    args := Exclude(mid, [1, 2], 1);
    assert GroupOf(groups, 1) == 0;
    assert Check(groups, mid, 0) == Counted(args, 2);
  }

  lemma PaysTwiceRun() returns (out: seq<ArgState>)
    ensures Run(Config(PAIRS, ' '), State(FOUR, false, 0), ["-v", "-v"])
         == Done(State(out, false, 4))
    ensures |out| == 4 && out[2..] == [ALL, NONE] && out[0].spec.id == 1 && out[1].spec.id == 2
  {
    var c := Config(PAIRS, ' ');
    var once := VerboseStep(State(FOUR, false, 0), ["-v"]);
    out := VerboseStep(State(once, false, 2), []);
    assert ["-v"][1..] == [] && ["-v", "-v"][1..] == ["-v"];
    assert Run(c, State(out, false, 4), []) == Done(State(out, false, 4));
    assert Run(c, State(once, false, 2), ["-v"]) == Done(State(out, false, 4));
  }

  /** Without that condition acceptance is not sound: a counting switch in one
      xor list, given twice, is credited twice and pays for the other list. */
  lemma MultiSwitchPaysTwice() returns (out: seq<ArgState>)
    ensures Built(PAIRS, FOUR) && Fresh(FOUR)
    ensures Parse(Config(PAIRS, ' '), State(FOUR, false, 0), |RequiredIds(FOUR)|, ["-v", "-v"])
         == Accepted(State(out, false, 4))
    ensures !ExactlyOneSet(out, PAIRS[1])
  {
    PaysTwiceBuilt();
    FourFresh();
    out := PaysTwiceAccepted();
  }

  lemma PaysTwiceAccepted() returns (out: seq<ArgState>)
    ensures Parse(Config(PAIRS, ' '), State(FOUR, false, 0), 4, ["-v", "-v"]) == Accepted(State(out, false, 4))
    ensures !ExactlyOneSet(out, PAIRS[1])
  {
    out := PaysTwiceRun();
    NoneOfThem(out);
    PaidInFull(out);
  }

  lemma PaidInFull(out: seq<ArgState>)
    requires Run(Config(PAIRS, ' '), State(FOUR, false, 0), ["-v", "-v"])
          == Done(State(out, false, 4))
    ensures Parse(Config(PAIRS, ' '), State(FOUR, false, 0), 4, ["-v", "-v"])
         == Accepted(State(out, false, 4))
  {
  }

  lemma NoneOfThem(args: seq<ArgState>)
    requires |args| == 4 && args[2..] == [ALL, NONE]
    requires args[0].spec.id == 1 && args[1].spec.id == 2
    ensures !ExactlyOneSet(args, [3, 4])
  {
    assert args[2] == args[2..][0] && args[3] == args[2..][1];
  }
}
