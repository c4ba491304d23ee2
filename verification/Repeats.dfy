/** Where the one comparison errs, told from the line. A counting switch in an
    xor list is paid for each time it is named, so a line is wrongly accepted
    exactly if one is named more than once. A switch alone in its list is not
    counted if it is combined with others and does not take the token, so a line
    is then wrongly refused. */
module Repeats {
  import opened Args
  import opened Scan
  import opened Labels
  import opened Acceptance
  import opened Accounting
  import V = Verdicts

  // A counting switch that is a member of an xor list.
  ghost predicate Listed(groups: seq<seq<nat>>, args: seq<ArgState>, p: int) {
    0 <= p < |args| && args[p].spec.kind.MultiSwitch? && Grouped(groups, args[p].spec.id)
  }

  /** How many tokens of the line are the flag or the name of the argument at
      position p, and not another's value. */
  function TimesNamed(p: nat, fates: seq<Fate>): nat {
    if fates == [] then 0 else (if fates[0] == Named(p) then 1 else 0) + TimesNamed(p, fates[1..])
  }

  // The listed counting switches named so far are those that have won their list.
  ghost predicate Won(c: Config, args: seq<ArgState>, named: set<nat>) {
    forall p :: Listed(c.groups, args, p) ==>
      (p in named <==> Winner(args, c.groups[GroupOf(c.groups, args[p].spec.id)], p))
  }

  // No listed counting switch is named again, or twice.
  ghost predicate NoneAgain(c: Config, args: seq<ArgState>, named: set<nat>, fates: seq<Fate>) {
    forall p :: Listed(c.groups, args, p) ==> TimesNamed(p, fates) + (if p in named then 1 else 0) <= 1
  }

  // A member that had won is a rival to every other.
  lemma RivalWins(c: Config, args: seq<ArgState>, mid: seq<ArgState>, k: nat, p: nat)
    requires Built(c.groups, args) && k < |args| && p < |args| && OfferedTo(args, mid, 0, k)
    requires var g := GroupOf(c.groups, args[k].spec.id); g < |c.groups| && g == GroupOf(c.groups, args[p].spec.id)
    requires Check(c.groups, mid, k).Counted?
    ensures Winner(args, c.groups[GroupOf(c.groups, args[p].spec.id)], p) ==> p == k
  {
    if p != k {
      assert mid[p].spec.id != mid[k].spec.id && Passed(args[p], mid[p]);
      assert !mid[p].IsSet();
    }
  }

  // Whoever lets a check through has no rival, so a settled list was won by k.
  lemma SettledByTaker(c: Config, args: seq<ArgState>, mid: seq<ArgState>, k: nat)
    requires Inv(c.groups, args) && NoSingles(c.groups) && k < |args| && Listed(c.groups, args, k)
    requires OfferedTo(args, mid, 0, k)
    requires Check(c.groups, mid, k).Counted?
    ensures var members := c.groups[GroupOf(c.groups, args[k].spec.id)];
      Settled(args, members) <==> Winner(args, members, k)
  {
    var g := GroupOf(c.groups, args[k].spec.id);
    var members := c.groups[g];
    BuiltOwnList(c.groups, args, g, k);
    if Settled(args, members) {
      var j :| Member(args, members, j) && args[j].xorSet;
      assert InvAt(c.groups, args, j);
      var w :| Winner(args, members, w);
      RivalWins(c, args, mid, k, w);
    }
  }

  // The members of the other lists are passed by, and nobody wins in passing.
  lemma PassedWinner(groups: seq<seq<nat>>, args: seq<ArgState>, mid: seq<ArgState>, g: nat, p: nat)
    requires Inv(groups, args) && NoSingles(groups) && |mid| == |args| && p < |args|
    requires g == GroupOf(groups, args[p].spec.id) < |groups|
    requires forall j :: Member(args, groups[g], j) ==> Passed(args[j], mid[j])
    requires forall j :: 0 <= j < |args| ==> mid[j].spec == args[j].spec
    ensures Winner(mid, groups[g], p) <==> Winner(args, groups[g], p)
  {
    var members := groups[g];
    assert forall j :: Member(mid, members, j) <==> Member(args, members, j);
    BuiltOwnList(groups, args, g, p);
    if Winner(mid, members, p) {
      var j :| Member(args, members, j) && j != p;
      assert mid[j].xorSet && args[j].xorSet && InvAt(groups, args, j);
      var w :| Winner(args, members, w);
      assert Member(mid, members, w) && mid[w].xorSet == args[w].xorSet;
    }
  }

  // The check of k settles its own list: k has won, and nobody else.
  lemma CheckedWinner(groups: seq<seq<nat>>, args: seq<ArgState>, mid: seq<ArgState>, k: nat, g: nat, p: nat)
    requires Inv(groups, args) && NoSingles(groups) && k < |args| && p < |args|
    requires OfferedTo(args, mid, 0, k)
    requires g == GroupOf(groups, args[k].spec.id) < |groups| && g == GroupOf(groups, args[p].spec.id)
    requires !RivalSet(mid, groups[g], mid[k].spec.id)
    ensures Winner(Exclude(mid, groups[g], mid[k].spec.id), groups[g], p) <==> p == k
  {
    var members := groups[g];
    var r := Exclude(mid, members, mid[k].spec.id);
    BuiltOwnList(groups, args, g, k);
    assert Member(r, members, k) && Member(r, members, p);
    if args[k].xorSet {
      assert InvAt(groups, args, k);
      var w :| Winner(args, members, w);
      assert Passed(args[w], mid[w]);
      assert mid[w].spec.id in members && mid[w].IsSet();
    }
    assert p != k ==> r[p].xorSet;
  }

  // A check of k leaves the winners of other lists as they are.
  lemma CheckedElsewhere(c: Config, args: seq<ArgState>, mid: seq<ArgState>, k: nat, p: nat)
    requires Inv(c.groups, args) && NoSingles(c.groups) && k < |args| && p < |args|
    requires OfferedTo(args, mid, 0, k) && Check(c.groups, mid, k).Counted?
    requires var h := GroupOf(c.groups, args[p].spec.id);
      h < |c.groups| && h != GroupOf(c.groups, args[k].spec.id)
    ensures var r := Check(c.groups, mid, k).args;
      var members := c.groups[GroupOf(c.groups, args[p].spec.id)];
      |r| == |args| && (Winner(r, members, p) <==> Winner(args, members, p))
  {
    var h, g := GroupOf(c.groups, args[p].spec.id), GroupOf(c.groups, args[k].spec.id);
    var r := Check(c.groups, mid, k).args;
    forall j | Member(args, c.groups[h], j) ensures Passed(args[j], r[j]) {
      assert GroupOf(c.groups, args[j].spec.id) == h;
      assert g < |c.groups| && args[j].spec.id in c.groups[g] ==> h == g;
      assert j != k && Passed(args[j], mid[j]);
    }
    PassedWinner(c.groups, args, r, h, p);
  }

  // One turn: the winners are the switches named so far, and it repays a list
  // exactly if it names one of them again.
  lemma StepWon(c: Config, s: State, rd: Reader, token: string, rest: seq<string>, named: set<nat>)
    requires WellLabeled(s.args, c.delimiter) && Tracks(rd, s)
    requires Inv(c.groups, s.args) && NoSingles(c.groups) && Won(c, s.args, named)
    ensures var r := Step(c, s, token, rest);
      var f := FateOf(c, s.args, rd, token);
      r.Next? ==>
        && Won(c, r.state.args, if f.Named? then named + {f.arg} else named)
        && (StepRepaid(c, s, token, rest) > 0 <==> f.Named? && Listed(c.groups, s.args, f.arg) && f.arg in named)
  {
    var r := Step(c, s, token, rest);
    if r.Next? {
      OfferEffect(c, s.args, s.ignore, 0, token, rest);
      OfferFulfills(c, s, rd, token, rest);
      var f := FateOf(c, s.args, rd, token);
      var o := Offer(c, s.args, s.ignore, 0, token, rest);
      TurnWon(c, s, rd, token, rest, named, o, f);
    }
  }

  lemma TurnWon(c: Config, s: State, rd: Reader, token: string, rest: seq<string>, named: set<nat>, o: Offered, f: Fate)
    requires WellLabeled(s.args, c.delimiter) && Inv(c.groups, s.args) && NoSingles(c.groups) && Won(c, s.args, named)
    requires f == FateOf(c, s.args, rd, token) && !f.Unknown?
    requires o == Offer(c, s.args, s.ignore, 0, token, rest) && o.Offered?
    requires OfferedTo(s.args, o.args, 0, o.taker) && o.taker == Taker(s.args, token, c.delimiter, f)
    requires Step(c, s, token, rest).Next?
    ensures var named' := if f.Named? then named + {f.arg} else named;
      && Won(c, Step(c, s, token, rest).state.args, named')
      && (StepRepaid(c, s, token, rest) > 0 <==> f.Named? && Listed(c.groups, s.args, f.arg) && f.arg in named)
  {
    var args' := Step(c, s, token, rest).state.args;
    var named' := if f.Named? then named + {f.arg} else named;
    ListedTaker(c, s.args, rd, token);
    forall p | Listed(c.groups, args', p)
      ensures p in named' <==> Winner(args', c.groups[GroupOf(c.groups, args'[p].spec.id)], p)
    {
      assert args'[p].spec == s.args[p].spec && Listed(c.groups, s.args, p);
      OneWon(c, s, token, rest, o, p);
    }
    if o.taker < |s.args| && Listed(c.groups, s.args, o.taker) {
      SettledByTaker(c, s.args, o.args, o.taker);
      ListNotEmpty(c.groups, s.args, o.taker);
    }
  }

  // A listed counting switch takes the tokens that name it, and no others.
  lemma ListedTaker(c: Config, args: seq<ArgState>, rd: Reader, token: string)
    ensures var f := FateOf(c, args, rd, token);
      forall p :: Listed(c.groups, args, p) ==> (p == Taker(args, token, c.delimiter, f) <==> f == Named(p))
  {
    WordTakerKind(args, rd, token);
  }

  lemma ListNotEmpty(groups: seq<seq<nat>>, args: seq<ArgState>, p: nat)
    requires Listed(groups, args, p)
    ensures |groups[GroupOf(groups, args[p].spec.id)]| > 0
  {
  }

  lemma WordTakerKind(args: seq<ArgState>, rd: Reader, token: string)
    ensures var u := WordTaker(args, rd.closed, token);
      u < |args| ==> args[u].spec.kind.Unlabeled()
  {
    var u := FirstOpen(args, 0, rd.closed);
    assert u < |args| ==> Opens(args[u].spec, u, rd.closed);
  }

  // Whether p has won its list after a turn: if it took the token, or had won.
  lemma OneWon(c: Config, s: State, token: string, rest: seq<string>, o: Offered, p: nat)
    requires Inv(c.groups, s.args) && NoSingles(c.groups) && Listed(c.groups, s.args, p)
    requires o == Offer(c, s.args, s.ignore, 0, token, rest) && o.Offered?
    requires OfferedTo(s.args, o.args, 0, o.taker) && o.taker <= |s.args|
    requires Step(c, s, token, rest).Next?
    ensures var members := c.groups[GroupOf(c.groups, s.args[p].spec.id)];
      Winner(Step(c, s, token, rest).state.args, members, p) <==> p == o.taker || Winner(s.args, members, p)
  {
    var g := GroupOf(c.groups, s.args[p].spec.id);
    if o.taker == |s.args| {
      PassedWinner(c.groups, s.args, o.args, g, p);
    } else if GroupOf(c.groups, s.args[o.taker].spec.id) == g {
      CheckedWinner(c.groups, s.args, o.args, o.taker, g, p);
      RivalWins(c, s.args, o.args, o.taker, p);
    } else {
      CheckedElsewhere(c, s.args, o.args, o.taker, p);
    }
  }

  /** Over any scan that comes to its end, lists are repaid exactly if a listed
      counting switch is named again. */
  lemma {:induction false} RunRepaid(c: Config, s: State, rd: Reader, tokens: seq<string>, named: set<nat>)
    requires WellLabeled(s.args, c.delimiter) && Tracks(rd, s)
    requires Inv(c.groups, s.args) && NoSingles(c.groups) && Won(c, s.args, named)
    requires Run(c, s, tokens).Done?
    ensures Overpaid(c, s, tokens) == 0 <==> NoneAgain(c, s.args, named, Fates(c, s.args, rd, tokens))
    decreases |tokens|
  {
    if tokens == [] {
    } else {
      RunTurn(c, s, rd, tokens);
      StepWon(c, s, rd, tokens[0], tokens[1..], named);
      StepCredit(c, s, tokens[0], tokens[1..]);
      var s' := Step(c, s, tokens[0], tokens[1..]).state;
      var n, rd' := TurnLength(c, s.args, rd, tokens), NextReader(c, s.args, rd, tokens[0]);
      var f := FateOf(c, s.args, rd, tokens[0]);
      var named' := if f.Named? then named + {f.arg} else named;
      RunRepaid(c, s', rd', tokens[n..], named');
      FatesKept(c, s.args, s'.args, rd', tokens[n..]);
      RepaidTurn(c, s, rd, tokens, s');
      AgainTurn(c, s.args, s'.args, rd, tokens, named);
    }
  }

  lemma RepaidTurn(c: Config, s: State, rd: Reader, tokens: seq<string>, s': State)
    requires WellLabeled(s.args, c.delimiter) && Tracks(rd, s) && tokens != []
    requires var r := Step(c, s, tokens[0], tokens[1..]); r.Next? && r.state == s'
    ensures Overpaid(c, s, tokens)
         == StepRepaid(c, s, tokens[0], tokens[1..]) + Overpaid(c, s', tokens[TurnLength(c, s.args, rd, tokens)..])
  {
    StepLength(c, s, rd, tokens);
  }

  lemma AgainTurn(c: Config, args: seq<ArgState>, args': seq<ArgState>, rd: Reader, tokens: seq<string>,
                  named: set<nat>)
    requires tokens != [] && SameShapes(args, args')
    ensures var f, n := FateOf(c, args, rd, tokens[0]), TurnLength(c, args, rd, tokens);
      var later := Fates(c, args, NextReader(c, args, rd, tokens[0]), tokens[n..]);
      NoneAgain(c, args, named, Fates(c, args, rd, tokens))
      <==> !(f.Named? && Listed(c.groups, args, f.arg) && f.arg in named)
           && NoneAgain(c, args', if f.Named? then named + {f.arg} else named, later)
  {
    var f, n := FateOf(c, args, rd, tokens[0]), TurnLength(c, args, rd, tokens);
    var fates := Fates(c, args, rd, tokens);
    var later := Fates(c, args, NextReader(c, args, rd, tokens[0]), tokens[n..]);
    forall p: nat ensures TimesNamed(p, fates) == (if f == Named(p) then 1 else 0) + TimesNamed(p, later) {
      TimesTurn(c, args, rd, tokens, p);
    }
    forall p ensures Listed(c.groups, args', p) <==> Listed(c.groups, args, p) {
      assert 0 <= p < |args| ==> args'[p].spec == args[p].spec;
    }
  }

  lemma TimesTurn(c: Config, args: seq<ArgState>, rd: Reader, tokens: seq<string>, p: nat)
    requires tokens != []
    ensures var f, n := FateOf(c, args, rd, tokens[0]), TurnLength(c, args, rd, tokens);
      TimesNamed(p, Fates(c, args, rd, tokens))
      == (if f == Named(p) then 1 else 0)
         + TimesNamed(p, Fates(c, args, NextReader(c, args, rd, tokens[0]), tokens[n..]))
  {
    FatesTurn(c, args, rd, tokens);
  }

  /** The line names no listed counting switch more than once. */
  ghost predicate NamedOnce(c: Config, args: seq<ArgState>, ignore: bool, tokens: seq<string>) {
    NoneAgain(c, args, {}, Fates(c, args, Start(State(args, ignore, 0)), tokens))
  }

  lemma FreshWon(c: Config, args: seq<ArgState>)
    requires Built(c.groups, args) && Fresh(args) && NoSingles(c.groups)
    ensures Won(c, args, {})
  {
    forall p | Listed(c.groups, args, p)
      ensures !Winner(args, c.groups[GroupOf(c.groups, args[p].spec.id)], p)
    {
      assert Untouched(args[p]);
    }
  }

  /** When the one comparison is right, with counting switches in xor lists: on a
      line that names none of them more than once, a scan that ends is accepted if
      and only if everything is decided; and an accepted line is decided if and
      only if it names none of them more than once. */
  lemma CountingSwitchesExact(c: Config, args: seq<ArgState>, ignore: bool, tokens: seq<string>)
    requires WellLabeled(args, c.delimiter)
    requires Built(c.groups, args) && Fresh(args) && NoSingles(c.groups)
    requires Run(c, State(args, ignore, 0), tokens).Done?
    ensures var out := Run(c, State(args, ignore, 0), tokens).state.args;
      var accepted := Parse(c, State(args, ignore, 0), |RequiredIds(args)|, tokens).Accepted?;
      && (NamedOnce(c, args, ignore, tokens) ==> (accepted <==> AllDecided(c.groups, out)))
      && (accepted ==> (AllDecided(c.groups, out) <==> NamedOnce(c, args, ignore, tokens)))
  {
    FreshRepaid(c, args, ignore, tokens);
    FreshBalanced(c.groups, args, ignore);
    NeverMissed(c, State(args, ignore, 0), tokens);
    CountExact(c, args, ignore, tokens);
    AcceptedCount(c, State(args, ignore, 0), |RequiredIds(args)|, tokens);
  }

  lemma FreshRepaid(c: Config, args: seq<ArgState>, ignore: bool, tokens: seq<string>)
    requires WellLabeled(args, c.delimiter)
    requires Built(c.groups, args) && Fresh(args) && NoSingles(c.groups)
    requires Run(c, State(args, ignore, 0), tokens).Done?
    ensures Overpaid(c, State(args, ignore, 0), tokens) == 0 <==> NamedOnce(c, args, ignore, tokens)
  {
    FreshBalanced(c.groups, args, ignore);
    FreshWon(c, args);
    RunRepaid(c, State(args, ignore, 0), Start(State(args, ignore, 0)), tokens, {});
  }

  // A member of an xor list that has no other.
  ghost predicate Sole(groups: seq<seq<nat>>, args: seq<ArgState>, p: int) {
    0 <= p < |args| && var g := GroupOf(groups, args[p].spec.id); g < |groups| && |groups[g]| == 1
  }

  // Among combined switches, one that is alone in its list takes the token.
  ghost predicate SolesTake(c: Config, args: seq<ArgState>, rd: Reader, token: string) {
    FateOf(c, args, rd, token).Combined? ==>
      forall p :: Sole(c.groups, args, p) && Eats(args[p].spec, token, c.delimiter) ==>
        p == LetterTaker(args, 0, token, c.delimiter)
  }

  /** On the whole line, every switch alone in its list takes the tokens that hold
      its letter. */
  ghost predicate AllSolesTake(c: Config, args: seq<ArgState>, rd: Reader, tokens: seq<string>)
    decreases |tokens|
  {
    tokens == []
    || (SolesTake(c, args, rd, tokens[0])
        && AllSolesTake(c, args, NextReader(c, args, rd, tokens[0]), tokens[TurnLength(c, args, rd, tokens)..]))
  }

  lemma SolesKept(c: Config, args: seq<ArgState>, args': seq<ArgState>, rd: Reader, token: string)
    requires SameShapes(args, args')
    ensures SolesTake(c, args', rd, token) <==> SolesTake(c, args, rd, token)
  {
    FateKept(c, args, args', rd, token);
    SameTaker(args, args', 0, token, c.delimiter);
    forall p ensures Sole(c.groups, args', p) <==> Sole(c.groups, args, p) {
      assert 0 <= p < |args| ==> args'[p].spec == args[p].spec;
    }
  }

  lemma {:induction false} AllSolesKept(c: Config, args: seq<ArgState>, args': seq<ArgState>, rd: Reader,
                                        tokens: seq<string>)
    requires SameShapes(args, args')
    ensures AllSolesTake(c, args', rd, tokens) <==> AllSolesTake(c, args, rd, tokens)
    decreases |tokens|
  {
    if tokens == [] {
    } else {
      SolesKept(c, args, args', rd, tokens[0]);
      FateKept(c, args, args', rd, tokens[0]);
      AllSolesKept(c, args, args', NextReader(c, args, rd, tokens[0]), tokens[TurnLength(c, args, rd, tokens)..]);
    }
  }

  // Who is set in passing has eaten letters of the token.
  lemma SetInPassing(c: Config, s: State, rd: Reader, token: string, rest: seq<string>, o: Offered, p: nat)
    requires V.Carried(c, s, rd, token, rest, o) && p < |s.args| && p != o.taker
    ensures o.args[p].alreadySet && !s.args[p].alreadySet <==>
            FateOf(c, s.args, rd, token).Combined? && Eats(s.args[p].spec, token, c.delimiter) && !s.args[p].alreadySet
  {
    var f := FateOf(c, s.args, rd, token);
    assert Holds(s.args[p], o.args[p], UsesIn(s.args[p].spec, p, f, token, c.delimiter),
                 GivenFirst(s.args[p].spec, p, f, token, rest, c.delimiter), true);
  }

  // A switch alone in its list that is set in passing is credited, and was not.
  lemma SoleMissed(c: Config, s: State, rd: Reader, token: string, rest: seq<string>, o: Offered, p: nat)
    requires Inv(c.groups, s.args) && V.Carried(c, s, rd, token, rest, o) && Sole(c.groups, s.args, p) && p != o.taker
    requires s.args[p].spec.kind.Switch? && FateOf(c, s.args, rd, token).Combined?
      && Eats(s.args[p].spec, token, c.delimiter)
    ensures var mid := PassedBy(s.args, o.args, o.taker);
      s.args[p].spec.id in Credited(c.groups, mid) && s.args[p].spec.id !in Credited(c.groups, s.args)
  {
    var g := GroupOf(c.groups, s.args[p].spec.id);
    var mid := PassedBy(s.args, o.args, o.taker);
    assert Holds(s.args[p], o.args[p], UsesIn(s.args[p].spec, p, Combined, token, c.delimiter),
                 GivenFirst(s.args[p].spec, p, Combined, token, rest, c.delimiter), true);
    SetInPassing(c, s, rd, token, rest, o, p);
    PassKeeps(c.groups, s.args, mid);
    SoleMember(c.groups, s.args, p, g);
    SoleMember(c.groups, mid, p, g);
    BuiltOwnList(c.groups, s.args, g, p);
    assert CreditedAt(c.groups, mid, p) && mid[p].spec.id == s.args[p].spec.id;
    NotYetCredited(c.groups, s.args, p);
  }

  // If those take the token, nothing is credited in passing.
  lemma NoneMissed(c: Config, s: State, rd: Reader, token: string, rest: seq<string>, o: Offered)
    requires Inv(c.groups, s.args) && V.Carried(c, s, rd, token, rest, o) && SolesTake(c, s.args, rd, token)
    ensures Credited(c.groups, PassedBy(s.args, o.args, o.taker)) == Credited(c.groups, s.args)
  {
    var mid := PassedBy(s.args, o.args, o.taker);
    PassKeeps(c.groups, s.args, mid);
    forall p | Sole(c.groups, s.args, p) ensures mid[p].alreadySet == s.args[p].alreadySet {
      if p != o.taker { SetInPassing(c, s, rd, token, rest, o, p); }
    }
    SameCredit(c.groups, s.args, mid);
  }

  // Nothing is credited in passing unless someone alone in its list is set.
  lemma SameCredit(groups: seq<seq<nat>>, args: seq<ArgState>, mid: seq<ArgState>)
    requires Inv(groups, args) && |mid| == |args|
    requires forall j :: 0 <= j < |args| ==> Passed(args[j], mid[j])
    requires forall p :: Sole(groups, args, p) ==> mid[p].alreadySet == args[p].alreadySet
    ensures Credited(groups, mid) <= Credited(groups, args)
  {
    BuiltKept(groups, args, mid);
    forall id | id in Credited(groups, mid) ensures id in Credited(groups, args) {
      var j :| 0 <= j < |mid| && CreditedAt(groups, mid, j) && mid[j].spec.id == id;
      var g := GroupOf(groups, args[j].spec.id);
      if g == |groups| {
        FreeCredit(groups, args, mid, j);
      } else if |groups[g]| == 1 {
        SoleMember(groups, args, j, g);
        SoleMember(groups, mid, j, g);
      } else {
        ListCredit(groups, args, mid, j, g);
      }
      assert CreditedAt(groups, args, j) && args[j].spec.id == id;
    }
  }

  lemma FreeCredit(groups: seq<seq<nat>>, args: seq<ArgState>, mid: seq<ArgState>, j: nat)
    requires Built(groups, args) && j < |args| == |mid| && Passed(args[j], mid[j])
    requires GroupOf(groups, args[j].spec.id) == |groups| && CreditedAt(groups, mid, j)
    ensures CreditedAt(groups, args, j)
  {
  }

  lemma ListCredit(groups: seq<seq<nat>>, args: seq<ArgState>, mid: seq<ArgState>, j: nat, g: nat)
    requires j < |args| == |mid| && forall i :: 0 <= i < |args| ==> Passed(args[i], mid[i])
    requires g == GroupOf(groups, args[j].spec.id) < |groups| && |groups[g]| != 1 && CreditedAt(groups, mid, j)
    ensures CreditedAt(groups, args, j)
  {
    var i :| Member(mid, groups[g], i) && mid[i].xorSet;
    assert Passed(args[i], mid[i]) && Member(args, groups[g], i);
  }

  lemma StepCarried(c: Config, s: State, rd: Reader, token: string, rest: seq<string>)
    requires WellLabeled(s.args, c.delimiter) && Tracks(rd, s)
    requires Step(c, s, token, rest).Next?
    ensures var o := Offer(c, s.args, s.ignore, 0, token, rest); o.Offered? && V.Carried(c, s, rd, token, rest, o)
  {
    StepFates(c, s, rd, token, rest);
    V.OfferCarried(c, s, rd, token, rest);
  }

  lemma StepSoles(c: Config, s: State, rd: Reader, token: string, rest: seq<string>)
    requires WellLabeled(s.args, c.delimiter) && Tracks(rd, s)
    requires Inv(c.groups, s.args) && NoMultiSwitchGrouped(c.groups, s.args)
    requires Step(c, s, token, rest).Next?
    ensures StepMissed(c, s, token, rest) == 0 <==> SolesTake(c, s.args, rd, token)
  {
    StepCarried(c, s, rd, token, rest);
    var o := Offer(c, s.args, s.ignore, 0, token, rest);
    if SolesTake(c, s.args, rd, token) {
      NoneMissed(c, s, rd, token, rest, o);
    } else {
      OneMissed(c, s, rd, token, rest, o);
    }
  }

  lemma OneMissed(c: Config, s: State, rd: Reader, token: string, rest: seq<string>, o: Offered)
    requires Inv(c.groups, s.args) && NoMultiSwitchGrouped(c.groups, s.args)
    requires V.Carried(c, s, rd, token, rest, o) && !SolesTake(c, s.args, rd, token)
    ensures |Credited(c.groups, PassedBy(s.args, o.args, o.taker))| > |Credited(c.groups, s.args)|
  {
    var p :| Sole(c.groups, s.args, p) && Eats(s.args[p].spec, token, c.delimiter)
             && p != LetterTaker(s.args, 0, token, c.delimiter);
    var mid := PassedBy(s.args, o.args, o.taker);
    SoleMissed(c, s, rd, token, rest, o, p);
    PassKeeps(c.groups, s.args, mid);
    SubsetCount(Credited(c.groups, s.args), Credited(c.groups, mid));
  }

  /** Over any scan that comes to its end, a check is missed exactly if a switch
      alone in its list is combined and does not take the token. */
  lemma {:induction false} RunSoles(c: Config, s: State, rd: Reader, tokens: seq<string>)
    requires WellLabeled(s.args, c.delimiter) && Tracks(rd, s)
    requires Inv(c.groups, s.args) && NoMultiSwitchGrouped(c.groups, s.args)
    requires Run(c, s, tokens).Done?
    ensures Missed(c, s, tokens) >= 0
    ensures Missed(c, s, tokens) == 0 <==> AllSolesTake(c, s.args, rd, tokens)
    decreases |tokens|
  {
    if tokens == [] {
    } else {
      RunTurn(c, s, rd, tokens);
      StepCredit(c, s, tokens[0], tokens[1..]);
      StepSoles(c, s, rd, tokens[0], tokens[1..]);
      StepLength(c, s, rd, tokens);
      var s' := Step(c, s, tokens[0], tokens[1..]).state;
      var n, rd' := TurnLength(c, s.args, rd, tokens), NextReader(c, s.args, rd, tokens[0]);
      assert forall j :: 0 <= j < |s.args| ==> s'.args[j].spec == s.args[j].spec;
      RunSoles(c, s', rd', tokens[n..]);
      AllSolesKept(c, s.args, s'.args, rd', tokens[n..]);
    }
  }

  /** When the comparison is right, without counting switches in xor lists: a scan
      that ends is accepted if and only if everything is decided and every switch
      alone in its list takes its tokens. */
  lemma SolesExact(c: Config, args: seq<ArgState>, ignore: bool, tokens: seq<string>)
    requires WellLabeled(args, c.delimiter)
    requires Built(c.groups, args) && NoMultiSwitchGrouped(c.groups, args) && Fresh(args)
    requires Run(c, State(args, ignore, 0), tokens).Done?
    ensures Parse(c, State(args, ignore, 0), |RequiredIds(args)|, tokens).Accepted?
       <==> AllDecided(c.groups, Run(c, State(args, ignore, 0), tokens).state.args)
            && AllSolesTake(c, args, Start(State(args, ignore, 0)), tokens)
  {
    AcceptanceExact(c, args, ignore, tokens);
    FreshBalanced(c.groups, args, ignore);
    RunSoles(c, State(args, ignore, 0), Start(State(args, ignore, 0)), tokens);
  }

  // A switch alone in its list, and one that is in none.
  const ALONE := ForcedSwitch(3, Switch, "a", "all")
  const PLAIN := ArgState(Spec(4, Switch, "n", "none", "none", "required", NoVisitor, true, false),
                          false, false, false, false, 0, "", [])

  lemma PassedAndTaken()
    ensures Offer(Config([[3]], ' '), [ALONE, PLAIN], false, 0, "-an", [])
         == Offered([ALONE.(alreadySet := true, on := true), PLAIN.(alreadySet := true, on := true)],
                    ['-', BLANK, BLANK], false, 1, 0)
  {
    var c, token, eaten := Config([[3]], ' '), "-an", ['-', BLANK, 'n'];
    assert token[1] == 'a' && eaten[2] == 'n' && eaten[1] != 'n';
    assert BlankFirst('a', token) == eaten && BlankFirst('n', eaten) == ['-', BLANK, BLANK];
    assert Process(ALONE, ' ', false, token, [])
      == Went(false, ALONE.(alreadySet := true, on := true), eaten, 0, false);
    assert AllBlank(['-', BLANK, BLANK]) && !AllBlank(eaten);
    assert Process(PLAIN, ' ', false, eaten, [])
        == Went(true, PLAIN.(alreadySet := true, on := true), ['-', BLANK, BLANK], 0, false);
  }

  /** That can happen: `-an` sets a required switch that is alone in its list, and
      is refused because it was not counted. */
  lemma SoleInPassing()
    ensures var c, args := Config([[3]], ' '), [ALONE, PLAIN];
      var r := Run(c, State(args, false, 0), ["-an"]);
      && Built(c.groups, args) && Fresh(args) && r.Done? && AllDecided(c.groups, r.state.args)
      && Parse(c, State(args, false, 0), |RequiredIds(args)|, ["-an"]) == Rejected(MissingArgs)
  {
    var c, args := Config([[3]], ' '), [ALONE, PLAIN];
    PassedAndTaken();
    var out := [ALONE.(alreadySet := true, on := true), PLAIN.(alreadySet := true, on := true)];
    assert args[0].spec.id == 3 && Known(args, 3);
    assert GroupOf([[3]], 4) == 1 && Check(c.groups, out, 1) == Counted(out, 0);
    assert Step(c, State(args, false, 0), "-an", []) == Next(State(out, false, 0), 0);
    assert ["-an"][1..] == [] && Run(c, State(out, false, 0), []) == Done(State(out, false, 0));
    assert Winner(out, [3], 0);
    assert RequiredIds(args) == {3};
  }
}
