/** What parse answers, told from the line. A reader who notes which arguments
    have taken a token, and which switches have had their letter combined, knows
    whether the scan comes to its end, leaves the program or is refused and by
    which error, what it has counted, and whether everything required is met: for
    any xor lists, on every line. */
module Verdicts {
  import opened Args
  import opened Scan
  import opened Labels
  import opened Acceptance
  import opened Accounting
  import R = RoundTrip

  /** The arguments that have taken a token so far, and the switches of which a
      letter has been combined. */
  datatype Notes = Notes(taken: set<nat>, combined: set<nat>)

  const NOTHING := Notes({}, {})

  // Two members of one xor list.
  ghost predicate Rivals(groups: seq<seq<nat>>, args: seq<ArgState>, j: int, w: int) {
    && 0 <= j < |args| && 0 <= w < |args| && j != w
    && GroupOf(groups, args[j].spec.id) == GroupOf(groups, args[w].spec.id) < |groups|
  }

  // Another member of its list has taken a token.
  ghost predicate BarredBy(groups: seq<seq<nat>>, args: seq<ArgState>, m: Notes, j: int) {
    exists w :: w in m.taken && Rivals(groups, args, j, w)
  }

  ghost predicate SetBy(groups: seq<seq<nat>>, args: seq<ArgState>, m: Notes, j: int) {
    j in m.taken || j in m.combined || BarredBy(groups, args, m, j)
  }

  // Nobody else in its list stands in the way of the argument at position k.
  ghost predicate Unrivalled(groups: seq<seq<nat>>, args: seq<ArgState>, m: Notes, k: nat) {
    forall j: nat :: Rivals(groups, args, k, j) ==> j !in m.taken && (k in m.taken || j !in m.combined)
  }

  /** What becomes of the scan at a token. */
  datatype Saying = GoesAhead | Leaves | Refuses(error: Error)

  // What an argument says to a token that names it, if it was set, or barred, before.
  ghost function NameSays(c: Config, s: Spec, already: bool, barred: bool, token: string, rest: seq<string>): Saying {
    if already && (s.kind.Switch? || s.kind.Value?) then
      Refuses(if barred then MutuallyExclusive(s.id) else AlreadySet(s.id))
    else if s.kind.TakesValue() && ValuePart(token, c.delimiter) == "" && c.delimiter != ' ' then
      Refuses(NoDelimiter(s.id))
    else if s.kind.TakesValue() && ValuePart(token, c.delimiter) == "" && rest == [] then Refuses(MissingValue(s.id))
    else if s.visitor.Leave? then Leaves else GoesAhead
  }

  // What a switch says to its letters in a token.
  ghost function LetterSays(s: Spec, already: bool, barred: bool, token: string, delimiter: char): Saying {
    if s.kind.Switch? && Letters(s, token, delimiter) > 1 then Refuses(AlreadySet(s.id))
    else if s.kind.Switch? && already then Refuses(if barred then MutuallyExclusive(s.id) else AlreadySet(s.id))
    else if s.visitor.Leave? then Leaves else GoesAhead
  }

  // What the first switch from position k on says that does not let the scan go
  // ahead, if there is one.
  ghost function LettersSay(args: seq<ArgState>, k: nat, token: string, delimiter: char): Saying
    requires k <= |args|
    decreases |args| - k
  {
    if k == |args| then GoesAhead
    else
      var says := LetterSays(args[k].spec, args[k].alreadySet, args[k].xorSet, token, delimiter);
      if Eats(args[k].spec, token, delimiter) && !says.GoesAhead? then says
      else LettersSay(args, k + 1, token, delimiter)
  }

  // The arguments with the marks that the notes give them.
  ghost function Marked(groups: seq<seq<nat>>, args: seq<ArgState>, m: Notes): (r: seq<ArgState>)
    ensures SameShapes(args, r)
  {
    seq(|args|, j requires 0 <= j < |args| =>
      args[j].(alreadySet := SetBy(groups, args, m, j), xorSet := BarredBy(groups, args, m, j)))
  }

  // What is left of a token when the switches from position k on have eaten their letters.
  ghost function Leftover(args: seq<ArgState>, k: nat, token: string): string {
    seq(|token|, i requires 0 <= i < |token| => if i >= 1 && OwnedFrom(args, k, token[i]) then BLANK else token[i])
  }

  // A member of the list who is set and not barred.
  ghost predicate Stands(groups: seq<seq<nat>>, args: seq<ArgState>, m: Notes, id: nat) {
    exists j: nat :: j < |args| && args[j].spec.id == id && (j in m.taken || j in m.combined)
      && !BarredBy(groups, args, m, j)
  }

  // The first other member of the list who stands; id itself if there is none.
  ghost function FirstStanding(groups: seq<seq<nat>>, args: seq<ArgState>, m: Notes, members: seq<nat>, id: nat): nat {
    if members == [] then id
    else if members[0] != id && Stands(groups, args, m, members[0]) then members[0]
    else FirstStanding(groups, args, m, members[1..], id)
  }

  // The notes once the letters of the token are noted.
  ghost function Lettered(c: Config, args: seq<ArgState>, m: Notes, f: Fate, token: string): Notes {
    if f.Combined? then
      m.(combined := m.combined + set j | 0 <= j < |args| && Eats(args[j].spec, token, c.delimiter) :: j)
    else m
  }

  ghost function TakerOf(c: Config, args: seq<ArgState>, rd: Reader, token: string): (k: nat)
    ensures k <= |args|
  {
    Taker(args, token, c.delimiter, FateOf(c, args, rd, token))
  }

  // What the arguments say to a token that is offered to them.
  ghost function OfferSays(c: Config, args: seq<ArgState>, rd: Reader, m: Notes, token: string,
                           rest: seq<string>): Saying
  {
    var letters := LettersSay(Marked(c.groups, args, m), 0, token, c.delimiter);
    match FateOf(c, args, rd, token)
    case Named(p) =>
      NameSays(c, args[p].spec, SetBy(c.groups, args, m, p), BarredBy(c.groups, args, m, p), token, rest)
    case Combined => letters
    case Unknown =>
      if NoEater(args, 0, token, c.delimiter) then Refuses(NoMatch(token))
      else if letters.GoesAhead? then Refuses(NoMatch(Leftover(args, 0, token))) else letters
    case _ => GoesAhead
  }

  /** What becomes of the scan at a token: what the arguments say to it, and then
      what the xor lists say to the taker. */
  ghost function TokenSays(c: Config, args: seq<ArgState>, rd: Reader, m: Notes, token: string,
                           rest: seq<string>): Saying
  {
    var k := TakerOf(c, args, rd, token);
    var m' := Lettered(c, args, m, FateOf(c, args, rd, token), token);
    var says := OfferSays(c, args, rd, m, token, rest);
    if !says.GoesAhead? || k == |args| || Unrivalled(c.groups, args, m', k) then says
    else Refuses(MutuallyExclusive(ListSays(c.groups, args, m', k)))
  }

  // Whom the list of the argument at position k names as its rival.
  ghost function ListSays(groups: seq<seq<nat>>, args: seq<ArgState>, m: Notes, k: nat): nat
    requires k < |args|
  {
    var g := GroupOf(groups, args[k].spec.id);
    if g < |groups| then FirstStanding(groups, args, m, groups[g], args[k].spec.id) else args[k].spec.id
  }

  ghost predicate GoesOn(c: Config, args: seq<ArgState>, rd: Reader, m: Notes, token: string, rest: seq<string>) {
    TokenSays(c, args, rd, m, token, rest).GoesAhead?
  }

  ghost function NextNotes(c: Config, args: seq<ArgState>, rd: Reader, m: Notes, token: string): Notes {
    var k := TakerOf(c, args, rd, token);
    var m' := Lettered(c, args, m, FateOf(c, args, rd, token), token);
    if k < |args| then m'.(taken := m'.taken + {k}) else m'
  }

  // What a token adds to the count: the size of the taker's list, or 1 for a
  // required argument in none, but an argument that collects pays once only.
  ghost function Pays(groups: seq<seq<nat>>, args: seq<ArgState>, m: Notes, k: nat): nat
    requires k < |args|
  {
    var g := GroupOf(groups, args[k].spec.id);
    if args[k].spec.kind.Collects() && k in m.taken then 0
    else if g < |groups| then |groups[g]|
    else if args[k].spec.required then 1 else 0
  }

  ghost function TokenPays(c: Config, args: seq<ArgState>, rd: Reader, m: Notes, token: string): nat {
    var k := TakerOf(c, args, rd, token);
    if k < |args| then Pays(c.groups, args, m, k) else 0
  }

  datatype Reading = Broken(saying: Saying) | Whole(notes: Notes, count: nat)

  /** The line read to its end, or to the first token at which the scan does not go
      ahead, with what is said there. */
  ghost function ReadLine(c: Config, args: seq<ArgState>, rd: Reader, m: Notes, count: nat,
                          tokens: seq<string>): Reading
    decreases |tokens|, 1
  {
    if tokens == [] then Whole(m, count)
    else if !GoesOn(c, args, rd, m, tokens[0], tokens[1..]) then
      Broken(TokenSays(c, args, rd, m, tokens[0], tokens[1..]))
    else
      ReadNext(c, args, rd, m, count + TokenPays(c, args, rd, m, tokens[0]), tokens)
  }

  // The rest of the line after its first turn, with `next` counted by then.
  ghost function ReadNext(c: Config, args: seq<ArgState>, rd: Reader, m: Notes, next: nat,
                          tokens: seq<string>): Reading
    requires tokens != []
    decreases |tokens|, 0
  {
    ReadLine(c, args, NextReader(c, args, rd, tokens[0]), NextNotes(c, args, rd, m, tokens[0]), next,
             tokens[TurnLength(c, args, rd, tokens)..])
  }

  // The arguments are as the notes say.
  ghost predicate AsNoted(groups: seq<seq<nat>>, args: seq<ArgState>, m: Notes) {
    && (forall j :: 0 <= j < |args| ==> NotedAt(groups, args, m, j))
    && (forall j, w :: Rivals(groups, args, j, w) ==> j !in m.taken || w !in m.taken)
    && (forall j :: j in m.taken || j in m.combined ==> j < |args|)
  }

  ghost predicate NotedAt(groups: seq<seq<nat>>, args: seq<ArgState>, m: Notes, j: nat)
    requires j < |args|
  {
    var a := args[j];
    && (a.xorSet <==> BarredBy(groups, args, m, j))
    && (a.alreadySet <==> SetBy(groups, args, m, j))
    && (a.spec.kind.Collects() ==>
          if Grouped(groups, a.spec.id) then a.allowMore <==> j in m.taken else a.values != [] <==> j in m.taken)
    && (j in m.combined ==> IsSwitch(a.spec.kind))
  }

  lemma FreshNoted(groups: seq<seq<nat>>, args: seq<ArgState>)
    requires Fresh(args)
    ensures AsNoted(groups, args, NOTHING)
  {
    forall j | 0 <= j < |args| ensures NotedAt(groups, args, NOTHING, j) {
      assert Untouched(args[j]);
    }
  }

  // The reading depends on the specifications alone.
  lemma NotesKept(groups: seq<seq<nat>>, args: seq<ArgState>, args': seq<ArgState>, m: Notes)
    requires SameShapes(args, args')
    ensures forall j, w :: Rivals(groups, args', j, w) <==> Rivals(groups, args, j, w)
    ensures forall j :: BarredBy(groups, args', m, j) <==> BarredBy(groups, args, m, j)
    ensures forall j :: SetBy(groups, args', m, j) <==> SetBy(groups, args, m, j)
    ensures forall k: nat :: Unrivalled(groups, args', m, k) <==> Unrivalled(groups, args, m, k)
  {
    assert forall j, w :: Rivals(groups, args', j, w) <==> Rivals(groups, args, j, w);
    assert forall j :: BarredBy(groups, args', m, j) <==> BarredBy(groups, args, m, j);
  }

  lemma TakerKept(c: Config, args: seq<ArgState>, args': seq<ArgState>, rd: Reader, token: string)
    requires SameShapes(args, args')
    ensures FateOf(c, args', rd, token) == FateOf(c, args, rd, token)
    ensures NextReader(c, args', rd, token) == NextReader(c, args, rd, token)
    ensures TakerOf(c, args', rd, token) == TakerOf(c, args, rd, token)
  {
    FateKept(c, args, args', rd, token);
    SameTaker(args, args', 0, token, c.delimiter);
  }

  lemma LetteredKept(c: Config, args: seq<ArgState>, args': seq<ArgState>, m: Notes, f: Fate, token: string)
    requires SameShapes(args, args')
    ensures Lettered(c, args', m, f, token) == Lettered(c, args, m, f, token)
  {
    assert forall j :: 0 <= j < |args| ==> args'[j].spec == args[j].spec;
  }

  lemma MarkedKept(groups: seq<seq<nat>>, args: seq<ArgState>, args': seq<ArgState>, m: Notes, token: string,
                   delimiter: char)
    requires SameShapes(args, args')
    ensures LettersSay(Marked(groups, args', m), 0, token, delimiter)
         == LettersSay(Marked(groups, args, m), 0, token, delimiter)
  {
    NotesKept(groups, args, args', m);
    SameMarks(Marked(groups, args, m), Marked(groups, args', m), 0, token, delimiter);
  }

  lemma {:induction false} SameMarks(args: seq<ArgState>, args': seq<ArgState>, k: nat, token: string, delimiter: char)
    requires SameShapes(args, args') && k <= |args|
    requires forall j :: k <= j < |args| ==>
      args'[j].alreadySet == args[j].alreadySet && args'[j].xorSet == args[j].xorSet
    ensures LettersSay(args', k, token, delimiter) == LettersSay(args, k, token, delimiter)
    decreases |args| - k
  {
    if k == |args| {
    } else {
      SameMarks(args, args', k + 1, token, delimiter);
    }
  }

  lemma OfferSaysKept(c: Config, args: seq<ArgState>, args': seq<ArgState>, rd: Reader, m: Notes, token: string,
                      rest: seq<string>)
    requires SameShapes(args, args')
    ensures OfferSays(c, args', rd, m, token, rest) == OfferSays(c, args, rd, m, token, rest)
  {
    TakerKept(c, args, args', rd, token);
    NotesKept(c.groups, args, args', m);
    MarkedKept(c.groups, args, args', m, token, c.delimiter);
    LeftoverKept(args, args', token);
    assert NoEater(args', 0, token, c.delimiter) <==> NoEater(args, 0, token, c.delimiter) by {
      FirstsKept(args, args', 0, token, c.delimiter, {});
    }
  }

  lemma LeftoverKept(args: seq<ArgState>, args': seq<ArgState>, token: string)
    requires SameShapes(args, args')
    ensures Leftover(args', 0, token) == Leftover(args, 0, token)
  {
    forall letter: char ensures OwnedFrom(args', 0, letter) <==> OwnedFrom(args, 0, letter) {
      OwnedKept(args, args', letter);
    }
  }

  lemma OwnedKept(args: seq<ArgState>, args': seq<ArgState>, letter: char)
    requires SameShapes(args, args')
    ensures OwnedFrom(args', 0, letter) <==> OwnedFrom(args, 0, letter)
  {
    if OwnedFrom(args, 0, letter) {
      var j :| 0 <= j < |args| && IsSwitch(args[j].spec.kind) && args[j].spec.flag == [letter];
      assert args'[j].spec == args[j].spec;
    }
    if OwnedFrom(args', 0, letter) {
      var j :| 0 <= j < |args'| && IsSwitch(args'[j].spec.kind) && args'[j].spec.flag == [letter];
      assert args'[j].spec == args[j].spec;
    }
  }

  lemma {:induction false} StandingKept(groups: seq<seq<nat>>, args: seq<ArgState>, args': seq<ArgState>, m: Notes,
                                        members: seq<nat>, id: nat)
    requires SameShapes(args, args')
    ensures FirstStanding(groups, args', m, members, id) == FirstStanding(groups, args, m, members, id)
  {
    if members == [] {
    } else {
      NotesKept(groups, args, args', m);
      assert Stands(groups, args', m, members[0]) <==> Stands(groups, args, m, members[0]);
      StandingKept(groups, args, args', m, members[1..], id);
    }
  }

  lemma TokenSaysKept(c: Config, args: seq<ArgState>, args': seq<ArgState>, rd: Reader, m: Notes, token: string,
                      rest: seq<string>)
    requires SameShapes(args, args')
    ensures TokenSays(c, args', rd, m, token, rest) == TokenSays(c, args, rd, m, token, rest)
  {
    TakerKept(c, args, args', rd, token);
    var f, k := FateOf(c, args, rd, token), TakerOf(c, args, rd, token);
    LetteredKept(c, args, args', m, f, token);
    OfferSaysKept(c, args, args', rd, m, token, rest);
    var m' := Lettered(c, args, m, f, token);
    NotesKept(c.groups, args, args', m');
    if k < |args| {
      var g := GroupOf(c.groups, args[k].spec.id);
      if g < |c.groups| { StandingKept(c.groups, args, args', m', c.groups[g], args[k].spec.id); }
    }
  }

  lemma TurnKept(c: Config, args: seq<ArgState>, args': seq<ArgState>, rd: Reader, m: Notes, tokens: seq<string>)
    requires SameShapes(args, args') && tokens != []
    ensures NextReader(c, args', rd, tokens[0]) == NextReader(c, args, rd, tokens[0])
    ensures NextNotes(c, args', rd, m, tokens[0]) == NextNotes(c, args, rd, m, tokens[0])
    ensures TokenPays(c, args', rd, m, tokens[0]) == TokenPays(c, args, rd, m, tokens[0])
    ensures TurnLength(c, args', rd, tokens) == TurnLength(c, args, rd, tokens)
    ensures TokenSays(c, args', rd, m, tokens[0], tokens[1..]) == TokenSays(c, args, rd, m, tokens[0], tokens[1..])
  {
    TakerKept(c, args, args', rd, tokens[0]);
    LetteredKept(c, args, args', m, FateOf(c, args, rd, tokens[0]), tokens[0]);
    TokenSaysKept(c, args, args', rd, m, tokens[0], tokens[1..]);
  }

  // One argument answers a token as is said.
  ghost predicate Answered(r: Outcome, says: Saying) {
    match says
    case GoesAhead => r.Went?
    case Leaves => r.Quit?
    case Refuses(e) => r == Failed(e)
  }

  // A list of arguments answers a token as is said.
  ghost predicate AnsweredAll(r: Offered, says: Saying) {
    match says
    case GoesAhead => r.Offered?
    case Leaves => r.Leaving?
    case Refuses(e) => r == Refused(e)
  }

  // What a named argument answers.
  lemma NamedAnswers(c: Config, a: ArgState, token: string, rest: seq<string>)
    requires !a.spec.kind.Unlabeled() && GoodLabel(a.spec, c.delimiter) && Names(a.spec, token, c.delimiter)
    requires a.xorSet ==> a.alreadySet
    ensures Answered(Process(a, c.delimiter, false, token, rest),
                     NameSays(c, a.spec, a.alreadySet, a.xorSet, token, rest))
  {
  }

  // What a switch answers to its letters.
  lemma LettersAnswer(a: ArgState, delimiter: char, token: string, rest: seq<string>)
    requires Eats(a.spec, token, delimiter) && GoodLabel(a.spec, delimiter) && delimiter != BLANK
    requires !Names(a.spec, token, delimiter) && (a.xorSet ==> a.alreadySet)
    ensures Answered(Process(a, delimiter, false, token, rest),
                     LetterSays(a.spec, a.alreadySet, a.xorSet, token, delimiter))
  {
    SwitchNamedAny(a, delimiter, token, rest);
    HeardBy(a, delimiter, token, rest);
    if a.spec.kind.Switch? {
      var flag := a.spec.flag;
      assert Combines(flag, token, delimiter);
      OccurrencesUpdate(flag[0], token, FirstIndex(token, flag[0], 1), BLANK, 1);
      EatsLetters(a.spec, token, delimiter);
      EatenLetters(a.spec, a.spec.(flag := ""), token, BlankFirst(flag[0], token), delimiter);
    }
  }

  // Whoever is barred is set.
  ghost predicate BarredSet(args: seq<ArgState>) {
    forall j :: 0 <= j < |args| && args[j].xorSet ==> args[j].alreadySet
  }

  /** Down the whole list, the first switch that does not let the scan go ahead
      speaks for all. */
  lemma {:induction false} CombinedAnswers(c: Config, args: seq<ArgState>, k: nat, token: string, rest: seq<string>)
    requires WellLabeled(args, c.delimiter) && k <= |args|
    requires Nobody(args, k, token, c.delimiter) && Combinable(token, c.delimiter)
    requires HasBlanks(token) || LastEater(args, k, token, c.delimiter) < |args|
    requires BarredSet(args)
    ensures AnsweredAll(Offer(c, args, false, k, token, rest), LettersSay(args, k, token, c.delimiter))
    decreases |args| - k
  {
    if k == |args| {
    } else if !Eats(args[k].spec, token, c.delimiter) {
      CombinedAnswers(c, args, k + 1, token, rest);
      LetterlessAnswers(c, args, k, token, rest);
    } else {
      EaterLeaves(c, args, k, token, rest);
      EaterMarks(c, args, k, token, rest);
      var p := Process(args[k], c.delimiter, false, token, rest);
      if p.Went? && !p.matched { CombinedAnswers(c, args[k := p.arg], k + 1, p.token, rest); }
      EaterAnswers(c, args, k, token, rest);
    }
  }

  // An argument without a letter in the token, when those after it are as they should be.
  lemma LetterlessAnswers(c: Config, args: seq<ArgState>, k: nat, token: string, rest: seq<string>)
    requires WellLabeled(args, c.delimiter) && k < |args| && Nobody(args, k, token, c.delimiter)
    requires !Eats(args[k].spec, token, c.delimiter)
    requires HasBlanks(token) || LastEater(args, k, token, c.delimiter) < |args|
    requires AnsweredAll(Offer(c, args, false, k + 1, token, rest), LettersSay(args, k + 1, token, c.delimiter))
    ensures AnsweredAll(Offer(c, args, false, k, token, rest), LettersSay(args, k, token, c.delimiter))
  {
    NoLetterPasses(c, args, k, token, rest);
    PassedOn(c, args, false, k, token, rest);
  }

  lemma EaterMarks(c: Config, args: seq<ArgState>, k: nat, token: string, rest: seq<string>)
    requires WellLabeled(args, c.delimiter) && k < |args| && Eats(args[k].spec, token, c.delimiter)
    requires Nobody(args, k, token, c.delimiter)
    requires BarredSet(args)
    ensures var p := Process(args[k], c.delimiter, false, token, rest);
      p.Went? ==> BarredSet(args[k := p.arg])
  {
    EaterEats(c, args, k, token, rest);
  }

  // An eater, when those after it are as they should be.
  lemma EaterAnswers(c: Config, args: seq<ArgState>, k: nat, token: string, rest: seq<string>)
    requires WellLabeled(args, c.delimiter) && k < |args| && Eats(args[k].spec, token, c.delimiter)
    requires Nobody(args, k, token, c.delimiter) && (args[k].xorSet ==> args[k].alreadySet)
    requires var p := Process(args[k], c.delimiter, false, token, rest);
      p.Went? && !p.matched ==>
        AnsweredAll(Offer(c, args[k := p.arg], false, k + 1, p.token, rest),
                    LettersSay(args[k := p.arg], k + 1, p.token, c.delimiter))
    ensures AnsweredAll(Offer(c, args, false, k, token, rest), LettersSay(args, k, token, c.delimiter))
  {
    LettersAnswer(args[k], c.delimiter, token, rest);
    EaterEats(c, args, k, token, rest);
    var p := Process(args[k], c.delimiter, false, token, rest);
    if p.Went? {
      LaterLetters(args, k, token, p.token, c.delimiter);
      if p.matched {
        NobodyLater(args, k, token, p.token, c.delimiter);
        NobodySays(args, k + 1, token, c.delimiter);
      } else {
        LaterSay(args, args[k := p.arg], k + 1, token, p.token, c.delimiter);
      }
    }
  }

  lemma {:induction false} NobodySays(args: seq<ArgState>, k: nat, token: string, delimiter: char)
    requires k <= |args| && NoEater(args, k, token, delimiter)
    ensures LettersSay(args, k, token, delimiter) == GoesAhead
    decreases |args| - k
  {
    if k == |args| {
    } else {
      NobodySays(args, k + 1, token, delimiter);
    }
  }

  // Those whose letters are left say the same to what is left.
  lemma {:induction false} LaterSay(args: seq<ArgState>, args': seq<ArgState>, k: nat, token: string, token': string,
                                    delimiter: char)
    requires k <= |args| && |args'| == |args| && forall j :: k <= j < |args| ==> args'[j] == args[j]
    requires forall j :: k <= j < |args| ==>
      && UsesIn(args[j].spec, j, Combined, token', delimiter) == UsesIn(args[j].spec, j, Combined, token, delimiter)
      && (Eats(args[j].spec, token', delimiter) <==> Eats(args[j].spec, token, delimiter))
    ensures LettersSay(args', k, token', delimiter) == LettersSay(args, k, token, delimiter)
    decreases |args| - k
  {
    if k == |args| {
    } else {
      LaterSay(args, args', k + 1, token, token', delimiter);
      assert UsesIn(args[k].spec, k, Combined, token', delimiter)
          == UsesIn(args[k].spec, k, Combined, token, delimiter);
    }
  }

  // What is left of a token that nobody takes.
  lemma {:induction false} OfferLeaves(c: Config, args: seq<ArgState>, k: nat, token: string, rest: seq<string>)
    requires WellLabeled(args, c.delimiter) && k <= |args|
    requires Nobody(args, k, token, c.delimiter) && Combinable(token, c.delimiter)
    requires HasBlanks(token) || LastEater(args, k, token, c.delimiter) < |args|
    ensures var r := Offer(c, args, false, k, token, rest);
      r.Offered? && r.taker == |args| ==> r.token == Leftover(args, k, token)
    decreases |args| - k
  {
    if k == |args| {
      assert Leftover(args, k, token) == token;
    } else if !Eats(args[k].spec, token, c.delimiter) {
      OfferLeaves(c, args, k + 1, token, rest);
      NoLetterPasses(c, args, k, token, rest);
      PassedOn(c, args, false, k, token, rest);
      LetterlessLeaves(args, k, token, c.delimiter);
    } else {
      EaterLeaves(c, args, k, token, rest);
      EaterEats(c, args, k, token, rest);
      var p := Process(args[k], c.delimiter, false, token, rest);
      if p.Went? && !p.matched {
        OfferLeaves(c, args[k := p.arg], k + 1, p.token, rest);
        EaterHolds(args[k], k, c.delimiter, token, rest);
        LettersLeave(args, args[k := p.arg], k, token, p.token, c.delimiter);
      }
    }
  }

  lemma LetterlessLeaves(args: seq<ArgState>, k: nat, token: string, delimiter: char)
    requires k < |args| && !Eats(args[k].spec, token, delimiter) && Combinable(token, delimiter)
    ensures Leftover(args, k + 1, token) == Leftover(args, k, token)
  {
    forall i | 1 <= i < |token| ensures OwnedFrom(args, k + 1, token[i]) <==> OwnedFrom(args, k, token[i]) {
      if OwnedFrom(args, k, token[i]) { assert OccursFrom(token, token[i], 1); }
    }
  }

  lemma LettersLeave(args: seq<ArgState>, args': seq<ArgState>, k: nat, token: string, token': string, delimiter: char)
    requires k < |args| && SameShapes(args, args') && Eats(args[k].spec, token, delimiter)
    requires |args[k].spec.flag| == 1 && Combines(args[k].spec.flag, token, delimiter)
    requires token' == BlankFirst(args[k].spec.flag[0], token) || token' == BlankAll(args[k].spec.flag[0], token)
    requires forall i :: 1 <= i < |token'| ==> token'[i] != args[k].spec.flag[0]
    requires forall j :: 0 <= j < |args| && IsSwitch(args[j].spec.kind) ==> args[j].spec.flag != [BLANK]
    ensures Leftover(args', k + 1, token') == Leftover(args, k, token)
  {
    EatsLetters(args[k].spec, token, delimiter);
    assert Leftover(args', k + 1, token') == Leftover(args, k, token) by {
      forall i | 1 <= i < |token|
        ensures Leftover(args', k + 1, token')[i] == Leftover(args, k, token)[i]
      {
        OwnedNext(args, args', k, token[i]);
        if token[i] == args[k].spec.flag[0] {
          assert OwnedFrom(args, k, token[i]) && token'[i] == BLANK;
        } else {
          assert token'[i] == token[i];
        }
      }
    }
  }

  // Who else owns a letter that the switch at position k does not.
  lemma OwnedNext(args: seq<ArgState>, args': seq<ArgState>, k: nat, letter: char)
    requires k < |args| && SameShapes(args, args')
    ensures OwnedFrom(args', k + 1, letter) ==> OwnedFrom(args, k, letter)
    ensures OwnedFrom(args, k, letter) && args[k].spec.flag != [letter] ==> OwnedFrom(args', k + 1, letter)
  {
    if OwnedFrom(args', k + 1, letter) {
      var j :| k + 1 <= j < |args'| && IsSwitch(args'[j].spec.kind) && args'[j].spec.flag == [letter];
      assert args[j].spec == args'[j].spec;
    }
    if OwnedFrom(args, k, letter) && args[k].spec.flag != [letter] {
      var j :| k <= j < |args| && IsSwitch(args[j].spec.kind) && args[j].spec.flag == [letter];
      assert args'[j].spec == args[j].spec;
    }
  }

  // What an offer answers, when the reader has the marks right.
  lemma OfferAnswers(c: Config, s: State, rd: Reader, m: Notes, token: string, rest: seq<string>)
    requires WellLabeled(s.args, c.delimiter) && Tracks(rd, s) && AsNoted(c.groups, s.args, m)
    requires !FateOf(c, s.args, rd, token).Unknown?
    ensures AnsweredAll(Offer(c, s.args, s.ignore, 0, token, rest), OfferSays(c, s.args, rd, m, token, rest))
  {
    match FateOf(c, s.args, rd, token)
    case Named(p) => NamedOffer(c, s, rd, m, token, rest, p);
    case Combined => LettersOffer(c, s, rd, m, token, rest);
    case _ =>
      QuietLabels(c, s, rd, token, rest);
      OfferUnlabeled(c, s, rd, token, rest);
  }

  lemma NamedOffer(c: Config, s: State, rd: Reader, m: Notes, token: string, rest: seq<string>, p: nat)
    requires WellLabeled(s.args, c.delimiter) && Tracks(rd, s) && AsNoted(c.groups, s.args, m)
    requires FateOf(c, s.args, rd, token) == Named(p)
    ensures AnsweredAll(Offer(c, s.args, s.ignore, 0, token, rest), OfferSays(c, s.args, rd, m, token, rest))
  {
    R.OfferReaches(c, s.args, 0, p, token, rest);
    assert NotedAt(c.groups, s.args, m, p);
    NamedAnswers(c, s.args[p], token, rest);
    HeardBy(s.args[p], c.delimiter, token, rest);
  }

  // The marks of the arguments are those that the notes give them.
  lemma MarkedNoted(groups: seq<seq<nat>>, args: seq<ArgState>, m: Notes, token: string, delimiter: char)
    requires AsNoted(groups, args, m)
    ensures BarredSet(args)
    ensures LettersSay(Marked(groups, args, m), 0, token, delimiter) == LettersSay(args, 0, token, delimiter)
  {
    forall j | 0 <= j < |args|
      ensures args[j].xorSet <==> BarredBy(groups, args, m, j)
      ensures args[j].alreadySet <==> SetBy(groups, args, m, j)
    {
      assert NotedAt(groups, args, m, j);
    }
    SameMarks(args, Marked(groups, args, m), 0, token, delimiter);
  }

  // The offer of a token that holds letters of switches.
  lemma LettersOffer(c: Config, s: State, rd: Reader, m: Notes, token: string, rest: seq<string>)
    requires WellLabeled(s.args, c.delimiter) && Tracks(rd, s) && AsNoted(c.groups, s.args, m)
    requires rd.labels && FirstNamed(s.args, 0, token, c.delimiter) == |s.args|
    requires LastEater(s.args, 0, token, c.delimiter) < |s.args|
    ensures AnsweredAll(Offer(c, s.args, s.ignore, 0, token, rest),
                        LettersSay(Marked(c.groups, s.args, m), 0, token, c.delimiter))
  {
    MarkedNoted(c.groups, s.args, m, token, c.delimiter);
    CombinedAnswers(c, s.args, 0, token, rest);
  }

  // The arguments after an offer, before the xor lists are checked.
  ghost predicate MidNoted(groups: seq<seq<nat>>, args: seq<ArgState>, mid: seq<ArgState>, m: Notes, k: nat) {
    && SameShapes(args, mid) && k <= |args|
    && (forall j :: 0 <= j < |args| ==> MidNotedAt(groups, args, mid, m, k, j))
    && (forall j, w :: Rivals(groups, args, j, w) ==> j !in m.taken || w !in m.taken)
    && (forall j :: j in m.taken || j in m.combined ==> j < |args|)
  }

  ghost predicate MidNotedAt(groups: seq<seq<nat>>, args: seq<ArgState>, mid: seq<ArgState>, m: Notes, k: nat, j: nat)
    requires j < |args| == |mid|
  {
    var a := mid[j];
    && (a.xorSet <==> BarredBy(groups, args, m, j))
    && (a.alreadySet <==> j == k || SetBy(groups, args, m, j))
    && (a.spec.kind.Collects() ==>
          if Grouped(groups, a.spec.id) then a.allowMore <==> j in m.taken
          else (a.values != [] <==> j == k || j in m.taken) && (|a.values| <= 1 || j != k || j in m.taken)
               && (|a.values| > 1 || j != k || j !in m.taken))
    && (j in m.combined ==> IsSwitch(a.spec.kind))
  }

  // Who was not set before is set by an offer exactly if it takes the token, or
  // has a letter in it.
  lemma SetByOffer(c: Config, args: seq<ArgState>, rd: Reader, token: string, rest: seq<string>, mid: seq<ArgState>,
                   j: nat)
    requires var f := FateOf(c, args, rd, token); Offers(c, args, f, token, rest, mid)
    requires OfferedTo(args, mid, 0, TakerOf(c, args, rd, token)) && j < |args|
    ensures var f := FateOf(c, args, rd, token);
      mid[j].alreadySet <==> args[j].alreadySet || j == TakerOf(c, args, rd, token)
                             || (f.Combined? && Eats(args[j].spec, token, c.delimiter))
  {
    var f := FateOf(c, args, rd, token);
    assert Holds(args[j], mid[j], UsesIn(args[j].spec, j, f, token, c.delimiter),
                 GivenFirst(args[j].spec, j, f, token, rest, c.delimiter), true);
  }

  lemma OfferNoted(c: Config, args: seq<ArgState>, rd: Reader, m: Notes, token: string, rest: seq<string>,
                   mid: seq<ArgState>)
    requires AsNoted(c.groups, args, m)
    requires Offers(c, args, FateOf(c, args, rd, token), token, rest, mid)
    requires OfferedTo(args, mid, 0, TakerOf(c, args, rd, token))
    ensures MidNoted(c.groups, args, mid, Lettered(c, args, m, FateOf(c, args, rd, token), token),
                     TakerOf(c, args, rd, token))
  {
    var f, k := FateOf(c, args, rd, token), TakerOf(c, args, rd, token);
    var m' := Lettered(c, args, m, f, token);
    forall j | 0 <= j < |args| ensures mid[j].spec == args[j].spec && MidNotedAt(c.groups, args, mid, m', k, j) {
      assert NotedAt(c.groups, args, m, j);
      SetByOffer(c, args, rd, token, rest, mid, j);
      assert BarredBy(c.groups, args, m', j) <==> BarredBy(c.groups, args, m, j);
      assert if j == k then Taken(args[j], mid[j]) else Passed(args[j], mid[j]);
    }
  }

  // A check lets the taker through exactly if nobody stands in its way.
  lemma CheckGoes(groups: seq<seq<nat>>, args: seq<ArgState>, mid: seq<ArgState>, m: Notes, k: nat)
    requires Built(groups, args) && MidNoted(groups, args, mid, m, k) && k < |args|
    ensures Check(groups, mid, k).Counted? <==> Unrivalled(groups, args, m, k)
  {
    var g := GroupOf(groups, args[k].spec.id);
    if g < |groups| && RivalSet(mid, groups[g], mid[k].spec.id) { RivalStands(groups, args, mid, m, k); }
    if !Unrivalled(groups, args, m, k) {
      var j: nat :| Rivals(groups, args, k, j) && (j in m.taken || (k !in m.taken && j in m.combined));
      var w := StandingRival(groups, args, m, k, j);
      assert MidNotedAt(groups, args, mid, m, k, w);
      assert mid[w].IsSet() && mid[w].spec.id in groups[g] && mid[w].spec.id != mid[k].spec.id;
    }
  }

  lemma RivalStands(groups: seq<seq<nat>>, args: seq<ArgState>, mid: seq<ArgState>, m: Notes, k: nat)
    requires Built(groups, args) && MidNoted(groups, args, mid, m, k) && k < |args|
    requires var g := GroupOf(groups, args[k].spec.id); g < |groups| && RivalSet(mid, groups[g], mid[k].spec.id)
    ensures !Unrivalled(groups, args, m, k)
  {
    var g := GroupOf(groups, args[k].spec.id);
    var j: nat :| j < |mid| && mid[j].spec.id in groups[g] && mid[j].spec.id != mid[k].spec.id && mid[j].IsSet();
    assert Rivals(groups, args, k, j) && MidNotedAt(groups, args, mid, m, k, j);
    RivalBarred(groups, args, m, k, j);
  }

  // Someone stands in the way of k who is not barred.
  lemma StandingRival(groups: seq<seq<nat>>, args: seq<ArgState>, m: Notes, k: nat, j: nat) returns (w: nat)
    requires Rivals(groups, args, k, j) && (j in m.taken || (k !in m.taken && j in m.combined))
    requires forall j, w :: Rivals(groups, args, j, w) ==> j !in m.taken || w !in m.taken
    requires forall j :: j in m.taken || j in m.combined ==> j < |args|
    ensures Rivals(groups, args, k, w) && (w in m.taken || w in m.combined) && !BarredBy(groups, args, m, w)
  {
    if v: nat :| v in m.taken && Rivals(groups, args, k, v) {
      w := v;
      RivalBarred(groups, args, m, k, v);
    } else {
      w := j;
      assert forall v: nat :: Rivals(groups, args, j, v) ==> v == k || Rivals(groups, args, k, v);
    }
  }

  // A rival is barred exactly if someone else has taken a token.
  lemma RivalBarred(groups: seq<seq<nat>>, args: seq<ArgState>, m: Notes, k: nat, j: nat)
    requires Rivals(groups, args, k, j)
    requires forall j, w :: Rivals(groups, args, j, w) ==> j !in m.taken || w !in m.taken
    requires forall j :: j in m.taken || j in m.combined ==> j < |args|
    ensures j in m.taken ==> !BarredBy(groups, args, m, j)
    ensures k in m.taken ==> BarredBy(groups, args, m, j)
  {
    assert Rivals(groups, args, j, k);
  }

  // The taker's check adds what the line says, and the notes go on.
  lemma CheckNoted(groups: seq<seq<nat>>, args: seq<ArgState>, mid: seq<ArgState>, m: Notes, k: nat)
    requires Built(groups, args) && MidNoted(groups, args, mid, m, k) && k < |args| && Unrivalled(groups, args, m, k)
    requires Check(groups, mid, k).Counted?
    ensures var r := Check(groups, mid, k);
      && r.weight == Pays(groups, args, m, k)
      && |r.args| == |args| && AsNoted(groups, r.args, m.(taken := m.taken + {k}))
  {
    var r, m' := Check(groups, mid, k).args, m.(taken := m.taken + {k});
    assert MidNotedAt(groups, args, mid, m, k, k);
    forall j | 0 <= j < |args| ensures r[j].spec == args[j].spec && (r[j] == CheckedAt(groups, args, mid, k, j)) {
      assert args[j].spec == mid[j].spec;
    }
    NotesKept(groups, args, r, m');
    forall j | 0 <= j < |args| ensures NotedAt(groups, r, m', j) {
      assert MidNotedAt(groups, args, mid, m, k, j);
      BarredMore(groups, args, m, k, j);
    }
    forall j, w | Rivals(groups, r, j, w) ensures j !in m'.taken || w !in m'.taken {
      assert Rivals(groups, args, j, w) && Rivals(groups, args, w, j);
    }
  }

  // What the check makes of the argument at position j.
  ghost function CheckedAt(groups: seq<seq<nat>>, args: seq<ArgState>, mid: seq<ArgState>, k: nat, j: nat): ArgState
    requires k < |args| == |mid| && j < |mid|
  {
    if Rivals(groups, args, j, k) then mid[j].(alreadySet := true, xorSet := true)
    else if j == k && Grouped(groups, args[k].spec.id) && mid[k].spec.kind.Collects() then mid[k].(allowMore := true)
    else mid[j]
  }

  lemma BarredMore(groups: seq<seq<nat>>, args: seq<ArgState>, m: Notes, k: nat, j: nat)
    ensures BarredBy(groups, args, m.(taken := m.taken + {k}), j) <==>
      BarredBy(groups, args, m, j) || Rivals(groups, args, j, k)
  {
    assert k in m.taken + {k};
    assert forall w :: w in m.taken + {k} <==> w in m.taken || w == k;
  }

  lemma NobodyNoted(groups: seq<seq<nat>>, args: seq<ArgState>, mid: seq<ArgState>, m: Notes)
    requires MidNoted(groups, args, mid, m, |args|)
    ensures AsNoted(groups, mid, m)
  {
    NotesKept(groups, args, mid, m);
    forall j | 0 <= j < |mid| ensures NotedAt(groups, mid, m, j) {
      assert MidNotedAt(groups, args, mid, m, |args|, j);
    }
  }

  // What an offer that is carried out does with the token.
  ghost predicate Carried(c: Config, s: State, rd: Reader, token: string, rest: seq<string>, o: Offered) {
    var f := FateOf(c, s.args, rd, token);
    && o.Offered? && !f.Unknown? && |o.args| == |s.args|
    && OfferedTo(s.args, o.args, 0, o.taker) && Offers(c, s.args, f, token, rest, o.args)
    && o.taker == TakerOf(c, s.args, rd, token) && (o.taker < |s.args| || EmptyCombined(o.token) || o.ignore)
  }

  lemma OfferCarried(c: Config, s: State, rd: Reader, token: string, rest: seq<string>)
    requires WellLabeled(s.args, c.delimiter) && Tracks(rd, s) && !FateOf(c, s.args, rd, token).Unknown?
    ensures var o := Offer(c, s.args, s.ignore, 0, token, rest); o.Offered? ==> Carried(c, s, rd, token, rest, o)
  {
    OfferEffect(c, s.args, s.ignore, 0, token, rest);
    OfferFulfills(c, s, rd, token, rest);
  }

  // A list whose member stands in the way names the one the reader names.
  lemma {:induction false} ListNames(groups: seq<seq<nat>>, args: seq<ArgState>, mid: seq<ArgState>, m: Notes, k: nat,
                                     members: seq<nat>)
    requires Built(groups, args) && MidNoted(groups, args, mid, m, k) && k < |args|
    ensures Rival(mid, members, args[k].spec.id) == FirstStanding(groups, args, m, members, args[k].spec.id)
  {
    if members == [] {
    } else {
      ListNames(groups, args, mid, m, k, members[1..]);
      if members[0] != args[k].spec.id { StandsSet(groups, args, mid, m, k, members[0]); }
    }
  }

  lemma StandsSet(groups: seq<seq<nat>>, args: seq<ArgState>, mid: seq<ArgState>, m: Notes, k: nat, id: nat)
    requires MidNoted(groups, args, mid, m, k) && k < |args| && id != args[k].spec.id
    ensures SetId(mid, id) <==> Stands(groups, args, m, id)
  {
    forall j: nat | j < |args| && args[j].spec.id == id
      ensures mid[j].IsSet() <==> (j in m.taken || j in m.combined) && !BarredBy(groups, args, m, j)
    {
      assert MidNotedAt(groups, args, mid, m, k, j);
    }
    if SetId(mid, id) {
      var j: nat :| j < |mid| && mid[j].spec.id == id && mid[j].IsSet();
      assert args[j].spec.id == id;
    }
    if Stands(groups, args, m, id) {
      var j: nat :| j < |args| && args[j].spec.id == id && (j in m.taken || j in m.combined)
        && !BarredBy(groups, args, m, j);
      assert mid[j].spec.id == id;
    }
  }

  // What a check answers.
  lemma CheckAnswers(groups: seq<seq<nat>>, args: seq<ArgState>, mid: seq<ArgState>, m: Notes, k: nat)
    requires Built(groups, args) && MidNoted(groups, args, mid, m, k) && k < |args|
    ensures var r := Check(groups, mid, k);
      if Unrivalled(groups, args, m, k) then r.Counted? else r == Clash(MutuallyExclusive(ListSays(groups, args, m, k)))
  {
    CheckGoes(groups, args, mid, m, k);
    var g := GroupOf(groups, args[k].spec.id);
    if g < |groups| { ListNames(groups, args, mid, m, k, groups[g]); }
  }

  /** One turn goes on, leaves the program or is refused as the line read so far
      says; if it goes on, the arguments are as noted and the count has grown as
      read. */
  lemma StepReads(c: Config, s: State, rd: Reader, m: Notes, token: string, rest: seq<string>)
    requires WellLabeled(s.args, c.delimiter) && Tracks(rd, s)
    requires Built(c.groups, s.args) && AsNoted(c.groups, s.args, m)
    ensures var r := Step(c, s, token, rest);
      && TurnedAs(r, TokenSays(c, s.args, rd, m, token, rest))
      && (r.Next? ==>
            && AsNoted(c.groups, r.state.args, NextNotes(c, s.args, rd, m, token))
            && r.state.count == s.count + TokenPays(c, s.args, rd, m, token))
  {
    if FateOf(c, s.args, rd, token).Unknown? {
      UnknownReads(c, s, rd, m, token, rest);
    } else {
      OfferAnswers(c, s, rd, m, token, rest);
      OfferCarried(c, s, rd, token, rest);
      var o := Offer(c, s.args, s.ignore, 0, token, rest);
      if o.Offered? { CarriedReads(c, s, rd, m, token, rest, o); }
    }
  }

  // A turn ends as is said.
  ghost predicate TurnedAs(r: Stepped, says: Saying) {
    match says
    case GoesAhead => r.Next?
    case Leaves => r.Exit?
    case Refuses(e) => r == Stop(e)
  }

  // A token that means nothing.
  lemma UnknownReads(c: Config, s: State, rd: Reader, m: Notes, token: string, rest: seq<string>)
    requires WellLabeled(s.args, c.delimiter) && Tracks(rd, s) && AsNoted(c.groups, s.args, m)
    requires FateOf(c, s.args, rd, token).Unknown?
    ensures TurnedAs(Step(c, s, token, rest), TokenSays(c, s.args, rd, m, token, rest))
    ensures !Step(c, s, token, rest).Next?
  {
    StepFates(c, s, rd, token, rest);
    if NoEater(s.args, 0, token, c.delimiter) {
      UnknownRefused(c, s, rd, token, rest);
    } else {
      UnknownLetters(c, s, rd, m, token, rest);
    }
  }

  // A token that holds letters of switches and others.
  lemma UnknownLetters(c: Config, s: State, rd: Reader, m: Notes, token: string, rest: seq<string>)
    requires WellLabeled(s.args, c.delimiter) && Tracks(rd, s) && AsNoted(c.groups, s.args, m)
    requires FateOf(c, s.args, rd, token).Unknown? && !NoEater(s.args, 0, token, c.delimiter)
    ensures TurnedAs(Step(c, s, token, rest), TokenSays(c, s.args, rd, m, token, rest))
  {
    LettersOffer(c, s, rd, m, token, rest);
    UnknownOffered(c, s, rd, token, rest);
    StepUntaken(c, s, token, rest);
    assert TokenSays(c, s.args, rd, m, token, rest) == OfferSays(c, s.args, rd, m, token, rest);
  }

  // A turn whose token nobody takes.
  lemma StepUntaken(c: Config, s: State, token: string, rest: seq<string>)
    ensures var o, r := Offer(c, s.args, s.ignore, 0, token, rest), Step(c, s, token, rest);
      && (o.Refused? ==> r == Stop(o.error)) && (o.Leaving? ==> r == Exit)
      && (o.Offered? && o.taker == |o.args| && !EmptyCombined(o.token) && !o.ignore ==> r == Stop(NoMatch(o.token)))
  {
  }

  lemma UnknownOffered(c: Config, s: State, rd: Reader, token: string, rest: seq<string>)
    requires WellLabeled(s.args, c.delimiter) && Tracks(rd, s)
    requires FateOf(c, s.args, rd, token).Unknown? && !NoEater(s.args, 0, token, c.delimiter)
    ensures var o := Offer(c, s.args, s.ignore, 0, token, rest);
      o.Offered? ==>
        && o.taker == |s.args| == |o.args| && !EmptyCombined(o.token) && !o.ignore
        && o.token == Leftover(s.args, 0, token)
  {
    OfferLeaves(c, s.args, 0, token, rest);
    OfferFulfills(c, s, rd, token, rest);
    OfferFrame(c, s.args, s.ignore, 0, token, rest);
  }

  lemma CarriedReads(c: Config, s: State, rd: Reader, m: Notes, token: string, rest: seq<string>, o: Offered)
    requires Built(c.groups, s.args) && AsNoted(c.groups, s.args, m)
    requires o == Offer(c, s.args, s.ignore, 0, token, rest) && Carried(c, s, rd, token, rest, o)
    requires OfferSays(c, s.args, rd, m, token, rest) == GoesAhead
    ensures var r := Step(c, s, token, rest);
      && TurnedAs(r, TokenSays(c, s.args, rd, m, token, rest))
      && (r.Next? ==>
            && AsNoted(c.groups, r.state.args, NextNotes(c, s.args, rd, m, token))
            && r.state.count == s.count + TokenPays(c, s.args, rd, m, token))
  {
    var m' := Lettered(c, s.args, m, FateOf(c, s.args, rd, token), token);
    OfferNoted(c, s.args, rd, m, token, rest, o.args);
    if o.taker < |s.args| {
      CheckReads(c.groups, s.args, o.args, m', o.taker);
    } else {
      NobodyNoted(c.groups, s.args, o.args, m');
    }
  }

  // The check of a taker, told from the notes.
  lemma CheckReads(groups: seq<seq<nat>>, args: seq<ArgState>, mid: seq<ArgState>, m: Notes, k: nat)
    requires Built(groups, args) && MidNoted(groups, args, mid, m, k) && k < |args|
    ensures var r := Check(groups, mid, k);
      if Unrivalled(groups, args, m, k) then
        r.Counted? && r.weight == Pays(groups, args, m, k) && |r.args| == |args|
        && AsNoted(groups, r.args, m.(taken := m.taken + {k}))
      else r == Clash(MutuallyExclusive(ListSays(groups, args, m, k)))
  {
    CheckAnswers(groups, args, mid, m, k);
    if Unrivalled(groups, args, m, k) { CheckNoted(groups, args, mid, m, k); }
  }

  // What the line says of a scan.
  ghost predicate ToldBy(c: Config, args: seq<ArgState>, rd: Reader, m: Notes, count: nat, tokens: seq<string>,
                         r: Scanned) {
    var v := ReadLine(c, args, rd, m, count, tokens);
    && ScannedAs(r, v)
    && (r.Done? ==>
          SameShapes(args, r.state.args) && r.state.count == v.count && AsNoted(c.groups, r.state.args, v.notes))
  }

  // A scan ends, leaves or is refused as read.
  ghost predicate ScannedAs(r: Scanned, v: Reading) {
    match v
    case Whole(_, _) => r.Done?
    case Broken(Leaves) => r.Exited?
    case Broken(Refuses(e)) => r == Stopped(e)
    case Broken(GoesAhead) => false
  }

  // What the rest of the line says after its first turn, with `next` counted by then.
  ghost predicate ToldNext(c: Config, args: seq<ArgState>, rd: Reader, m: Notes, next: nat, tokens: seq<string>,
                           r: Scanned)
    requires tokens != []
  {
    ToldBy(c, args, NextReader(c, args, rd, tokens[0]), NextNotes(c, args, rd, m, tokens[0]), next,
           tokens[TurnLength(c, args, rd, tokens)..], r)
  }

  lemma ToldByTurn(c: Config, args: seq<ArgState>, rd: Reader, m: Notes, count: nat, next: nat, tokens: seq<string>,
                   r: Scanned)
    requires tokens != [] && GoesOn(c, args, rd, m, tokens[0], tokens[1..])
    requires next == count + TokenPays(c, args, rd, m, tokens[0]) && ToldNext(c, args, rd, m, next, tokens, r)
    ensures ToldBy(c, args, rd, m, count, tokens, r)
  {
    ReadTurn(c, args, rd, m, count, tokens);
  }

  // The reading of a line whose first token lets the scan go ahead.
  lemma {:induction false} ReadTurn(c: Config, args: seq<ArgState>, rd: Reader, m: Notes, count: nat,
                                    tokens: seq<string>)
    requires tokens != [] && GoesOn(c, args, rd, m, tokens[0], tokens[1..])
    ensures ReadLine(c, args, rd, m, count, tokens)
         == ReadNext(c, args, rd, m, count + TokenPays(c, args, rd, m, tokens[0]), tokens)
  {
  }

  lemma ToldByBreak(c: Config, args: seq<ArgState>, rd: Reader, m: Notes, count: nat, tokens: seq<string>, r: Scanned)
    requires tokens != [] && !TokenSays(c, args, rd, m, tokens[0], tokens[1..]).GoesAhead?
    requires ScannedAs(r, Broken(TokenSays(c, args, rd, m, tokens[0], tokens[1..])))
    ensures ToldBy(c, args, rd, m, count, tokens, r)
  {
  }

  lemma ToldByNone(c: Config, args: seq<ArgState>, s: State, rd: Reader, m: Notes)
    requires SameShapes(args, s.args) && AsNoted(c.groups, s.args, m) && s.count >= 0
    ensures ToldBy(c, args, rd, m, s.count, [], Run(c, s, []))
  {
  }

  /** The scan comes to its end exactly if the line can be read to its end; then
      the count is the one read, and the arguments are as noted. */
  lemma {:induction false} RunReads(c: Config, args: seq<ArgState>, s: State, rd: Reader, m: Notes, count: nat,
                                    tokens: seq<string>)
    requires SameShapes(args, s.args) && WellLabeled(s.args, c.delimiter) && Tracks(rd, s)
    requires Built(c.groups, s.args) && AsNoted(c.groups, s.args, m) && s.count == count
    ensures ToldBy(c, args, rd, m, count, tokens, Run(c, s, tokens))
    decreases |tokens|, 1
  {
    if tokens == [] {
      ToldByNone(c, args, s, rd, m);
    } else {
      TurnReads(c, args, s, rd, m, tokens);
      var r := Step(c, s, tokens[0], tokens[1..]);
      var next := count + TokenPays(c, args, rd, m, tokens[0]);
      if r.Next? {
        RestReads(c, args, r.state, rd, m, next, tokens);
        ToldByTurn(c, args, rd, m, count, next, tokens, Run(c, s, tokens));
      } else {
        ToldByBreak(c, args, rd, m, count, tokens, Run(c, s, tokens));
      }
    }
  }

  // The rest of a run, from where its first turn has led.
  lemma {:induction false} RestReads(c: Config, args: seq<ArgState>, s: State, rd: Reader, m: Notes, next: nat,
                                     tokens: seq<string>)
    requires tokens != [] && SameShapes(args, s.args) && WellLabeled(s.args, c.delimiter)
    requires Tracks(NextReader(c, args, rd, tokens[0]), s) && Built(c.groups, s.args) && s.count == next
    requires AsNoted(c.groups, s.args, NextNotes(c, args, rd, m, tokens[0]))
    ensures ToldNext(c, args, rd, m, next, tokens, Run(c, s, tokens[TurnLength(c, args, rd, tokens)..]))
    decreases |tokens|, 0
  {
    RunReads(c, args, s, NextReader(c, args, rd, tokens[0]), NextNotes(c, args, rd, m, tokens[0]), next,
             tokens[TurnLength(c, args, rd, tokens)..]);
  }

  // The first turn of a run.
  lemma TurnReads(c: Config, args: seq<ArgState>, s: State, rd: Reader, m: Notes, tokens: seq<string>)
    requires SameShapes(args, s.args) && WellLabeled(s.args, c.delimiter) && Tracks(rd, s) && tokens != []
    requires Built(c.groups, s.args) && AsNoted(c.groups, s.args, m)
    ensures var r := Step(c, s, tokens[0], tokens[1..]);
      if r.Next? then
        && TokenSays(c, args, rd, m, tokens[0], tokens[1..]).GoesAhead?
        && SameShapes(args, r.state.args) && WellLabeled(r.state.args, c.delimiter)
        && Tracks(NextReader(c, args, rd, tokens[0]), r.state) && Built(c.groups, r.state.args)
        && AsNoted(c.groups, r.state.args, NextNotes(c, args, rd, m, tokens[0]))
        && r.state.count == s.count + TokenPays(c, args, rd, m, tokens[0])
        && Run(c, s, tokens) == Run(c, r.state, tokens[TurnLength(c, args, rd, tokens)..])
      else
        && !TokenSays(c, args, rd, m, tokens[0], tokens[1..]).GoesAhead?
        && ScannedAs(Run(c, s, tokens), Broken(TokenSays(c, args, rd, m, tokens[0], tokens[1..])))
  {
    TurnKept(c, args, s.args, rd, m, tokens);
    StepReads(c, s, rd, m, tokens[0], tokens[1..]);
    RunTurn(c, s, rd, tokens);
    var r := Step(c, s, tokens[0], tokens[1..]);
    if r.Next? { BuiltKept(c.groups, s.args, r.state.args); }
  }

  // A member of the list has taken a token.
  ghost predicate ListTaken(args: seq<ArgState>, members: seq<nat>, m: Notes) {
    exists w :: w in m.taken && Member(args, members, w)
  }

  // Of exactly one member the letter has been combined.
  ghost predicate OneCombined(args: seq<ArgState>, members: seq<nat>, m: Notes) {
    exists w :: w in m.combined && Member(args, members, w)
      && forall j :: j in m.combined && Member(args, members, j) ==> j == w
  }

  ghost predicate AloneTaken(groups: seq<seq<nat>>, args: seq<ArgState>, m: Notes) {
    forall j :: 0 <= j < |args| && args[j].spec.required && !Grouped(groups, args[j].spec.id) ==> j in m.taken
  }

  /** Everything required is met, told from the notes: every required argument in
      no list has taken a token, and in every list a member has, or the letter of
      exactly one member has been combined. */
  ghost predicate MetByNotes(groups: seq<seq<nat>>, args: seq<ArgState>, m: Notes) {
    && AloneTaken(groups, args, m)
    && forall g :: 0 <= g < |groups| && groups[g] != [] ==>
         ListTaken(args, groups[g], m) || OneCombined(args, groups[g], m)
  }

  /** Everything is decided: the same, but letters decide only a list of one. */
  ghost predicate DecidedByNotes(groups: seq<seq<nat>>, args: seq<ArgState>, m: Notes) {
    && AloneTaken(groups, args, m)
    && forall g :: 0 <= g < |groups| && groups[g] != [] ==>
         ListTaken(args, groups[g], m) || (|groups[g]| == 1 && OneCombined(args, groups[g], m))
  }

  // A required argument in no list is set by a token of its own only.
  lemma AloneSet(groups: seq<seq<nat>>, args: seq<ArgState>, m: Notes, j: nat)
    requires Built(groups, args) && AsNoted(groups, args, m) && j < |args|
    requires args[j].spec.required && !Grouped(groups, args[j].spec.id)
    ensures args[j].IsSet() <==> j in m.taken
  {
    assert NotedAt(groups, args, m, j);
  }

  // Two members of a list are rivals.
  lemma MembersRivals(groups: seq<seq<nat>>, args: seq<ArgState>, g: nat, j: nat, w: nat)
    requires Built(groups, args) && g < |groups| && Member(args, groups[g], j) && Member(args, groups[g], w)
    ensures j != w ==> Rivals(groups, args, j, w)
  {
  }

  // Once a member has taken a token it has won the list.
  lemma TakenWins(groups: seq<seq<nat>>, args: seq<ArgState>, m: Notes, g: nat, w: nat)
    requires Built(groups, args) && AsNoted(groups, args, m) && g < |groups|
    requires Member(args, groups[g], w) && w in m.taken
    ensures Winner(args, groups[g], w)
  {
    assert NotedAt(groups, args, m, w);
    assert !BarredBy(groups, args, m, w);
    forall j: nat | Member(args, groups[g], j) && j != w ensures args[j].xorSet {
      MembersRivals(groups, args, g, j, w);
      assert NotedAt(groups, args, m, j);
    }
  }

  // Until then nobody is barred, and those are set whose letter was combined.
  lemma UntakenSet(groups: seq<seq<nat>>, args: seq<ArgState>, m: Notes, g: nat, j: nat)
    requires Built(groups, args) && AsNoted(groups, args, m) && g < |groups| && Member(args, groups[g], j)
    requires !ListTaken(args, groups[g], m)
    ensures !args[j].xorSet && (args[j].IsSet() <==> j in m.combined)
  {
    assert NotedAt(groups, args, m, j);
    forall w | Rivals(groups, args, j, w) ensures w !in m.taken {
      assert GroupOf(groups, args[j].spec.id) == g;
      assert Member(args, groups[g], w);
    }
  }

  // A winner is the only one set.
  lemma WinnerAlone(args: seq<ArgState>, members: seq<nat>, w: nat)
    requires Winner(args, members, w)
    ensures ExactlyOneSet(args, members)
  {
  }

  lemma ListMet(groups: seq<seq<nat>>, args: seq<ArgState>, m: Notes, g: nat)
    requires Built(groups, args) && AsNoted(groups, args, m) && g < |groups|
    ensures ExactlyOneSet(args, groups[g]) <==> ListTaken(args, groups[g], m) || OneCombined(args, groups[g], m)
  {
    if w :| w in m.taken && Member(args, groups[g], w) {
      TakenWins(groups, args, m, g, w);
      WinnerAlone(args, groups[g], w);
    } else {
      forall j: nat | Member(args, groups[g], j) ensures args[j].IsSet() <==> j in m.combined {
        UntakenSet(groups, args, m, g, j);
      }
      if w :| Member(args, groups[g], w) && args[w].IsSet()
              && forall j :: Member(args, groups[g], j) && args[j].IsSet() ==> j == w {
        assert w in m.combined;
      }
    }
  }

  lemma ListDecided(groups: seq<seq<nat>>, args: seq<ArgState>, m: Notes, g: nat)
    requires Built(groups, args) && AsNoted(groups, args, m) && g < |groups|
    ensures (exists w :: Winner(args, groups[g], w)) <==>
            ListTaken(args, groups[g], m) || (|groups[g]| == 1 && OneCombined(args, groups[g], m))
  {
    if w :| w in m.taken && Member(args, groups[g], w) {
      TakenWins(groups, args, m, g, w);
    } else {
      forall w: nat | Member(args, groups[g], w)
        ensures Winner(args, groups[g], w) <==> w in m.combined && |groups[g]| == 1
        ensures |groups[g]| == 1 ==> forall j :: Member(args, groups[g], j) ==> j == w
      {
        UntakenWinner(groups, args, m, g, w);
      }
    }
  }

  lemma UntakenWinner(groups: seq<seq<nat>>, args: seq<ArgState>, m: Notes, g: nat, w: nat)
    requires Built(groups, args) && AsNoted(groups, args, m) && g < |groups| && Member(args, groups[g], w)
    requires !ListTaken(args, groups[g], m)
    ensures Winner(args, groups[g], w) <==> w in m.combined && |groups[g]| == 1
    ensures |groups[g]| == 1 ==> forall j :: Member(args, groups[g], j) ==> j == w
  {
    forall j: nat | Member(args, groups[g], j)
      ensures !args[j].xorSet && (args[j].IsSet() <==> j in m.combined)
    {
      UntakenSet(groups, args, m, g, j);
    }
    BuiltOwnList(groups, args, g, w);
    if |groups[g]| == 1 {
      forall j | Member(args, groups[g], j) ensures j == w {
        assert args[j].spec.id == groups[g][0] == args[w].spec.id;
      }
    }
  }

  /** A whole line read from where the arguments are fresh. */
  ghost function ReadFresh(c: Config, args: seq<ArgState>, ignore: bool, tokens: seq<string>): Reading {
    ReadLine(c, args, Start(State(args, ignore, 0)), NOTHING, 0, tokens)
  }

  /** What parse answers: it accepts, leaves the program, or refuses with an error. */
  datatype Verdict = Accept | Depart | Refuse(error: Error)

  /** What the line says parse must answer. */
  ghost function LineVerdict(c: Config, args: seq<ArgState>, ignore: bool, required: int,
                             tokens: seq<string>): Verdict {
    match ReadFresh(c, args, ignore, tokens)
    case Whole(_, n) =>
      if n < required then Refuse(MissingArgs) else if n > required then Refuse(TooManyArgs) else Accept
    case Broken(Refuses(e)) => Refuse(e)
    case Broken(_) => Depart
  }

  /** From fresh arguments with readable labels and with any xor lists, the line
      alone tells: whether the scan comes to its end, leaves the program or is
      refused, and by which error; what it has counted, whether everything required
      is met, and whether everything is decided. */
  lemma LineTells(c: Config, args: seq<ArgState>, ignore: bool, tokens: seq<string>)
    requires WellLabeled(args, c.delimiter) && Built(c.groups, args) && Fresh(args)
    ensures var v, r := ReadFresh(c, args, ignore, tokens), Run(c, State(args, ignore, 0), tokens);
      && ScannedAs(r, v)
      && (r.Done? ==>
            && r.state.count == v.count
            && (AllMet(c.groups, r.state.args) <==> MetByNotes(c.groups, args, v.notes))
            && (AllDecided(c.groups, r.state.args) <==> DecidedByNotes(c.groups, args, v.notes)))
  {
    var s := State(args, ignore, 0);
    FreshNoted(c.groups, args);
    RunReads(c, args, s, Start(s), NOTHING, 0, tokens);
    var v, r := ReadFresh(c, args, ignore, tokens), Run(c, s, tokens);
    if r.Done? {
      BuiltKept(c.groups, args, r.state.args);
      NotesTell(c.groups, r.state.args, v.notes);
      SameNotes(c.groups, args, r.state.args, v.notes);
    }
  }

  lemma NotesTell(groups: seq<seq<nat>>, args: seq<ArgState>, m: Notes)
    requires Built(groups, args) && AsNoted(groups, args, m)
    ensures AllMet(groups, args) <==> MetByNotes(groups, args, m)
    ensures AllDecided(groups, args) <==> DecidedByNotes(groups, args, m)
  {
    forall j | 0 <= j < |args| && args[j].spec.required && !Grouped(groups, args[j].spec.id)
      ensures args[j].IsSet() <==> j in m.taken
    {
      AloneSet(groups, args, m, j);
    }
    forall g | 0 <= g < |groups|
      ensures ExactlyOneSet(args, groups[g]) <==> ListTaken(args, groups[g], m) || OneCombined(args, groups[g], m)
      ensures (exists w :: Winner(args, groups[g], w)) <==>
              ListTaken(args, groups[g], m) || (|groups[g]| == 1 && OneCombined(args, groups[g], m))
    {
      ListMet(groups, args, m, g);
      ListDecided(groups, args, m, g);
    }
  }

  lemma SameList(args: seq<ArgState>, args': seq<ArgState>, members: seq<nat>, m: Notes)
    requires SameShapes(args, args')
    ensures ListTaken(args', members, m) <==> ListTaken(args, members, m)
    ensures OneCombined(args', members, m) <==> OneCombined(args, members, m)
  {
    assert forall j :: Member(args', members, j) <==> Member(args, members, j);
  }

  lemma SameNotes(groups: seq<seq<nat>>, args: seq<ArgState>, args': seq<ArgState>, m: Notes)
    requires SameShapes(args, args')
    ensures MetByNotes(groups, args', m) <==> MetByNotes(groups, args, m)
    ensures DecidedByNotes(groups, args', m) <==> DecidedByNotes(groups, args, m)
  {
    forall g | 0 <= g < |groups|
      ensures ListTaken(args', groups[g], m) <==> ListTaken(args, groups[g], m)
      ensures OneCombined(args', groups[g], m) <==> OneCombined(args, groups[g], m)
    {
      SameList(args, args', groups[g], m);
    }
    assert AloneTaken(groups, args', m) <==> AloneTaken(groups, args, m);
  }

  // Parse answers as is judged.
  ghost predicate ParsedAs(p: Parsed, v: Verdict) {
    match v
    case Accept => p.Accepted?
    case Depart => p == Gone
    case Refuse(e) => p == Rejected(e)
  }

  /** So the answer of parse is the one the line says. */
  lemma ParseTold(c: Config, args: seq<ArgState>, ignore: bool, required: int, tokens: seq<string>)
    requires WellLabeled(args, c.delimiter) && Built(c.groups, args) && Fresh(args)
    ensures ParsedAs(Parse(c, State(args, ignore, 0), required, tokens), LineVerdict(c, args, ignore, required, tokens))
  {
    LineTells(c, args, ignore, tokens);
  }

  /** What is decided is met. */
  lemma DecidedMet(groups: seq<seq<nat>>, args: seq<ArgState>)
    requires AllDecided(groups, args)
    ensures AllMet(groups, args)
  {
    forall g | 0 <= g < |groups| && groups[g] != [] ensures ExactlyOneSet(args, groups[g]) {
      var w :| Winner(args, groups[g], w);
      WinnerAlone(args, groups[g], w);
    }
  }

  // The letters of a switch are welcome to it.
  ghost predicate LetterFits(s: Spec, already: bool, token: string, delimiter: char) {
    !s.visitor.Leave? && (s.kind.Switch? ==> !already && Letters(s, token, delimiter) == 1)
  }

  // The switch at position j has letters in the token, and all before it that have
  // any welcome them.
  ghost predicate ReachesSwitch(c: Config, args: seq<ArgState>, m: Notes, token: string, j: nat) {
    && j < |args| && Eats(args[j].spec, token, c.delimiter)
    && forall i :: 0 <= i < j && Eats(args[i].spec, token, c.delimiter) ==>
         LetterFits(args[i].spec, SetBy(c.groups, args, m, i), token, c.delimiter)
  }

  ghost predicate AllLettersFit(c: Config, args: seq<ArgState>, m: Notes, token: string) {
    forall j :: 0 <= j < |args| && Eats(args[j].spec, token, c.delimiter) ==>
      LetterFits(args[j].spec, SetBy(c.groups, args, m, j), token, c.delimiter)
  }

  // The token is read as letters of switches, whether or not it holds others.
  ghost predicate HoldsLetters(c: Config, args: seq<ArgState>, rd: Reader, token: string) {
    rd.labels && Nobody(args, 0, token, c.delimiter) && !NoEater(args, 0, token, c.delimiter)
  }

  // Only a switch or an argument of one value minds having been set.
  predicate Minds(s: Spec) { s.kind.Switch? || s.kind.Value? }

  // The argument named wants a value that the token does not carry.
  ghost predicate Wants(c: Config, s: Spec, token: string) {
    s.kind.TakesValue() && ValuePart(token, c.delimiter) == ""
  }

  // An argument whose visitor leaves the program is named and does not refuse.
  ghost predicate LeavesByName(c: Config, args: seq<ArgState>, rd: Reader, m: Notes, token: string, rest: seq<string>) {
    exists p: nat :: p < |args| && FateOf(c, args, rd, token) == Named(p) && args[p].spec.visitor.Leave?
      && (Minds(args[p].spec) ==> !SetBy(c.groups, args, m, p))
      && (Wants(c, args[p].spec, token) ==> c.delimiter == ' ' && rest != [])
  }

  // A switch whose visitor leaves the program is reached by its letter and does not
  // refuse.
  ghost predicate LeavesByLetter(c: Config, args: seq<ArgState>, rd: Reader, m: Notes, token: string) {
    HoldsLetters(c, args, rd, token)
    && exists j: nat :: ReachesSwitch(c, args, m, token, j) && args[j].spec.visitor.Leave?
         && (args[j].spec.kind.Switch? ==>
               !SetBy(c.groups, args, m, j) && Letters(args[j].spec, token, c.delimiter) == 1)
  }

  lemma {:induction false} FirstSays(args: seq<ArgState>, k: nat, token: string, delimiter: char, says: Saying)
    requires k <= |args| && !says.GoesAhead?
    ensures LettersSay(args, k, token, delimiter) == says <==>
      exists j: nat :: SaysFirst(args, k, token, delimiter, says, j)
    decreases |args| - k
  {
    if k == |args| {
    } else {
      FirstSays(args, k + 1, token, delimiter, says);
      var first := LetterSays(args[k].spec, args[k].alreadySet, args[k].xorSet, token, delimiter);
      if Eats(args[k].spec, token, delimiter) && !first.GoesAhead? {
        if first == says { assert SaysFirst(args, k, token, delimiter, says, k); }
      } else {
        var next := k + 1;
        forall j: nat ensures SaysFirst(args, k, token, delimiter, says, j) <==>
          SaysFirst(args, next, token, delimiter, says, j)
        {
        }
      }
    }
  }

  // The switch at position j is the first from position k on that does not let the
  // scan go ahead.
  ghost predicate SaysFirst(args: seq<ArgState>, k: nat, token: string, delimiter: char, says: Saying, j: nat) {
    && k <= j < |args| && Eats(args[j].spec, token, delimiter)
    && LetterSays(args[j].spec, args[j].alreadySet, args[j].xorSet, token, delimiter) == says
    && forall i :: k <= i < j && Eats(args[i].spec, token, delimiter) ==>
         LetterSays(args[i].spec, args[i].alreadySet, args[i].xorSet, token, delimiter).GoesAhead?
  }

  // A letter fits exactly if the switch lets the scan go ahead.
  lemma FitsGoesAhead(s: Spec, already: bool, barred: bool, token: string, delimiter: char)
    requires Eats(s, token, delimiter)
    ensures LetterSays(s, already, barred, token, delimiter).GoesAhead? <==> LetterFits(s, already, token, delimiter)
  {
  }

  lemma LettersSayFirst(c: Config, args: seq<ArgState>, m: Notes, token: string, says: Saying)
    requires !says.GoesAhead?
    ensures LettersSay(Marked(c.groups, args, m), 0, token, c.delimiter) == says <==>
      exists j: nat :: ReachesSwitch(c, args, m, token, j)
        && LetterSays(args[j].spec, SetBy(c.groups, args, m, j), BarredBy(c.groups, args, m, j), token, c.delimiter)
           == says
  {
    var marked := Marked(c.groups, args, m);
    FirstSays(marked, 0, token, c.delimiter, says);
    forall j: nat | j < |args| && Eats(args[j].spec, token, c.delimiter)
      ensures LetterSays(marked[j].spec, marked[j].alreadySet, marked[j].xorSet, token, c.delimiter).GoesAhead?
         <==> LetterFits(args[j].spec, SetBy(c.groups, args, m, j), token, c.delimiter)
    {
      FitsGoesAhead(marked[j].spec, marked[j].alreadySet, marked[j].xorSet, token, c.delimiter);
    }
    forall j: nat ensures SaysFirst(marked, 0, token, c.delimiter, says, j) <==>
      ReachesSwitch(c, args, m, token, j)
        && LetterSays(args[j].spec, SetBy(c.groups, args, m, j), BarredBy(c.groups, args, m, j), token, c.delimiter)
           == says
    {
    }
  }

  // When a token is read as letters.
  lemma LettersFate(c: Config, args: seq<ArgState>, rd: Reader, token: string)
    ensures HoldsLetters(c, args, rd, token) <==>
      var f := FateOf(c, args, rd, token);
      f.Combined? || (f.Unknown? && !NoEater(args, 0, token, c.delimiter))
  {
    FateMeans(c, args, rd, token);
  }

  /** A token leaves the program if and only if it names an argument whose visitor
      leaves it and that does not refuse, or reaches such a switch by its letter
      before any switch that refuses. */
  lemma LeavesExactly(c: Config, args: seq<ArgState>, rd: Reader, m: Notes, token: string, rest: seq<string>)
    ensures TokenSays(c, args, rd, m, token, rest) == Leaves <==>
      LeavesByName(c, args, rd, m, token, rest) || LeavesByLetter(c, args, rd, m, token)
  {
    match FateOf(c, args, rd, token)
    case Named(p) => NameLeaves(c, args, rd, m, token, rest, p);
    case Combined => LetterLeaves(c, args, rd, m, token, rest);
    case Unknown => LetterLeaves(c, args, rd, m, token, rest);
    case _ => LettersFate(c, args, rd, token);
  }

  lemma NameLeaves(c: Config, args: seq<ArgState>, rd: Reader, m: Notes, token: string, rest: seq<string>, p: nat)
    requires FateOf(c, args, rd, token) == Named(p)
    ensures TokenSays(c, args, rd, m, token, rest) == Leaves <==>
      LeavesByName(c, args, rd, m, token, rest) || LeavesByLetter(c, args, rd, m, token)
  {
    LettersFate(c, args, rd, token);
  }

  lemma LetterLeaves(c: Config, args: seq<ArgState>, rd: Reader, m: Notes, token: string, rest: seq<string>)
    requires var f := FateOf(c, args, rd, token); f.Combined? || f.Unknown?
    ensures TokenSays(c, args, rd, m, token, rest) == Leaves <==>
      LeavesByName(c, args, rd, m, token, rest) || LeavesByLetter(c, args, rd, m, token)
  {
    LettersFate(c, args, rd, token);
    LetterLeavesFirst(c, args, m, token);
  }

  lemma LetterLeavesFirst(c: Config, args: seq<ArgState>, m: Notes, token: string)
    ensures LettersSay(Marked(c.groups, args, m), 0, token, c.delimiter) == Leaves <==>
      exists j: nat :: ReachesSwitch(c, args, m, token, j) && args[j].spec.visitor.Leave?
        && (args[j].spec.kind.Switch? ==>
              !SetBy(c.groups, args, m, j) && Letters(args[j].spec, token, c.delimiter) == 1)
  {
    LettersSayFirst(c, args, m, token, Leaves);
  }

  // The argument named was set before, and minds.
  ghost predicate NamedAgain(c: Config, args: seq<ArgState>, rd: Reader, m: Notes, token: string, id: nat, barred: bool)
  {
    exists p: nat :: p < |args| && FateOf(c, args, rd, token) == Named(p) && args[p].spec.id == id
      && Minds(args[p].spec) && SetBy(c.groups, args, m, p) && (BarredBy(c.groups, args, m, p) <==> barred)
  }

  // The argument named wants a value, and does not mind.
  ghost predicate NamedWants(c: Config, args: seq<ArgState>, rd: Reader, m: Notes, token: string, id: nat) {
    exists p: nat :: p < |args| && FateOf(c, args, rd, token) == Named(p) && args[p].spec.id == id
      && Wants(c, args[p].spec, token) && (Minds(args[p].spec) ==> !SetBy(c.groups, args, m, p))
  }

  // A switch is reached by its letter that is in the token twice, or was set before.
  ghost predicate LetterAgain(c: Config, args: seq<ArgState>, rd: Reader, m: Notes, token: string, id: nat) {
    HoldsLetters(c, args, rd, token)
    && exists j: nat :: ReachesSwitch(c, args, m, token, j) && args[j].spec.id == id && args[j].spec.kind.Switch?
         && (Letters(args[j].spec, token, c.delimiter) > 1
             || (SetBy(c.groups, args, m, j) && !BarredBy(c.groups, args, m, j)))
  }

  // A switch is reached by its letter that is barred.
  ghost predicate LetterBarred(c: Config, args: seq<ArgState>, rd: Reader, m: Notes, token: string, id: nat) {
    HoldsLetters(c, args, rd, token)
    && exists j: nat :: ReachesSwitch(c, args, m, token, j) && args[j].spec.id == id && args[j].spec.kind.Switch?
         && Letters(args[j].spec, token, c.delimiter) == 1 && BarredBy(c.groups, args, m, j)
  }

  // Another member of the taker's list stands in its way.
  ghost predicate ListRefuses(c: Config, args: seq<ArgState>, rd: Reader, m: Notes, token: string, rest: seq<string>,
                              id: nat)
  {
    var k := TakerOf(c, args, rd, token);
    var m' := Lettered(c, args, m, FateOf(c, args, rd, token), token);
    && k < |args| && OfferSays(c, args, rd, m, token, rest) == GoesAhead
    && !Unrivalled(c.groups, args, m', k) && id == ListSays(c.groups, args, m', k)
  }

  /** When a token is refused, by each error: an argument is named that was set, or
      barred, or wants a value it is not given; a switch is reached by its letter
      that was set or barred or has it twice; the token means nothing; or another
      member of the list of the one who takes it stands in its way. */
  ghost predicate RefusedAs(c: Config, args: seq<ArgState>, rd: Reader, m: Notes, token: string, rest: seq<string>,
                            e: Error)
  {
    match e
    case AlreadySet(id) => NamedAgain(c, args, rd, m, token, id, false) || LetterAgain(c, args, rd, m, token, id)
    case MutuallyExclusive(id) =>
      || NamedAgain(c, args, rd, m, token, id, true) || LetterBarred(c, args, rd, m, token, id)
      || ListRefuses(c, args, rd, m, token, rest, id)
    case NoDelimiter(id) => NamedWants(c, args, rd, m, token, id) && c.delimiter != ' '
    case MissingValue(id) => NamedWants(c, args, rd, m, token, id) && c.delimiter == ' ' && rest == []
    case NoMatch(t) =>
      && FateOf(c, args, rd, token).Unknown?
      && if NoEater(args, 0, token, c.delimiter) then t == token
         else AllLettersFit(c, args, m, token) && t == Leftover(args, 0, token)
    case _ => false
  }

  lemma RefusedExactly(c: Config, args: seq<ArgState>, rd: Reader, m: Notes, token: string, rest: seq<string>, e: Error)
    ensures TokenSays(c, args, rd, m, token, rest) == Refuses(e) <==> RefusedAs(c, args, rd, m, token, rest, e)
  {
    match FateOf(c, args, rd, token)
    case Named(p) => NameRefuses(c, args, rd, m, token, rest, p, e);
    case Combined => LettersRefuse(c, args, rd, m, token, rest, e);
    case Unknown => LettersRefuse(c, args, rd, m, token, rest, e);
    case _ => LettersFate(c, args, rd, token);
  }

  lemma NameRefuses(c: Config, args: seq<ArgState>, rd: Reader, m: Notes, token: string, rest: seq<string>, p: nat,
                    e: Error)
    requires FateOf(c, args, rd, token) == Named(p)
    ensures TokenSays(c, args, rd, m, token, rest) == Refuses(e) <==> RefusedAs(c, args, rd, m, token, rest, e)
  {
    LettersFate(c, args, rd, token);
    NameErrors(c, args, rd, m, token, rest, p, e);
  }

  // By which error a named argument refuses.
  lemma NameErrors(c: Config, args: seq<ArgState>, rd: Reader, m: Notes, token: string, rest: seq<string>, p: nat,
                   e: Error)
    requires FateOf(c, args, rd, token) == Named(p)
    ensures var says := NameSays(c, args[p].spec, SetBy(c.groups, args, m, p), BarredBy(c.groups, args, m, p), token,
                                 rest);
      says == Refuses(e) <==>
      || (e.AlreadySet? && NamedAgain(c, args, rd, m, token, e.id, false))
      || (e.MutuallyExclusive? && NamedAgain(c, args, rd, m, token, e.id, true))
      || (e.NoDelimiter? && NamedWants(c, args, rd, m, token, e.id) && c.delimiter != ' ')
      || (e.MissingValue? && NamedWants(c, args, rd, m, token, e.id) && c.delimiter == ' ' && rest == [])
  {
    assert BarredBy(c.groups, args, m, p) ==> SetBy(c.groups, args, m, p);
  }

  lemma LettersRefuse(c: Config, args: seq<ArgState>, rd: Reader, m: Notes, token: string, rest: seq<string>, e: Error)
    requires var f := FateOf(c, args, rd, token); f.Combined? || f.Unknown?
    ensures TokenSays(c, args, rd, m, token, rest) == Refuses(e) <==> RefusedAs(c, args, rd, m, token, rest, e)
  {
    LettersFate(c, args, rd, token);
    AllFitSay(c, args, m, token);
    LettersErrorAs(c, args, rd, m, token, e);
  }

  lemma LettersErrorAs(c: Config, args: seq<ArgState>, rd: Reader, m: Notes, token: string, e: Error)
    ensures HoldsLetters(c, args, rd, token) ==>
      (LettersSay(Marked(c.groups, args, m), 0, token, c.delimiter) == Refuses(e) <==>
        || (e.AlreadySet? && LetterAgain(c, args, rd, m, token, e.id))
        || (e.MutuallyExclusive? && LetterBarred(c, args, rd, m, token, e.id)))
  {
    LettersError(c, args, m, token, e);
  }

  // By which error a switch refuses its letters.
  lemma LettersError(c: Config, args: seq<ArgState>, m: Notes, token: string, e: Error)
    ensures LettersSay(Marked(c.groups, args, m), 0, token, c.delimiter) == Refuses(e) <==>
      match e
      case AlreadySet(id) =>
        exists j: nat :: ReachesSwitch(c, args, m, token, j) && args[j].spec.id == id && args[j].spec.kind.Switch?
          && (Letters(args[j].spec, token, c.delimiter) > 1
              || (SetBy(c.groups, args, m, j) && !BarredBy(c.groups, args, m, j)))
      case MutuallyExclusive(id) =>
        exists j: nat :: ReachesSwitch(c, args, m, token, j) && args[j].spec.id == id && args[j].spec.kind.Switch?
          && Letters(args[j].spec, token, c.delimiter) == 1 && BarredBy(c.groups, args, m, j)
      case _ => false
  {
    LettersSayFirst(c, args, m, token, Refuses(e));
    forall j: nat | ReachesSwitch(c, args, m, token, j)
      ensures BarredBy(c.groups, args, m, j) ==> SetBy(c.groups, args, m, j)
      ensures Letters(args[j].spec, token, c.delimiter) >= 1
    {
    }
  }

  lemma {:induction false} AllSay(args: seq<ArgState>, k: nat, token: string, delimiter: char)
    requires k <= |args|
    ensures LettersSay(args, k, token, delimiter) == GoesAhead <==>
      forall j :: k <= j < |args| && Eats(args[j].spec, token, delimiter) ==>
        LetterFits(args[j].spec, args[j].alreadySet, token, delimiter)
    decreases |args| - k
  {
    if k == |args| {
    } else {
      AllSay(args, k + 1, token, delimiter);
      if Eats(args[k].spec, token, delimiter) {
        FitsGoesAhead(args[k].spec, args[k].alreadySet, args[k].xorSet, token, delimiter);
      }
    }
  }

  lemma AllFitSay(c: Config, args: seq<ArgState>, m: Notes, token: string)
    ensures LettersSay(Marked(c.groups, args, m), 0, token, c.delimiter) == GoesAhead <==>
      AllLettersFit(c, args, m, token)
  {
    var marked := Marked(c.groups, args, m);
    AllSay(marked, 0, token, c.delimiter);
    forall j | 0 <= j < |args|
      ensures marked[j].spec == args[j].spec && marked[j].alreadySet == SetBy(c.groups, args, m, j)
    {
    }
  }

  /** The scan goes on from a token if and only if it means something, the argument
      it names, or every switch with a letter in it, takes it, and nobody in the
      taker's list stands in its way. */
  lemma GoesOnExactly(c: Config, args: seq<ArgState>, rd: Reader, m: Notes, token: string, rest: seq<string>)
    ensures var f, k := FateOf(c, args, rd, token), TakerOf(c, args, rd, token);
      GoesOn(c, args, rd, m, token, rest) <==>
      && !f.Unknown?
      && (f.Named? ==>
            && !args[f.arg].spec.visitor.Leave?
            && (Minds(args[f.arg].spec) ==> !SetBy(c.groups, args, m, f.arg))
            && (Wants(c, args[f.arg].spec, token) ==> c.delimiter == ' ' && rest != []))
      && (f.Combined? ==> AllLettersFit(c, args, m, token))
      && (k < |args| ==> Unrivalled(c.groups, args, Lettered(c, args, m, f, token), k))
  {
    AllFitSay(c, args, m, token);
  }

  /** A line that begins with the flag or name of a switch whose visitor leaves the
      program does leave it, whatever follows. */
  lemma LeavesAtOnce(c: Config, args: seq<ArgState>, required: int, tokens: seq<string>, p: nat)
    requires WellLabeled(args, c.delimiter) && Built(c.groups, args) && Fresh(args)
    requires p < |args| && args[p].spec.kind.Switch? && args[p].spec.visitor.Leave?
    requires tokens != [] && args[p].spec.Matches(tokens[0])
    ensures Parse(c, State(args, false, 0), required, tokens) == Gone
  {
    var rd := Start(State(args, false, 0));
    FateExact(c, args, rd, tokens[0], Named(p));
    assert !SetBy(c.groups, args, NOTHING, p);
    ParseTold(c, args, false, required, tokens);
  }
}
