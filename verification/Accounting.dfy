/** Every token of a line is accounted for. What becomes of each token can be
    read off the line and the argument list alone, and after a scan that comes
    to its end every argument holds exactly what the line gives it. */
module Accounting {
  import opened Args
  import opened Scan
  import opened Labels
  import R = RoundTrip
  import C = Combining

  /** What becomes of a token: it names an argument, it is the value of the token
      before it, it combines switches, it is a word for an unlabeled argument, it
      is empty, or it is passed over after `--`. An unknown token means nothing. */
  datatype Fate =
    | Named(arg: nat)
    | ValueOf(arg: nat)
    | Combined
    | Word(arg: nat)
    | Empty
    | Skipped
    | Unknown

  /** Where a reader of the line stands: whether labels are still read, and which
      arguments take no more words if they take one only. */
  datatype Reader = Reader(labels: bool, closed: set<nat>)

  predicate IsSwitch(kind: Kind) { kind.Switch? || kind.MultiSwitch? }

  // The token holds letters of the switch.
  predicate Eats(s: Spec, token: string, delimiter: char) {
    IsSwitch(s.kind) && Letters(s, token, delimiter) > 0
  }

  ghost predicate NoEater(args: seq<ArgState>, k: nat, token: string, delimiter: char) {
    forall j :: k <= j < |args| ==> !Eats(args[j].spec, token, delimiter)
  }

  // The letter is the flag of a switch. A dash never is, though `--` has the
  // flag "-": it cannot be combined.
  ghost predicate OwnedFrom(args: seq<ArgState>, k: nat, letter: char) {
    letter != DASH && exists j :: k <= j < |args| && IsSwitch(args[j].spec.kind) && args[j].spec.flag == [letter]
  }

  // Every letter behind the dash is the flag of a switch.
  ghost predicate SwitchesOnly(args: seq<ArgState>, k: nat, token: string, delimiter: char) {
    Combinable(token, delimiter)
    && forall i :: 1 <= i < |token| && token[i] != BLANK ==> OwnedFrom(args, k, token[i])
  }

  // Whether the argument at position j takes another word.
  predicate Opens(s: Spec, j: nat, closed: set<nat>) {
    s.kind.UnlabeledMulti? || (s.kind.UnlabeledValue? && j !in closed)
  }

  // The first labeled argument from position k on that the token names, or |args|.
  function FirstNamed(args: seq<ArgState>, k: nat, token: string, delimiter: char): (j: nat)
    requires k <= |args|
    ensures k <= j <= |args|
    ensures forall i :: k <= i < j && !args[i].spec.kind.Unlabeled() ==> !Names(args[i].spec, token, delimiter)
    ensures j < |args| ==> !args[j].spec.kind.Unlabeled() && Names(args[j].spec, token, delimiter)
    decreases |args| - k
  {
    if k == |args| || (!args[k].spec.kind.Unlabeled() && Names(args[k].spec, token, delimiter)) then k
    else FirstNamed(args, k + 1, token, delimiter)
  }

  // The last switch from position k on with a letter in the token, or |args|.
  function LastEater(args: seq<ArgState>, k: nat, token: string, delimiter: char): (j: nat)
    requires k <= |args|
    ensures k <= j <= |args|
    ensures j < |args| ==> Eats(args[j].spec, token, delimiter)
    ensures j == |args| ==> NoEater(args, k, token, delimiter)
    decreases |args| - k
  {
    if k == |args| then k
    else
      var later := LastEater(args, k + 1, token, delimiter);
      if later == |args| && Eats(args[k].spec, token, delimiter) then k else later
  }

  // The first argument from position k on that takes another word, or |args|.
  function FirstOpen(args: seq<ArgState>, k: nat, closed: set<nat>): (j: nat)
    requires k <= |args|
    ensures k <= j <= |args|
    ensures forall i :: k <= i < j ==> !Opens(args[i].spec, i, closed)
    ensures j < |args| ==> Opens(args[j].spec, j, closed)
    decreases |args| - k
  {
    if k == |args| || Opens(args[k].spec, k, closed) then k else FirstOpen(args, k + 1, closed)
  }

  function WordTaker(args: seq<ArgState>, closed: set<nat>, token: string): (j: nat)
    ensures j <= |args|
  {
    if HasBlanks(token) then |args| else FirstOpen(args, 0, closed)
  }

  /** What becomes of the token a reader meets. */
  ghost function FateOf(c: Config, args: seq<ArgState>, rd: Reader, token: string): (f: Fate)
    ensures f.Named? ==> f.arg < |args| && !args[f.arg].spec.kind.Unlabeled()
    ensures f.Word? ==> f.arg < |args|
    ensures !f.ValueOf?
  {
    var p, u := FirstNamed(args, 0, token, c.delimiter), WordTaker(args, rd.closed, token);
    if rd.labels && p < |args| then Named(p)
    else if rd.labels && LastEater(args, 0, token, c.delimiter) < |args| then
      if SwitchesOnly(args, 0, token, c.delimiter) then Combined else Unknown
    else if u < |args| then Word(u)
    else if !rd.labels then Skipped
    else if EmptyCombined(token) then Empty else Unknown
  }

  /** The same in words: what each fate says of the token. */
  ghost predicate Means(c: Config, args: seq<ArgState>, rd: Reader, token: string, f: Fate) {
    var unlabeled := rd.labels ==> Nobody(args, 0, token, c.delimiter) && NoEater(args, 0, token, c.delimiter);
    var noWord := HasBlanks(token) || forall j :: 0 <= j < |args| ==> !Opens(args[j].spec, j, rd.closed);
    match f
    case Named(p) =>
      rd.labels && p < |args| && !args[p].spec.kind.Unlabeled() && Names(args[p].spec, token, c.delimiter)
    case ValueOf(_) => false
    case Combined =>
      && rd.labels && Nobody(args, 0, token, c.delimiter)
      && !NoEater(args, 0, token, c.delimiter) && SwitchesOnly(args, 0, token, c.delimiter)
    case Word(u) =>
      && unlabeled && !HasBlanks(token) && u < |args| && Opens(args[u].spec, u, rd.closed)
      && forall j :: 0 <= j < u ==> !Opens(args[j].spec, j, rd.closed)
    case Empty => rd.labels && unlabeled && noWord && EmptyCombined(token)
    case Skipped => !rd.labels && noWord
    case Unknown =>
      && rd.labels && Nobody(args, 0, token, c.delimiter)
      && if NoEater(args, 0, token, c.delimiter) then noWord && !EmptyCombined(token)
         else !SwitchesOnly(args, 0, token, c.delimiter)
  }

  lemma NamedByOne(args: seq<ArgState>, token: string, delimiter: char, p: nat, q: nat)
    requires WellLabeled(args, delimiter) && p < |args| && q < |args|
    requires !args[p].spec.kind.Unlabeled() && Names(args[p].spec, token, delimiter)
    requires !args[q].spec.kind.Unlabeled() && Names(args[q].spec, token, delimiter)
    ensures p == q
  {
    if p != q { NamesUnique(args[p].spec, args[q].spec, token, delimiter); }
  }

  lemma WordByOne(args: seq<ArgState>, closed: set<nat>, u: nat)
    requires u < |args| && Opens(args[u].spec, u, closed)
    requires forall j :: 0 <= j < u ==> !Opens(args[j].spec, j, closed)
    ensures FirstOpen(args, 0, closed) == u
  {
  }

  /** Exactly one fate fits a token. */
  lemma FateExact(c: Config, args: seq<ArgState>, rd: Reader, token: string, f: Fate)
    requires WellLabeled(args, c.delimiter)
    ensures Means(c, args, rd, token, f) <==> f == FateOf(c, args, rd, token)
  {
    FateMeans(c, args, rd, token);
    if Means(c, args, rd, token, f) { OneMeaning(c, args, rd, token, f); }
  }

  lemma FateMeans(c: Config, args: seq<ArgState>, rd: Reader, token: string)
    ensures Means(c, args, rd, token, FateOf(c, args, rd, token))
  {
    var e := LastEater(args, 0, token, c.delimiter);
    assert e < |args| ==> Eats(args[e].spec, token, c.delimiter);
  }

  lemma OneMeaning(c: Config, args: seq<ArgState>, rd: Reader, token: string, f: Fate)
    requires WellLabeled(args, c.delimiter) && Means(c, args, rd, token, f)
    ensures f == FateOf(c, args, rd, token)
  {
    match f
    case Named(p) => NamedByOne(args, token, c.delimiter, FirstNamed(args, 0, token, c.delimiter), p);
    case Word(u) => WordByOne(args, rd.closed, u);
    case _ =>
  }

  // Who takes the token, and is checked against the xor lists: of combined
  // switches the one that eats the last letter, if it is not a counting switch.
  ghost function Taker(args: seq<ArgState>, token: string, delimiter: char, f: Fate): (k: nat)
    requires f.Named? || f.Word? ==> f.arg < |args|
    ensures k <= |args|
  {
    match f
    case Named(p) => p
    case Word(u) => u
    case Combined => LetterTaker(args, 0, token, delimiter)
    case _ => |args|
  }

  ghost function LetterTaker(args: seq<ArgState>, k: nat, token: string, delimiter: char): (j: nat)
    requires k <= |args|
    ensures j <= |args|
  {
    var e := LastEater(args, k, token, delimiter);
    if e < |args| && args[e].spec.kind.Switch? then e else |args|
  }

  // Who takes no more words once the argument at position k has been checked.
  ghost function Shut(c: Config, args: seq<ArgState>, k: nat): set<nat>
    requires k < |args|
  {
    var g := GroupOf(c.groups, args[k].spec.id);
    set j | 0 <= j < |args| &&
      (j == k || (g < |c.groups| && args[j].spec.id in c.groups[g] && args[j].spec.id != args[k].spec.id))
  }

  ghost function NextReader(c: Config, args: seq<ArgState>, rd: Reader, token: string): Reader {
    var f := FateOf(c, args, rd, token);
    var k := Taker(args, token, c.delimiter, f);
    Reader(rd.labels && !(f.Named? && args[f.arg].spec.visitor.IgnoreRest?),
           rd.closed + if k < |args| then Shut(c, args, k) else {})
  }

  // Whether the token takes the next one as its value.
  ghost predicate WantsValue(args: seq<ArgState>, f: Fate, token: string, delimiter: char)
    requires f.Named? ==> f.arg < |args|
  {
    f.Named? && args[f.arg].spec.kind.TakesValue() && ValuePart(token, delimiter) == ""
  }

  /** The fates of all tokens of a line, one each. */
  ghost function Fates(c: Config, args: seq<ArgState>, rd: Reader, tokens: seq<string>): (fates: seq<Fate>)
    ensures |fates| == |tokens|
    decreases |tokens|
  {
    if tokens == [] then []
    else
      var f := FateOf(c, args, rd, tokens[0]);
      var rd' := NextReader(c, args, rd, tokens[0]);
      if WantsValue(args, f, tokens[0], c.delimiter) && |tokens| > 1 then
        [f, ValueOf(f.arg)] + Fates(c, args, rd', tokens[2..])
      else [f] + Fates(c, args, rd', tokens[1..])
  }

  // How often one token uses the switch at position p.
  function UsesIn(s: Spec, p: nat, f: Fate, token: string, delimiter: char): nat {
    if !IsSwitch(s.kind) then 0
    else if f == Named(p) then 1
    else if f.Combined? then Letters(s, token, delimiter) else 0
  }

  // The value or word one token gives the argument at position p.
  function GivenIn(s: Spec, p: nat, f: Fate, token: string, delimiter: char): seq<string> {
    if f == ValueOf(p) || f == Word(p) then [token]
    else if f == Named(p) && s.kind.TakesValue() && ValuePart(token, delimiter) != "" then [ValuePart(token, delimiter)]
    else []
  }

  /** How often a line uses a switch. */
  function Uses(s: Spec, p: nat, fates: seq<Fate>, tokens: seq<string>, delimiter: char): nat
    requires |fates| == |tokens|
  {
    if tokens == [] then 0
    else UsesIn(s, p, fates[0], tokens[0], delimiter) + Uses(s, p, fates[1..], tokens[1..], delimiter)
  }

  /** The values or words a line gives an argument, in order. */
  function Given(s: Spec, p: nat, fates: seq<Fate>, tokens: seq<string>, delimiter: char): seq<string>
    requires |fates| == |tokens|
  {
    if tokens == [] then []
    else GivenIn(s, p, fates[0], tokens[0], delimiter) + Given(s, p, fates[1..], tokens[1..], delimiter)
  }

  /** What an argument holds after so many uses and these values and words:
      a counting switch has counted the uses, a switch is flipped by its one use,
      and values and words are stored in order; nothing else has changed. A switch
      or an argument of one value that was set before is given nothing. Outside
      the xor lists it is set if and only if it was or has been given something. */
  ghost predicate Holds(a: ArgState, b: ArgState, uses: nat, given: seq<string>, free: bool) {
    && b.spec == a.spec
    && b.count == a.count + (if a.spec.kind.MultiSwitch? then uses else 0)
    && b.on == (if a.spec.kind.Switch? && uses > 0 then !a.on else a.on)
    && b.values == (if a.spec.kind.Collects() then a.values + given else a.values)
    && b.value == (if a.spec.kind.Collects() || given == [] then a.value else given[|given| - 1])
    && (a.spec.kind.Switch? ==> uses <= 1)
    && (a.spec.kind.Value? || a.spec.kind.UnlabeledValue? ==> |given| <= 1)
    && (a.alreadySet && (uses > 0 || given != []) ==> a.spec.kind.MultiSwitch? || a.spec.kind.Collects())
    && (a.alreadySet || uses > 0 || given != [] ==> b.alreadySet)
    && (free ==> b.xorSet == a.xorSet && (b.alreadySet ==> a.alreadySet || uses > 0 || given != []))
  }

  lemma HoldsThen(a: ArgState, m: ArgState, b: ArgState, uses: nat, given: seq<string>,
                  uses': nat, given': seq<string>, free: bool)
    requires Holds(a, m, uses, given, free) && Holds(m, b, uses', given', free)
    ensures Holds(a, b, uses + uses', given + given', free)
  {
    assert given + given' == [] <==> given == [] && given' == [];
    assert a.values + given + given' == a.values + (given + given');
    assert given' != [] ==> (given + given')[|given + given'| - 1] == given'[|given'| - 1];
    assert given' == [] ==> given + given' == given;
  }

  // The reader agrees with the parser.
  ghost predicate Tracks(rd: Reader, s: State) {
    && rd.labels == !s.ignore
    && forall j :: 0 <= j < |s.args| && s.args[j].spec.kind.UnlabeledValue? ==>
         (j in rd.closed <==> s.args[j].alreadySet)
  }

  // What the first token, and the value it takes, give the argument at position p.
  ghost function GivenFirst(s: Spec, p: nat, f: Fate, token: string, rest: seq<string>, delimiter: char): seq<string> {
    if f == Named(p) && s.kind.TakesValue() && ValuePart(token, delimiter) == "" && rest != [] then [rest[0]]
    else GivenIn(s, p, f, token, delimiter)
  }

  // What an offer leaves of an argument, before the xor lists are checked.
  ghost predicate Offers(c: Config, args: seq<ArgState>, f: Fate, token: string, rest: seq<string>, r: seq<ArgState>) {
    && |r| == |args|
    && forall j :: 0 <= j < |args| ==>
         && Holds(args[j], r[j], UsesIn(args[j].spec, j, f, token, c.delimiter),
                  GivenFirst(args[j].spec, j, f, token, rest, c.delimiter), true)
         && r[j].xorSet == args[j].xorSet
  }

  // What holds of one argument if the token is nothing to it.
  lemma HoldsStill(a: ArgState)
    ensures Holds(a, a, 0, [], true)
  {
  }

  lemma SwitchNamed(a: ArgState, delimiter: char, token: string)
    requires IsSwitch(a.spec.kind) && GoodLabel(a.spec, delimiter) && Names(a.spec, token, delimiter)
    ensures var r := Process(a, delimiter, false, token, []);
      r == Process(a, delimiter, false, token, [""])
      && (r.Went? ==> Holds(a, r.arg, 1, [], true) && r.arg.xorSet == a.xorSet)
  {
  }

  lemma ValueNamed(a: ArgState, delimiter: char, token: string, rest: seq<string>)
    requires a.spec.kind.TakesValue() && GoodLabel(a.spec, delimiter) && Names(a.spec, token, delimiter)
    ensures var r := Process(a, delimiter, false, token, rest);
      var v := ValuePart(token, delimiter);
      r.Went? ==>
        && (v == "" ==> rest != [])
        && Holds(a, r.arg, 0, [if v != "" then v else rest[0]], true) && r.arg.xorSet == a.xorSet
  {
  }

  lemma SwitchNamedAny(a: ArgState, delimiter: char, token: string, rest: seq<string>)
    requires IsSwitch(a.spec.kind)
    ensures Process(a, delimiter, false, token, rest) == Process(a, delimiter, false, token, [])
  {
  }

  lemma NamedHolds(a: ArgState, p: nat, delimiter: char, token: string, rest: seq<string>)
    requires !a.spec.kind.Unlabeled() && GoodLabel(a.spec, delimiter) && Names(a.spec, token, delimiter)
    ensures var r := Process(a, delimiter, false, token, rest);
      r.Went? ==>
        && Holds(a, r.arg, UsesIn(a.spec, p, Named(p), token, delimiter),
                 GivenFirst(a.spec, p, Named(p), token, rest, delimiter), true)
        && r.arg.xorSet == a.xorSet
  {
    if IsSwitch(a.spec.kind) {
      SwitchNamedAny(a, delimiter, token, rest);
      SwitchNamed(a, delimiter, token);
    } else {
      ValueNamed(a, delimiter, token, rest);
    }
  }

  // The offer of a token that names the argument at position p.
  lemma OfferNamed(c: Config, args: seq<ArgState>, p: nat, token: string, rest: seq<string>)
    requires WellLabeled(args, c.delimiter) && p < |args| && !args[p].spec.kind.Unlabeled()
    requires Names(args[p].spec, token, c.delimiter)
    ensures var r := Offer(c, args, false, 0, token, rest);
      r.Offered? ==>
        && Offers(c, args, Named(p), token, rest, r.args) && r.taker == p
        && r.extra == (if WantsValue(args, Named(p), token, c.delimiter) then 1 else 0)
        && r.ignore == args[p].spec.visitor.IgnoreRest?
        && (WantsValue(args, Named(p), token, c.delimiter) ==> rest != [])
  {
    R.OfferReaches(c, args, 0, p, token, rest);
    HeardBy(args[p], c.delimiter, token, rest);
    NamedHolds(args[p], p, c.delimiter, token, rest);
    ProcessFrame(args[p], c.delimiter, false, token, rest);
    forall j | 0 <= j < |args| ensures Holds(args[j], args[j], 0, [], true) { HoldsStill(args[j]); }
  }

  // A switch that eats letters of the token.
  lemma EaterHolds(a: ArgState, p: nat, delimiter: char, token: string, rest: seq<string>)
    requires Eats(a.spec, token, delimiter) && GoodLabel(a.spec, delimiter) && delimiter != BLANK
    requires !Names(a.spec, token, delimiter)
    ensures var r := Process(a, delimiter, false, token, rest);
      r.Went? ==>
        && Holds(a, r.arg, UsesIn(a.spec, p, Combined, token, delimiter), [], true) && r.arg.xorSet == a.xorSet
        && (forall i :: 1 <= i < |r.token| ==> r.token[i] != a.spec.flag[0])
  {
    SwitchNamedAny(a, delimiter, token, rest);
    if a.spec.kind.Switch? {
      SwitchEats(a, delimiter, token);
    } else {
      MultiSwitchHeard(a, delimiter, token);
    }
  }

  // A switch whose letter is in the token twice is refused.
  lemma SwitchEats(a: ArgState, delimiter: char, token: string)
    requires a.spec.kind.Switch? && Eats(a.spec, token, delimiter) && GoodLabel(a.spec, delimiter)
    requires !Names(a.spec, token, delimiter) && delimiter != BLANK
    ensures var r := ProcessSwitch(a, delimiter, false, token);
      r.Went? ==>
        && Holds(a, r.arg, Letters(a.spec, token, delimiter), [], true) && r.arg.xorSet == a.xorSet
        && (forall i :: 1 <= i < |r.token| ==> r.token[i] != a.spec.flag[0])
  {
    SwitchHeard(a, delimiter, token);
    var flag := a.spec.flag;
    var k := FirstIndex(token, flag[0], 1);
    OccurrencesUpdate(flag[0], token, k, BLANK, 1);
    EatsLetters(a.spec, token, delimiter);
    EatenLetters(a.spec, a.spec.(flag := ""), token, BlankFirst(flag[0], token), delimiter);
  }

  // What eating leaves to later arguments.
  lemma LaterLetters(args: seq<ArgState>, k: nat, token: string, token': string, delimiter: char)
    requires WellLabeled(args, delimiter) && k < |args| && Eats(args[k].spec, token, delimiter)
    requires |args[k].spec.flag| == 1 && Combines(args[k].spec.flag, token, delimiter)
    requires token' == BlankFirst(args[k].spec.flag[0], token) || token' == BlankAll(args[k].spec.flag[0], token)
    ensures forall j :: k < j < |args| ==>
      && UsesIn(args[j].spec, j, Combined, token', delimiter) == UsesIn(args[j].spec, j, Combined, token, delimiter)
      && (Eats(args[j].spec, token', delimiter) <==> Eats(args[j].spec, token, delimiter))
    ensures LastEater(args, k + 1, token', delimiter) == LastEater(args, k + 1, token, delimiter)
    ensures Combinable(token', delimiter) && HasBlanks(token')
  {
    EatsLetters(args[k].spec, token, delimiter);
    EatenNames(args[k].spec, args[k].spec, token, token', delimiter);
    EatenLetters(args[k].spec, args[k].spec.(flag := ""), token, token', delimiter);
    forall j | k < j < |args|
      ensures UsesIn(args[j].spec, j, Combined, token', delimiter)
        == UsesIn(args[j].spec, j, Combined, token, delimiter)
      ensures Eats(args[j].spec, token', delimiter) <==> Eats(args[j].spec, token, delimiter)
    {
      if IsSwitch(args[j].spec.kind) { LettersBlanked(args[k].spec, args[j].spec, token, token', delimiter); }
    }
    SameLastEater(args, args, k + 1, token, token', delimiter);
  }

  lemma {:induction false} SameLastEater(args: seq<ArgState>, args': seq<ArgState>, k: nat, token: string,
                                         token': string, delimiter: char)
    requires SameShapes(args, args') && k <= |args|
    requires forall j :: k <= j < |args| ==>
      (Eats(args'[j].spec, token', delimiter) <==> Eats(args[j].spec, token, delimiter))
    ensures LastEater(args', k, token', delimiter) == LastEater(args, k, token, delimiter)
    decreases |args| - k
  {
    if k == |args| {
    } else {
      SameLastEater(args, args', k + 1, token, token', delimiter);
    }
  }

  // A letter owned by a switch from position k on has an eater there.
  lemma OwnedEaten(args: seq<ArgState>, k: nat, token: string, i: nat, delimiter: char)
    requires Combinable(token, delimiter) && 1 <= i < |token| && OwnedFrom(args, k, token[i])
    ensures !NoEater(args, k, token, delimiter)
  {
    var j :| k <= j < |args| && IsSwitch(args[j].spec.kind) && args[j].spec.flag == [token[i]];
    assert OccursFrom(token, args[j].spec.flag[0], 1);
    assert Eats(args[j].spec, token, delimiter);
  }

  // The switches that own the letters of a token own those that are left, and
  // the other way round.
  lemma OwnersLeft(args: seq<ArgState>, k: nat, token: string, token': string, delimiter: char)
    requires k < |args| && IsSwitch(args[k].spec.kind) && |args[k].spec.flag| == 1
    requires Combinable(token, delimiter) && Combinable(token', delimiter) && Eaten(args[k].spec, token, token')
    requires args[k].spec.flag[0] != DASH
    ensures SwitchesOnly(args, k + 1, token', delimiter) ==> SwitchesOnly(args, k, token, delimiter)
    ensures SwitchesOnly(args, k, token, delimiter) && args[k].spec.flag[0] !in token'[1..] ==>
      SwitchesOnly(args, k + 1, token', delimiter)
  {
    if SwitchesOnly(args, k + 1, token', delimiter) {
      forall i | 1 <= i < |token| && token[i] != BLANK ensures OwnedFrom(args, k, token[i]) {
        if token'[i] == token[i] {
          assert OwnedFrom(args, k + 1, token'[i]);
        } else {
          assert args[k].spec.flag == [token[i]];
        }
      }
    }
    if SwitchesOnly(args, k, token, delimiter) && args[k].spec.flag[0] !in token'[1..] {
      forall i | 1 <= i < |token'| && token'[i] != BLANK ensures OwnedFrom(args, k + 1, token'[i]) {
        assert OwnedFrom(args, k, token[i]) && token'[1..][i - 1] == token'[i] == token[i];
      }
    }
  }

  // How an offer of letters from position k on ends.
  ghost predicate LettersOffered(c: Config, args: seq<ArgState>, k: nat, token: string, r: Offered)
    requires k <= |args|
  {
    r.Offered? ==>
      && |r.args| == |args| && !r.ignore && r.extra == 0
      && (forall j :: 0 <= j < k ==> r.args[j] == args[j])
      && (forall j :: k <= j < |args| ==>
            && Holds(args[j], r.args[j], UsesIn(args[j].spec, j, Combined, token, c.delimiter), [], true)
            && r.args[j].xorSet == args[j].xorSet)
      && (r.taker < |args| || EmptyCombined(r.token) <==> SwitchesOnly(args, k, token, c.delimiter))
      && (SwitchesOnly(args, k, token, c.delimiter) ==> r.taker == LetterTaker(args, k, token, c.delimiter))
      && r.taker <= |args|
  }

  // An argument without a letter in the token passes it on.
  lemma NoLetterPasses(c: Config, args: seq<ArgState>, k: nat, token: string, rest: seq<string>)
    requires WellLabeled(args, c.delimiter) && k < |args| && Nobody(args, k, token, c.delimiter)
    requires !Eats(args[k].spec, token, c.delimiter)
    requires HasBlanks(token) || LastEater(args, k, token, c.delimiter) < |args|
    ensures Process(args[k], c.delimiter, false, token, rest) == NotMine(args[k], token, false)
  {
    var a := args[k];
    if a.spec.kind.Unlabeled() {
      assert NoEater(args, k, token, c.delimiter);
    } else {
      assert !Names(a.spec, token, c.delimiter);
      LabeledPasses(a, c.delimiter, token, rest);
    }
  }

  lemma LabeledPasses(a: ArgState, delimiter: char, token: string, rest: seq<string>)
    requires !a.spec.kind.Unlabeled() && GoodLabel(a.spec, delimiter) && delimiter != BLANK
    requires !Names(a.spec, token, delimiter) && !Eats(a.spec, token, delimiter)
    ensures Process(a, delimiter, false, token, rest) == NotMine(a, token, false)
  {
    if a.spec.kind.TakesValue() {
      assert Process(a, delimiter, false, token, rest) == ProcessValue(a, delimiter, false, token, rest);
    } else {
      C.StrangerPasses(a, delimiter, token, rest);
    }
  }

  lemma PassedOn(c: Config, args: seq<ArgState>, ignore: bool, k: nat, token: string, rest: seq<string>)
    requires k < |args| && Process(args[k], c.delimiter, ignore, token, rest) == NotMine(args[k], token, ignore)
    ensures Offer(c, args, ignore, k, token, rest) == Offer(c, args, ignore, k + 1, token, rest)
  {
    assert args[k := args[k]] == args;
  }

  lemma LettersPassed(c: Config, args: seq<ArgState>, k: nat, token: string, r: Offered)
    requires k < |args| && !Eats(args[k].spec, token, c.delimiter)
    requires LettersOffered(c, args, k + 1, token, r) && Combinable(token, c.delimiter)
    ensures LettersOffered(c, args, k, token, r)
  {
    HoldsStill(args[k]);
    forall i | 1 <= i < |token| && token[i] != BLANK
      ensures OwnedFrom(args, k, token[i]) <==> OwnedFrom(args, k + 1, token[i])
    {
      if OwnedFrom(args, k, token[i]) {
        assert OccursFrom(token, token[i], 1);
      }
    }
    assert SwitchesOnly(args, k, token, c.delimiter) <==> SwitchesOnly(args, k + 1, token, c.delimiter);
  }

  // Nobody has a letter in a token that is used up.
  lemma NobodyLater(args: seq<ArgState>, k: nat, token: string, token': string, delimiter: char)
    requires WellLabeled(args, delimiter) && k < |args| && AllBlank(token')
    requires forall j :: k < j < |args| ==> (Eats(args[j].spec, token', delimiter) <==>
      Eats(args[j].spec, token, delimiter))
    ensures forall j :: k < j < |args| ==> !Eats(args[j].spec, token, delimiter)
  {
    forall j | k < j < |args| ensures !Eats(args[j].spec, token', delimiter) {
      if !args[j].spec.kind.Unlabeled() { AllBlankUnused(args[j].spec, token', delimiter); }
    }
  }

  // A token that is used up held letters of switches only.
  lemma UsedUp(args: seq<ArgState>, k: nat, token: string, token': string, delimiter: char)
    requires WellLabeled(args, delimiter) && k < |args| && Eats(args[k].spec, token, delimiter)
    requires |args[k].spec.flag| == 1 && Combines(args[k].spec.flag, token, delimiter)
    requires args[k].spec.kind.Switch? && token' == BlankFirst(args[k].spec.flag[0], token) && AllBlank(token')
    ensures SwitchesOnly(args, k, token, delimiter) && LetterTaker(args, k, token, delimiter) == k
    ensures forall j :: k < j < |args| ==> !Eats(args[j].spec, token, delimiter)
  {
    LaterLetters(args, k, token, token', delimiter);
    NobodyLater(args, k, token, token', delimiter);
    EatsLetters(args[k].spec, token, delimiter);
    OwnersLeft(args, k, token, token', delimiter);
    assert LastEater(args, k + 1, token, delimiter) == |args|;
  }

  // The switch that eats the last letter takes the token.
  lemma LettersTaken(c: Config, args: seq<ArgState>, k: nat, token: string, r: Outcome)
    requires WellLabeled(args, c.delimiter) && k < |args| && Eats(args[k].spec, token, c.delimiter)
    requires |args[k].spec.flag| == 1 && Combines(args[k].spec.flag, token, c.delimiter)
    requires args[k].spec.kind.Switch? && r.Went? && r.token == BlankFirst(args[k].spec.flag[0], token)
    requires AllBlank(r.token) && !r.ignore && r.extra == 0
    requires Holds(args[k], r.arg, UsesIn(args[k].spec, k, Combined, token, c.delimiter), [], true)
    requires r.arg.xorSet == args[k].xorSet
    ensures LettersOffered(c, args, k, token, Offered(args[k := r.arg], r.token, false, k, 0))
  {
    UsedUp(args, k, token, r.token, c.delimiter);
    forall j | k < j < |args| ensures Holds(args[j], args[j], 0, [], true) { HoldsStill(args[j]); }
  }

  // A switch that leaves letters over, or a counting switch, passes the rest on.
  lemma LettersOver(c: Config, args: seq<ArgState>, k: nat, token: string, p: Outcome, r: Offered)
    requires WellLabeled(args, c.delimiter) && k < |args| && Eats(args[k].spec, token, c.delimiter)
    requires |args[k].spec.flag| == 1 && Combines(args[k].spec.flag, token, c.delimiter)
    requires p.Went?
    requires p.token == BlankFirst(args[k].spec.flag[0], token) || p.token == BlankAll(args[k].spec.flag[0], token)
    requires args[k].spec.kind.Switch? ==> !AllBlank(p.token)
    requires forall i :: 1 <= i < |p.token| ==> p.token[i] != args[k].spec.flag[0]
    requires Holds(args[k], p.arg, UsesIn(args[k].spec, k, Combined, token, c.delimiter), [], true)
    requires p.arg.xorSet == args[k].xorSet
    requires LettersOffered(c, args[k := p.arg], k + 1, p.token, r)
    ensures LettersOffered(c, args, k, token, r)
  {
    LaterLetters(args, k, token, p.token, c.delimiter);
    OverTaken(c, args, k, token, p, r);
  }

  // Who takes what is left, if anybody does.
  lemma OverTaken(c: Config, args: seq<ArgState>, k: nat, token: string, p: Outcome, r: Offered)
    requires WellLabeled(args, c.delimiter) && k < |args| && Eats(args[k].spec, token, c.delimiter)
    requires |args[k].spec.flag| == 1 && Combines(args[k].spec.flag, token, c.delimiter)
    requires p.Went?
    requires p.token == BlankFirst(args[k].spec.flag[0], token) || p.token == BlankAll(args[k].spec.flag[0], token)
    requires args[k].spec.kind.Switch? ==> !AllBlank(p.token)
    requires forall i :: 1 <= i < |p.token| ==> p.token[i] != args[k].spec.flag[0]
    requires p.arg.spec == args[k].spec
    ensures var args' := args[k := p.arg];
      && (SwitchesOnly(args', k + 1, p.token, c.delimiter) <==> SwitchesOnly(args, k, token, c.delimiter))
      && (SwitchesOnly(args, k, token, c.delimiter) ==>
            LetterTaker(args', k + 1, p.token, c.delimiter) == LetterTaker(args, k, token, c.delimiter))
  {
    TakerOver(args, k, token, p.token, c.delimiter);
    SameSwitches(args, args[k := p.arg], k + 1, p.token, c.delimiter);
    SameTaker(args, args[k := p.arg], k + 1, p.token, c.delimiter);
  }

  lemma TakerOver(args: seq<ArgState>, k: nat, token: string, token': string, delimiter: char)
    requires WellLabeled(args, delimiter) && k < |args| && Eats(args[k].spec, token, delimiter)
    requires |args[k].spec.flag| == 1 && Combines(args[k].spec.flag, token, delimiter)
    requires token' == BlankFirst(args[k].spec.flag[0], token) || token' == BlankAll(args[k].spec.flag[0], token)
    requires args[k].spec.kind.Switch? ==> !AllBlank(token')
    requires forall i :: 1 <= i < |token'| ==> token'[i] != args[k].spec.flag[0]
    ensures SwitchesOnly(args, k + 1, token', delimiter) <==> SwitchesOnly(args, k, token, delimiter)
    ensures SwitchesOnly(args, k, token, delimiter) ==>
      LetterTaker(args, k + 1, token', delimiter) == LetterTaker(args, k, token, delimiter)
  {
    LaterLetters(args, k, token, token', delimiter);
    SwitchesLeft(args, k, token, token', delimiter);
    if SwitchesOnly(args, k, token, delimiter) { TakerLeft(args, k, token, token', delimiter); }
  }

  // What is left consists of letters of switches exactly if the whole does.
  lemma SwitchesLeft(args: seq<ArgState>, k: nat, token: string, token': string, delimiter: char)
    requires k < |args| && Eats(args[k].spec, token, delimiter) && |args[k].spec.flag| == 1
    requires Combines(args[k].spec.flag, token, delimiter) && Combinable(token', delimiter)
    requires token' == BlankFirst(args[k].spec.flag[0], token) || token' == BlankAll(args[k].spec.flag[0], token)
    requires forall i :: 1 <= i < |token'| ==> token'[i] != args[k].spec.flag[0]
    ensures SwitchesOnly(args, k + 1, token', delimiter) <==> SwitchesOnly(args, k, token, delimiter)
  {
    EatsLetters(args[k].spec, token, delimiter);
    OwnersLeft(args, k, token, token', delimiter);
  }

  lemma SameTaker(args: seq<ArgState>, args': seq<ArgState>, k: nat, token: string, delimiter: char)
    requires SameShapes(args, args') && k <= |args|
    ensures LetterTaker(args', k, token, delimiter) == LetterTaker(args, k, token, delimiter)
  {
    SameLastEater(args, args', k, token, token, delimiter);
  }

  lemma TakerLeft(args: seq<ArgState>, k: nat, token: string, token': string, delimiter: char)
    requires k < |args| && Eats(args[k].spec, token, delimiter)
    requires LastEater(args, k + 1, token', delimiter) == LastEater(args, k + 1, token, delimiter)
    requires SwitchesOnly(args, k + 1, token', delimiter) && (args[k].spec.kind.Switch? ==> !AllBlank(token'))
    ensures LetterTaker(args, k + 1, token', delimiter) == LetterTaker(args, k, token, delimiter)
  {
    if !AllBlank(token') {
      var i :| 1 <= i < |token'| && token'[i] != BLANK;
      OwnedEaten(args, k + 1, token', i, delimiter);
      assert LastEater(args, k + 1, token', delimiter) < |args|;
    }
  }

  lemma SameSwitches(args: seq<ArgState>, args': seq<ArgState>, k: nat, token: string, delimiter: char)
    requires SameShapes(args, args')
    ensures SwitchesOnly(args', k, token, delimiter) <==> SwitchesOnly(args, k, token, delimiter)
  {
    forall letter: char ensures OwnedFrom(args, k, letter) <==> OwnedFrom(args', k, letter) {
      if OwnedFrom(args, k, letter) {
        var j :| k <= j < |args| && IsSwitch(args[j].spec.kind) && args[j].spec.flag == [letter];
        assert args'[j].spec == args[j].spec;
      }
      if OwnedFrom(args', k, letter) {
        var j :| k <= j < |args'| && IsSwitch(args'[j].spec.kind) && args'[j].spec.flag == [letter];
        assert args'[j].spec == args[j].spec;
      }
    }
  }

  /** The offer of a token with letters of switches in it, or what is left of one. */
  lemma {:induction false} OfferLetters(c: Config, args: seq<ArgState>, k: nat, token: string, rest: seq<string>)
    requires WellLabeled(args, c.delimiter) && k <= |args|
    requires Nobody(args, k, token, c.delimiter) && Combinable(token, c.delimiter)
    requires HasBlanks(token) || LastEater(args, k, token, c.delimiter) < |args|
    ensures LettersOffered(c, args, k, token, Offer(c, args, false, k, token, rest))
    decreases |args| - k
  {
    if k == |args| {
    } else if !Eats(args[k].spec, token, c.delimiter) {
      OfferLetters(c, args, k + 1, token, rest);
      LetterlessOffered(c, args, k, token, rest);
    } else {
      EaterLeaves(c, args, k, token, rest);
      var p := Process(args[k], c.delimiter, false, token, rest);
      if p.Went? && !p.matched { OfferLetters(c, args[k := p.arg], k + 1, p.token, rest); }
      EaterOffered(c, args, k, token, rest);
    }
  }

  // What is left to those after an eater can be offered to them.
  lemma EaterLeaves(c: Config, args: seq<ArgState>, k: nat, token: string, rest: seq<string>)
    requires WellLabeled(args, c.delimiter) && k < |args| && Eats(args[k].spec, token, c.delimiter)
    requires Nobody(args, k, token, c.delimiter)
    ensures var p := Process(args[k], c.delimiter, false, token, rest);
      p.Went? ==>
        && WellLabeled(args[k := p.arg], c.delimiter) && Nobody(args[k := p.arg], k + 1, p.token, c.delimiter)
        && Combinable(p.token, c.delimiter) && HasBlanks(p.token)
  {
    EaterEats(c, args, k, token, rest);
    var p := Process(args[k], c.delimiter, false, token, rest);
    if p.Went? {
      WellLabeledKept(args, args[k := p.arg], c.delimiter);
      EatenNobody(args, k, token, p.token, c.delimiter);
      LaterLetters(args, k, token, p.token, c.delimiter);
    }
  }

  // An argument without a letter in the token, when those after it are offered it.
  lemma LetterlessOffered(c: Config, args: seq<ArgState>, k: nat, token: string, rest: seq<string>)
    requires WellLabeled(args, c.delimiter) && k < |args| && Nobody(args, k, token, c.delimiter)
    requires !Eats(args[k].spec, token, c.delimiter) && Combinable(token, c.delimiter)
    requires HasBlanks(token) || LastEater(args, k, token, c.delimiter) < |args|
    requires LettersOffered(c, args, k + 1, token, Offer(c, args, false, k + 1, token, rest))
    ensures LettersOffered(c, args, k, token, Offer(c, args, false, k, token, rest))
  {
    NoLetterPasses(c, args, k, token, rest);
    PassedOn(c, args, false, k, token, rest);
    LettersPassed(c, args, k, token, Offer(c, args, false, k + 1, token, rest));
  }

  // What an eater that goes on leaves.
  lemma EaterEats(c: Config, args: seq<ArgState>, k: nat, token: string, rest: seq<string>)
    requires WellLabeled(args, c.delimiter) && k < |args| && Eats(args[k].spec, token, c.delimiter)
    requires Nobody(args, k, token, c.delimiter)
    ensures var r := Process(args[k], c.delimiter, false, token, rest);
      r.Went? ==>
        && r.arg.spec == args[k].spec && r.arg.xorSet == args[k].xorSet && r.arg.alreadySet && !r.ignore
        && |args[k].spec.flag| == 1 && Combines(args[k].spec.flag, token, c.delimiter)
        && (r.token == BlankFirst(args[k].spec.flag[0], token) || r.token == BlankAll(args[k].spec.flag[0], token))
        && (r.matched ==> AllBlank(r.token))
  {
    HeardBy(args[k], c.delimiter, token, rest);
    EaterHolds(args[k], k, c.delimiter, token, rest);
  }

  // An eater, when those after it are offered what it leaves.
  lemma EaterOffered(c: Config, args: seq<ArgState>, k: nat, token: string, rest: seq<string>)
    requires WellLabeled(args, c.delimiter) && k < |args| && Eats(args[k].spec, token, c.delimiter)
    requires Nobody(args, k, token, c.delimiter)
    requires var p := Process(args[k], c.delimiter, false, token, rest);
      p.Went? && !p.matched ==>
        LettersOffered(c, args[k := p.arg], k + 1, p.token, Offer(c, args[k := p.arg], false, k + 1, p.token, rest))
    ensures LettersOffered(c, args, k, token, Offer(c, args, false, k, token, rest))
  {
    HeardBy(args[k], c.delimiter, token, rest);
    EaterHolds(args[k], k, c.delimiter, token, rest);
    var p := Process(args[k], c.delimiter, false, token, rest);
    if p.Went? && p.matched {
      LettersTaken(c, args, k, token, p);
    } else if p.Went? {
      LettersOver(c, args, k, token, p, Offer(c, args[k := p.arg], false, k + 1, p.token, rest));
    }
  }

  // No labeled argument does anything with the token.
  ghost predicate Quiet(c: Config, args: seq<ArgState>, ignore: bool, token: string, rest: seq<string>) {
    forall j :: 0 <= j < |args| && !args[j].spec.kind.Unlabeled() ==>
      Process(args[j], c.delimiter, ignore, token, rest) == NotMine(args[j], token, ignore)
  }

  // The first unlabeled argument from position k on that accepts the token.
  function FirstAccepting(args: seq<ArgState>, k: nat, token: string): (j: nat)
    requires k <= |args|
    ensures k <= j <= |args|
    decreases |args| - k
  {
    if k == |args| then k
    else if args[k].spec.kind.Unlabeled() && !HasBlanks(token)
            && !(args[k].spec.kind.UnlabeledValue? && args[k].alreadySet) then k
    else FirstAccepting(args, k + 1, token)
  }

  lemma {:induction false} OfferWord(c: Config, args: seq<ArgState>, ignore: bool, k: nat, token: string,
                                     rest: seq<string>)
    requires k <= |args| && Quiet(c, args, ignore, token, rest)
    ensures var u := FirstAccepting(args, k, token);
      Offer(c, args, ignore, k, token, rest)
      == Offered(if u < |args| then args[u := Store(args[u], token)] else args, token, ignore, u, 0)
    decreases |args| - k
  {
    if k == |args| {
    } else if FirstAccepting(args, k, token) == k {
    } else {
      PassedOn(c, args, ignore, k, token, rest);
      OfferWord(c, args, ignore, k + 1, token, rest);
    }
  }

  lemma {:induction false} AcceptingOpen(args: seq<ArgState>, k: nat, closed: set<nat>, token: string)
    requires k <= |args|
    requires forall j :: 0 <= j < |args| && args[j].spec.kind.UnlabeledValue? ==> (j in closed <==> args[j].alreadySet)
    ensures FirstAccepting(args, k, token) == if HasBlanks(token) then |args| else FirstOpen(args, k, closed)
    decreases |args| - k
  {
    if k == |args| {
    } else {
      AcceptingOpen(args, k + 1, closed, token);
    }
  }

  lemma WordHolds(a: ArgState, p: nat, token: string, delimiter: char)
    requires a.spec.kind.Unlabeled() && (a.spec.kind.UnlabeledValue? ==> !a.alreadySet)
    ensures Holds(a, Store(a, token), UsesIn(a.spec, p, Word(p), token, delimiter), [token], true)
  {
  }

  // The offer of a token that no label speaks to.
  lemma OfferUnlabeled(c: Config, s: State, rd: Reader, token: string, rest: seq<string>)
    requires WellLabeled(s.args, c.delimiter) && Tracks(rd, s) && Quiet(c, s.args, s.ignore, token, rest)
    ensures var u := WordTaker(s.args, rd.closed, token);
      var r := Offer(c, s.args, s.ignore, 0, token, rest);
      && r.Offered? && r.taker == u && r.token == token && r.extra == 0 && r.ignore == s.ignore
      && (u < |s.args| ==> Offers(c, s.args, Word(u), token, rest, r.args))
      && (u == |s.args| ==> r.args == s.args)
  {
    OfferWord(c, s.args, s.ignore, 0, token, rest);
    AcceptingOpen(s.args, 0, rd.closed, token);
    var u := WordTaker(s.args, rd.closed, token);
    if u < |s.args| { WordHolds(s.args[u], u, token, c.delimiter); }
    forall j | 0 <= j < |s.args| ensures Holds(s.args[j], s.args[j], 0, [], true) { HoldsStill(s.args[j]); }
  }

  lemma QuietLabels(c: Config, s: State, rd: Reader, token: string, rest: seq<string>)
    requires WellLabeled(s.args, c.delimiter) && Tracks(rd, s)
    requires rd.labels ==> Nobody(s.args, 0, token, c.delimiter) && NoEater(s.args, 0, token, c.delimiter)
    ensures Quiet(c, s.args, s.ignore, token, rest)
  {
    forall j | 0 <= j < |s.args| && !s.args[j].spec.kind.Unlabeled()
      ensures Process(s.args[j], c.delimiter, s.ignore, token, rest) == NotMine(s.args[j], token, s.ignore)
    {
      if rd.labels { LabeledPasses(s.args[j], c.delimiter, token, rest); }
    }
  }

  // An offer does with the token what its fate says.
  ghost predicate Fulfilled(c: Config, s: State, rd: Reader, token: string, rest: seq<string>, r: Offered) {
    var f := FateOf(c, s.args, rd, token);
    r.Offered? ==>
      && r.taker <= |s.args| == |r.args|
      && ((r.taker < |s.args| || EmptyCombined(r.token) || r.ignore) <==> !f.Unknown?)
      && (!f.Unknown? ==>
            && Offers(c, s.args, f, token, rest, r.args)
            && r.taker == Taker(s.args, token, c.delimiter, f)
            && r.extra == (if WantsValue(s.args, f, token, c.delimiter) then 1 else 0)
            && (WantsValue(s.args, f, token, c.delimiter) ==> rest != [])
            && r.ignore == !NextReader(c, s.args, rd, token).labels)
  }

  lemma NamedFulfills(c: Config, s: State, rd: Reader, token: string, rest: seq<string>)
    requires WellLabeled(s.args, c.delimiter) && Tracks(rd, s)
    requires rd.labels && FirstNamed(s.args, 0, token, c.delimiter) < |s.args|
    ensures Fulfilled(c, s, rd, token, rest, Offer(c, s.args, s.ignore, 0, token, rest))
  {
    var p := FirstNamed(s.args, 0, token, c.delimiter);
    assert FateOf(c, s.args, rd, token) == Named(p);
    OfferNamed(c, s.args, p, token, rest);
  }

  lemma LettersFulfill(c: Config, s: State, rd: Reader, token: string, rest: seq<string>)
    requires WellLabeled(s.args, c.delimiter) && Tracks(rd, s)
    requires rd.labels && FirstNamed(s.args, 0, token, c.delimiter) == |s.args|
    requires LastEater(s.args, 0, token, c.delimiter) < |s.args|
    ensures Fulfilled(c, s, rd, token, rest, Offer(c, s.args, s.ignore, 0, token, rest))
  {
    OfferLetters(c, s.args, 0, token, rest);
    LettersDone(c, s, rd, token, rest, Offer(c, s.args, s.ignore, 0, token, rest));
  }

  lemma LettersDone(c: Config, s: State, rd: Reader, token: string, rest: seq<string>, r: Offered)
    requires FateOf(c, s.args, rd, token)
          == if SwitchesOnly(s.args, 0, token, c.delimiter) then Combined else Unknown
    requires LettersOffered(c, s.args, 0, token, r) && rd.labels
    ensures Fulfilled(c, s, rd, token, rest, r)
  {
  }

  lemma RestFulfills(c: Config, s: State, rd: Reader, token: string, rest: seq<string>)
    requires WellLabeled(s.args, c.delimiter) && Tracks(rd, s)
    requires rd.labels ==>
      FirstNamed(s.args, 0, token, c.delimiter) == LastEater(s.args, 0, token, c.delimiter) == |s.args|
    ensures Fulfilled(c, s, rd, token, rest, Offer(c, s.args, s.ignore, 0, token, rest))
  {
    QuietLabels(c, s, rd, token, rest);
    OfferUnlabeled(c, s, rd, token, rest);
    var u := WordTaker(s.args, rd.closed, token);
    if u < |s.args| {
      assert FateOf(c, s.args, rd, token) == Word(u);
    } else {
      var f := FateOf(c, s.args, rd, token);
      assert f == if !rd.labels then Skipped else if EmptyCombined(token) then Empty else Unknown;
      forall j | 0 <= j < |s.args| ensures Holds(s.args[j], s.args[j], 0, [], true) { HoldsStill(s.args[j]); }
      assert Offers(c, s.args, f, token, rest, s.args);
    }
  }

  lemma OfferFulfills(c: Config, s: State, rd: Reader, token: string, rest: seq<string>)
    requires WellLabeled(s.args, c.delimiter) && Tracks(rd, s)
    ensures Fulfilled(c, s, rd, token, rest, Offer(c, s.args, s.ignore, 0, token, rest))
  {
    if rd.labels && FirstNamed(s.args, 0, token, c.delimiter) < |s.args| {
      NamedFulfills(c, s, rd, token, rest);
    } else if rd.labels && LastEater(s.args, 0, token, c.delimiter) < |s.args| {
      LettersFulfill(c, s, rd, token, rest);
    } else {
      RestFulfills(c, s, rd, token, rest);
    }
  }

  // Checking the taker changes marks only: others of its list are set and barred.
  lemma CheckHolds(c: Config, args: seq<ArgState>, mid: seq<ArgState>, k: nat, f: Fate, token: string,
                   rest: seq<string>, j: nat)
    requires Offers(c, args, f, token, rest, mid) && k < |mid| && j < |args|
    ensures var r := Check(c.groups, mid, k);
      r.Counted? ==>
        |r.args| == |mid| &&
        Holds(args[j], r.args[j], UsesIn(args[j].spec, j, f, token, c.delimiter),
              GivenFirst(args[j].spec, j, f, token, rest, c.delimiter), R.Free(c, args, j))
  {
    assert Holds(args[j], mid[j], UsesIn(args[j].spec, j, f, token, c.delimiter),
                 GivenFirst(args[j].spec, j, f, token, rest, c.delimiter), true);
  }

  lemma OffersHolds(c: Config, args: seq<ArgState>, mid: seq<ArgState>, f: Fate, token: string, rest: seq<string>,
                    j: nat)
    requires Offers(c, args, f, token, rest, mid) && j < |args|
    ensures Holds(args[j], mid[j], UsesIn(args[j].spec, j, f, token, c.delimiter),
                  GivenFirst(args[j].spec, j, f, token, rest, c.delimiter), R.Free(c, args, j))
  {
  }

  // The reader closes what the check closes.
  lemma CheckTracks(c: Config, args: seq<ArgState>, mid: seq<ArgState>, rd: Reader, k: nat, f: Fate,
                    token: string, rest: seq<string>, j: nat)
    requires Offers(c, args, f, token, rest, mid) && k < |args| && j < |args|
    requires f == FateOf(c, args, rd, token) && k == Taker(args, token, c.delimiter, f)
    requires args[j].spec.kind.UnlabeledValue? && (j in rd.closed <==> args[j].alreadySet)
    ensures var r := Check(c.groups, mid, k);
      r.Counted? ==> |r.args| == |mid| && (j in rd.closed + Shut(c, args, k) <==> r.args[j].alreadySet)
  {
    OffersHolds(c, args, mid, f, token, rest, j);
    assert mid[j].spec == args[j].spec && mid[k].spec == args[k].spec;
  }

  // What one turn does to the argument at position p.
  ghost predicate Turned(c: Config, s: State, f: Fate, token: string, rest: seq<string>, s': State, p: nat)
    requires p < |s.args| == |s'.args|
  {
    Holds(s.args[p], s'.args[p], UsesIn(s.args[p].spec, p, f, token, c.delimiter),
          GivenFirst(s.args[p].spec, p, f, token, rest, c.delimiter), R.Free(c, s.args, p))
  }

  /** One turn of the parser does what the fate of the token says, and the reader
      keeps agreeing with it. */
  lemma StepFates(c: Config, s: State, rd: Reader, token: string, rest: seq<string>)
    requires WellLabeled(s.args, c.delimiter) && Tracks(rd, s)
    ensures var r := Step(c, s, token, rest);
      var f := FateOf(c, s.args, rd, token);
      r.Next? ==>
        && !f.Unknown? && Tracks(NextReader(c, s.args, rd, token), r.state)
        && r.extra == (if WantsValue(s.args, f, token, c.delimiter) then 1 else 0)
        && (WantsValue(s.args, f, token, c.delimiter) ==> rest != [])
        && forall p :: 0 <= p < |s.args| ==> Turned(c, s, f, token, rest, r.state, p)
  {
    OfferFulfills(c, s, rd, token, rest);
    OfferFrame(c, s.args, s.ignore, 0, token, rest);
    var o := Offer(c, s.args, s.ignore, 0, token, rest);
    var f := FateOf(c, s.args, rd, token);
    var r := Step(c, s, token, rest);
    if r.Next? {
      forall p | 0 <= p < |s.args| ensures Turned(c, s, f, token, rest, r.state, p) {
        if o.taker < |s.args| {
          CheckHolds(c, s.args, o.args, o.taker, f, token, rest, p);
        } else {
          OffersHolds(c, s.args, o.args, f, token, rest, p);
        }
      }
      forall j | 0 <= j < |s.args| && s.args[j].spec.kind.UnlabeledValue?
        ensures j in NextReader(c, s.args, rd, token).closed <==> r.state.args[j].alreadySet
      {
        if o.taker < |s.args| {
          CheckTracks(c, s.args, o.args, rd, o.taker, f, token, rest, j);
        } else {
          NoWordTaken(c, s.args, rd, f, token, rest, j);
          OffersHolds(c, s.args, o.args, f, token, rest, j);
        }
      }
    }
  }

  // Without a taker nobody is given a word.
  lemma NoWordTaken(c: Config, args: seq<ArgState>, rd: Reader, f: Fate, token: string, rest: seq<string>, j: nat)
    requires f == FateOf(c, args, rd, token) && Taker(args, token, c.delimiter, f) == |args|
    requires j < |args| && args[j].spec.kind.UnlabeledValue?
    ensures UsesIn(args[j].spec, j, f, token, c.delimiter) == 0
    ensures GivenFirst(args[j].spec, j, f, token, rest, c.delimiter) == []
  {
  }

  /** "Couldn't find match" means what it says: a turn that goes on has met a
      token that means something, and the message is given only for one that
      means nothing; a token with no letters of switches in it that means nothing
      is always refused with it. */
  lemma NoMatchExact(c: Config, s: State, rd: Reader, token: string, rest: seq<string>)
    requires WellLabeled(s.args, c.delimiter) && Tracks(rd, s)
    ensures var r := Step(c, s, token, rest);
      var f := FateOf(c, s.args, rd, token);
      && (r.Next? ==> !f.Unknown?)
      && (r.Stop? && r.error.NoMatch? ==> f.Unknown?)
      && (f.Unknown? && NoEater(s.args, 0, token, c.delimiter) ==> r == Stop(NoMatch(token)))
  {
    StepFates(c, s, rd, token, rest);
    NoMatchUnknown(c, s, rd, token, rest);
    if FateOf(c, s.args, rd, token).Unknown? && NoEater(s.args, 0, token, c.delimiter) {
      UnknownRefused(c, s, rd, token, rest);
    }
  }

  lemma NoMatchUnknown(c: Config, s: State, rd: Reader, token: string, rest: seq<string>)
    requires WellLabeled(s.args, c.delimiter) && Tracks(rd, s)
    ensures var r := Step(c, s, token, rest);
      r.Stop? && r.error.NoMatch? ==> FateOf(c, s.args, rd, token).Unknown?
  {
    OfferFulfills(c, s, rd, token, rest);
    NoMatchOffered(c, s, token, rest);
  }

  // Without a match the token was offered to all, and nobody took it.
  lemma NoMatchOffered(c: Config, s: State, token: string, rest: seq<string>)
    ensures var r := Step(c, s, token, rest);
      var o := Offer(c, s.args, s.ignore, 0, token, rest);
      r.Stop? && r.error.NoMatch? ==>
        o.Offered? && o.taker >= |o.args| && !EmptyCombined(o.token) && !o.ignore
  {
    OfferFrame(c, s.args, s.ignore, 0, token, rest);
    OfferNeverMissing(c, s.args, s.ignore, 0, token, rest);
  }

  lemma UnknownRefused(c: Config, s: State, rd: Reader, token: string, rest: seq<string>)
    requires WellLabeled(s.args, c.delimiter) && Tracks(rd, s)
    requires FateOf(c, s.args, rd, token).Unknown? && NoEater(s.args, 0, token, c.delimiter)
    ensures Step(c, s, token, rest) == Stop(NoMatch(token))
  {
    FateMeans(c, s.args, rd, token);
    QuietLabels(c, s, rd, token, rest);
    OfferUnlabeled(c, s, rd, token, rest);
  }

  lemma ProcessNeverMissing(a: ArgState, delimiter: char, ignore: bool, token: string, rest: seq<string>)
    ensures var r := Process(a, delimiter, ignore, token, rest);
            r.Failed? ==> !r.error.NoMatch?
  {
  }

  lemma {:induction false} OfferNeverMissing(c: Config, args: seq<ArgState>, ignore: bool, k: nat, token: string,
                                             rest: seq<string>)
    requires k <= |args|
    ensures var r := Offer(c, args, ignore, k, token, rest);
            r.Refused? ==> !r.error.NoMatch?
    decreases |args| - k
  {
    if k == |args| {
    } else {
      ProcessNeverMissing(args[k], c.delimiter, ignore, token, rest);
      var r := Process(args[k], c.delimiter, ignore, token, rest);
      if r.Went? && !r.matched { OfferNeverMissing(c, args[k := r.arg], r.ignore, k + 1, r.token, rest); }
    }
  }

  // Fates depend on the specifications alone.
  lemma {:induction false} FirstsKept(args: seq<ArgState>, args': seq<ArgState>, k: nat, token: string,
                                      delimiter: char, closed: set<nat>)
    requires SameShapes(args, args') && k <= |args|
    ensures FirstNamed(args', k, token, delimiter) == FirstNamed(args, k, token, delimiter)
    ensures LastEater(args', k, token, delimiter) == LastEater(args, k, token, delimiter)
    ensures FirstOpen(args', k, closed) == FirstOpen(args, k, closed)
    decreases |args| - k
  {
    if k == |args| {
    } else {
      FirstsKept(args, args', k + 1, token, delimiter, closed);
    }
  }

  lemma ShutKept(c: Config, args: seq<ArgState>, args': seq<ArgState>, k: nat)
    requires SameShapes(args, args') && k < |args|
    ensures Shut(c, args', k) == Shut(c, args, k)
  {
  }

  lemma FateKept(c: Config, args: seq<ArgState>, args': seq<ArgState>, rd: Reader, token: string)
    requires SameShapes(args, args')
    ensures FateOf(c, args', rd, token) == FateOf(c, args, rd, token)
    ensures NextReader(c, args', rd, token) == NextReader(c, args, rd, token)
  {
    FirstsKept(args, args', 0, token, c.delimiter, rd.closed);
    SameSwitches(args, args', 0, token, c.delimiter);
    var k := Taker(args, token, c.delimiter, FateOf(c, args, rd, token));
    if k < |args| { ShutKept(c, args, args', k); }
  }

  lemma {:induction false} FatesKept(c: Config, args: seq<ArgState>, args': seq<ArgState>, rd: Reader,
                                     tokens: seq<string>)
    requires SameShapes(args, args')
    ensures Fates(c, args', rd, tokens) == Fates(c, args, rd, tokens)
    decreases |tokens|
  {
    if tokens == [] {
    } else {
      FateKept(c, args, args', rd, tokens[0]);
      var rd' := NextReader(c, args, rd, tokens[0]);
      FatesKept(c, args, args', rd', tokens[1..]);
      if |tokens| > 1 { FatesKept(c, args, args', rd', tokens[2..]); }
    }
  }

  // How many tokens the next turn takes.
  ghost function TurnLength(c: Config, args: seq<ArgState>, rd: Reader, tokens: seq<string>): (n: nat)
    requires tokens != []
    ensures 1 <= n <= |tokens|
  {
    if WantsValue(args, FateOf(c, args, rd, tokens[0]), tokens[0], c.delimiter) && |tokens| > 1 then 2 else 1
  }

  lemma FatesTurn(c: Config, args: seq<ArgState>, rd: Reader, tokens: seq<string>)
    requires tokens != []
    ensures var f, n := FateOf(c, args, rd, tokens[0]), TurnLength(c, args, rd, tokens);
      var fates := Fates(c, args, rd, tokens);
      && fates[n..] == Fates(c, args, NextReader(c, args, rd, tokens[0]), tokens[n..])
      && fates[0] == f && (n == 2 ==> fates[1] == ValueOf(f.arg) && fates[1..][1..] == fates[2..])
  {
    var fates := Fates(c, args, rd, tokens);
    if TurnLength(c, args, rd, tokens) == 2 { assert fates[1..][1..] == fates[2..]; }
  }

  // What a line gives is what its first turn gives and then the rest.
  lemma FirstTurn(c: Config, args: seq<ArgState>, rd: Reader, tokens: seq<string>, s: Spec, p: nat)
    requires tokens != []
    ensures var f, n := FateOf(c, args, rd, tokens[0]), TurnLength(c, args, rd, tokens);
      var fates := Fates(c, args, rd, tokens);
      && Uses(s, p, fates, tokens, c.delimiter)
         == UsesIn(s, p, f, tokens[0], c.delimiter) + Uses(s, p, fates[n..], tokens[n..], c.delimiter)
      && ((f.Named? ==> s == args[f.arg].spec || p != f.arg) ==>
            Given(s, p, fates, tokens, c.delimiter)
            == GivenFirst(s, p, f, tokens[0], tokens[1..], c.delimiter)
              + Given(s, p, fates[n..], tokens[n..], c.delimiter))
  {
    var f, n := FateOf(c, args, rd, tokens[0]), TurnLength(c, args, rd, tokens);
    var fates := Fates(c, args, rd, tokens);
    FatesTurn(c, args, rd, tokens);
    if n == 2 {
      assert tokens[1..][1..] == tokens[2..];
      assert Uses(s, p, fates[1..], tokens[1..], c.delimiter) == Uses(s, p, fates[2..], tokens[2..], c.delimiter);
    }
  }

  /** What a scan does with a line: no token is unknown, and the argument at
      position p holds exactly what the line gives it. */
  ghost predicate LineHolds(c: Config, args: seq<ArgState>, rd: Reader, tokens: seq<string>, out: seq<ArgState>) {
    var fates := Fates(c, args, rd, tokens);
    && |out| == |args| && Unknown !in fates
    && forall p :: 0 <= p < |args| ==>
         Holds(args[p], out[p], Uses(args[p].spec, p, fates, tokens, c.delimiter),
               Given(args[p].spec, p, fates, tokens, c.delimiter), R.Free(c, args, p))
  }

  // What the line gives is what the turn gives and then what the rest gives.
  lemma ArgBegins(a: ArgState, m: ArgState, b: ArgState, first: nat, firstGiven: seq<string>,
                  later: nat, laterGiven: seq<string>, uses: nat, given: seq<string>, free: bool)
    requires Holds(a, m, first, firstGiven, free) && Holds(m, b, later, laterGiven, free)
    requires uses == first + later && given == firstGiven + laterGiven
    ensures Holds(a, b, uses, given, free)
  {
    HoldsThen(a, m, b, first, firstGiven, later, laterGiven, free);
  }

  lemma ArgTurn(c: Config, args: seq<ArgState>, rd: Reader, tokens: seq<string>, p: nat, m: ArgState, b: ArgState)
    requires tokens != [] && p < |args| && m.spec == args[p].spec
    requires var f := FateOf(c, args, rd, tokens[0]);
      Holds(args[p], m, UsesIn(args[p].spec, p, f, tokens[0], c.delimiter),
            GivenFirst(args[p].spec, p, f, tokens[0], tokens[1..], c.delimiter), R.Free(c, args, p))
    requires var n := TurnLength(c, args, rd, tokens);
      var later := Fates(c, args, NextReader(c, args, rd, tokens[0]), tokens[n..]);
      Holds(m, b, Uses(m.spec, p, later, tokens[n..], c.delimiter), Given(m.spec, p, later, tokens[n..], c.delimiter),
            R.Free(c, args, p))
    ensures var fates := Fates(c, args, rd, tokens);
      Holds(args[p], b, Uses(args[p].spec, p, fates, tokens, c.delimiter),
            Given(args[p].spec, p, fates, tokens, c.delimiter), R.Free(c, args, p))
  {
    var f, n, s := FateOf(c, args, rd, tokens[0]), TurnLength(c, args, rd, tokens), args[p].spec;
    var fates := Fates(c, args, rd, tokens);
    var later := Fates(c, args, NextReader(c, args, rd, tokens[0]), tokens[n..]);
    FatesTurn(c, args, rd, tokens);
    FirstTurn(c, args, rd, tokens, s, p);
    ArgBegins(args[p], m, b, UsesIn(s, p, f, tokens[0], c.delimiter),
              GivenFirst(s, p, f, tokens[0], tokens[1..], c.delimiter),
              Uses(s, p, later, tokens[n..], c.delimiter), Given(s, p, later, tokens[n..], c.delimiter),
              Uses(s, p, fates, tokens, c.delimiter), Given(s, p, fates, tokens, c.delimiter), R.Free(c, args, p));
  }

  lemma LineBegins(c: Config, s: State, rd: Reader, tokens: seq<string>, s': State, out: seq<ArgState>)
    requires tokens != [] && SameShapes(s.args, s'.args)
    requires var f := FateOf(c, s.args, rd, tokens[0]);
      !f.Unknown? && forall p :: 0 <= p < |s.args| ==> Turned(c, s, f, tokens[0], tokens[1..], s', p)
    requires var n, rd' := TurnLength(c, s.args, rd, tokens), NextReader(c, s.args, rd, tokens[0]);
      LineHolds(c, s'.args, rd', tokens[n..], out)
        && Fates(c, s'.args, rd', tokens[n..]) == Fates(c, s.args, rd', tokens[n..])
    ensures LineHolds(c, s.args, rd, tokens, out)
  {
    var f := FateOf(c, s.args, rd, tokens[0]);
    var fates := Fates(c, s.args, rd, tokens);
    forall p | 0 <= p < |s.args|
      ensures Holds(s.args[p], out[p], Uses(s.args[p].spec, p, fates, tokens, c.delimiter),
                    Given(s.args[p].spec, p, fates, tokens, c.delimiter), R.Free(c, s.args, p))
    {
      assert Turned(c, s, f, tokens[0], tokens[1..], s', p);
      assert R.Free(c, s'.args, p) == R.Free(c, s.args, p);
      ArgTurn(c, s.args, rd, tokens, p, s'.args[p], out[p]);
    }
    NoUnknown(c, s.args, rd, tokens);
  }

  lemma NoUnknown(c: Config, args: seq<ArgState>, rd: Reader, tokens: seq<string>)
    requires tokens != [] && !FateOf(c, args, rd, tokens[0]).Unknown?
    requires Unknown !in Fates(c, args, NextReader(c, args, rd, tokens[0]), tokens[TurnLength(c, args, rd, tokens)..])
    ensures Unknown !in Fates(c, args, rd, tokens)
  {
  }

  lemma StepLength(c: Config, s: State, rd: Reader, tokens: seq<string>)
    requires WellLabeled(s.args, c.delimiter) && Tracks(rd, s) && tokens != []
    ensures var r := Step(c, s, tokens[0], tokens[1..]);
      r.Next? ==> TurnLength(c, s.args, rd, tokens) == 1 + r.extra
  {
    StepFates(c, s, rd, tokens[0], tokens[1..]);
  }

  // The first turn of a run.
  lemma RunTurn(c: Config, s: State, rd: Reader, tokens: seq<string>)
    requires WellLabeled(s.args, c.delimiter) && Tracks(rd, s) && tokens != []
    ensures var r := Step(c, s, tokens[0], tokens[1..]);
      var f := FateOf(c, s.args, rd, tokens[0]);
      if r.Next? then
        && SameShapes(s.args, r.state.args) && WellLabeled(r.state.args, c.delimiter)
        && !f.Unknown? && Tracks(NextReader(c, s.args, rd, tokens[0]), r.state)
        && Run(c, s, tokens) == Run(c, r.state, tokens[TurnLength(c, s.args, rd, tokens)..])
        && (forall p :: 0 <= p < |s.args| ==> Turned(c, s, f, tokens[0], tokens[1..], r.state, p))
      else !Run(c, s, tokens).Done?
  {
    StepFates(c, s, rd, tokens[0], tokens[1..]);
    var r := Step(c, s, tokens[0], tokens[1..]);
    if r.Next? {
      StepLength(c, s, rd, tokens);
      WellLabeledKept(s.args, r.state.args, c.delimiter);
    }
  }

  /** Every token is accounted for exactly once, before and after `--`: in a scan
      that comes to its end each token has one of the fates above, none is
      unknown, and every argument, in an xor list or not, holds exactly what the
      fates give it. */
  lemma {:induction false} RunHolds(c: Config, s: State, rd: Reader, tokens: seq<string>)
    requires WellLabeled(s.args, c.delimiter) && Tracks(rd, s)
    ensures var r := Run(c, s, tokens);
            r.Done? ==> SameShapes(s.args, r.state.args) && LineHolds(c, s.args, rd, tokens, r.state.args)
    decreases |tokens|
  {
    if tokens == [] {
      forall p | 0 <= p < |s.args| ensures Holds(s.args[p], s.args[p], 0, [], R.Free(c, s.args, p)) {
        HoldsStill(s.args[p]);
      }
    } else {
      RunTurn(c, s, rd, tokens);
      var r := Step(c, s, tokens[0], tokens[1..]);
      if r.Next? && Run(c, s, tokens).Done? {
        var n, rd' := TurnLength(c, s.args, rd, tokens), NextReader(c, s.args, rd, tokens[0]);
        RunHolds(c, r.state, rd', tokens[n..]);
        FatesKept(c, s.args, r.state.args, rd', tokens[n..]);
        LineBegins(c, s, rd, tokens, r.state, Run(c, s, tokens).state.args);
      }
    }
  }

  // Where the reader of a fresh line stands.
  ghost function Start(s: State): (rd: Reader)
    ensures Tracks(rd, s)
  {
    Reader(!s.ignore, set j | 0 <= j < |s.args| && s.args[j].alreadySet)
  }

  // A line gives a switch no values.
  lemma {:induction false} SwitchGivenNothing(c: Config, args: seq<ArgState>, rd: Reader, tokens: seq<string>, p: nat)
    requires p < |args| && IsSwitch(args[p].spec.kind)
    ensures Given(args[p].spec, p, Fates(c, args, rd, tokens), tokens, c.delimiter) == []
    decreases |tokens|
  {
    if tokens == [] {
    } else {
      var n, rd' := TurnLength(c, args, rd, tokens), NextReader(c, args, rd, tokens[0]);
      FatesTurn(c, args, rd, tokens);
      FirstTurn(c, args, rd, tokens, args[p].spec, p);
      FateMeans(c, args, rd, tokens[0]);
      SwitchGivenNothing(c, args, rd', tokens[n..], p);
    }
  }

  /** A counting switch outside the xor lists has counted its uses, and reports
      being set if and only if it was or there has been one. */
  lemma RunCounts(c: Config, s: State, rd: Reader, tokens: seq<string>, p: nat)
    requires WellLabeled(s.args, c.delimiter) && Tracks(rd, s)
    requires p < |s.args| && s.args[p].spec.kind.MultiSwitch? && R.Free(c, s.args, p)
    ensures var r := Run(c, s, tokens);
      var uses := Uses(s.args[p].spec, p, Fates(c, s.args, rd, tokens), tokens, c.delimiter);
      r.Done? ==>
        && |r.state.args| == |s.args| && r.state.args[p].count == s.args[p].count + uses
        && (r.state.args[p].alreadySet <==> s.args[p].alreadySet || uses > 0)
  {
    RunHolds(c, s, rd, tokens);
    SwitchGivenNothing(c, s.args, rd, tokens, p);
  }
}
