/** The arguments of the command-line parser, as values: one record an
    argument, and what each kind of argument does with one token.
    `processArg` of the six argument classes is `Process`, which dispatches on
    the kind as the virtual call does. */
module Args {

  const BLANK: char := '\U{7}'
  const DASH: char := '-'

  datatype Kind = Switch | MultiSwitch | Value | Multi | UnlabeledValue | UnlabeledMulti
  {
    predicate Unlabeled() { UnlabeledValue? || UnlabeledMulti? }

    // MultiArg and its subclass, which collect values
    predicate Collects() { Multi? || UnlabeledMulti? }

    // the labeled kinds that take a value
    predicate TakesValue() { Value? || Multi? }
  }

  // What an argument's visitor does: IgnoreRestVisitor, or the help and
  // version visitors, which leave the program.
  datatype Visitor = NoVisitor | IgnoreRest | Leave

  // The id of an error is that of the argument its message names.
  datatype Error =
    | MutuallyExclusive(id: nat)
    | AlreadySet(id: nat)
    | NoDelimiter(id: nat)
    | MissingValue(id: nat)
    | NoMatch(token: string)
    | MissingArgs
    | TooManyArgs

  /** What parsing never changes in an argument. `id` stands for the object's
      address. */
  datatype Spec = Spec(
    id: nat, kind: Kind, flag: string, name: string,
    description: string, requireLabel: string,
    visitor: Visitor, ignoreable: bool, required: bool)
  {
    predicate Matches(s: string) {
      (s == [DASH] + flag && flag != "") || s == [DASH, DASH] + name
    }

    function GetDescription(): string {
      if required then "(" + requireLabel + ")  " + description else description
    }

    // operator==, which the unlabeled kinds override
    predicate Clashes(that: Spec) {
      if kind.Unlabeled() then name == that.name || description == that.GetDescription()
      else (flag != "" && flag == that.flag) || name == that.name
    }
  }

  /** An argument object at one moment. */
  datatype ArgState = ArgState(
    spec: Spec,
    alreadySet: bool, xorSet: bool, allowMore: bool,
    on: bool, count: int, value: string, values: seq<string>)
  {
    predicate IsSet() { alreadySet && !xorSet }

    predicate IsRequired() {
      spec.required && (spec.kind.Collects() ==> |values| <= 1)
    }
  }

  predicate HasBlanks(s: string) { exists i :: 1 <= i < |s| && s[i] == BLANK }

  predicate AllBlank(s: string) { forall i :: 1 <= i < |s| ==> s[i] == BLANK }

  predicate EmptyCombined(s: string) { (|s| > 0 ==> s[0] == DASH) && AllBlank(s) }

  // The first position of c in s from `from` on, or |s|.
  function FirstIndex(s: string, c: char, from: nat): (k: nat)
    requires from <= |s|
    ensures from <= k <= |s|
    ensures forall i :: from <= i < k ==> s[i] != c
    ensures k < |s| ==> s[k] == c
    decreases |s| - from
  {
    if from == |s| || s[from] == c then from else FirstIndex(s, c, from + 1)
  }

  predicate OccursFrom(s: string, c: char, from: nat) {
    exists i :: from <= i < |s| && s[i] == c
  }

  // The length of the flag part of a token: everything before the first
  // delimiter when that stands after the second character, else the whole token.
  function FlagLength(s: string, delimiter: char): (n: nat)
    ensures n <= |s|
  {
    var k := FirstIndex(s, delimiter, 0);
    if 1 < k < |s| then k else |s|
  }

  function FlagPart(s: string, delimiter: char): string {
    s[..FlagLength(s, delimiter)]
  }

  function ValuePart(s: string, delimiter: char): string {
    var n := FlagLength(s, delimiter);
    if n < |s| then s[n + 1..] else ""
  }

  // A token that switches may be combined in: one dash, and no delimiter.
  predicate Combinable(s: string, delimiter: char) {
    && |s| > 0 && s[0] == DASH
    && (|s| > 1 ==> s[1] != DASH)
    && delimiter !in s
  }

  // Whether combinedSwitchesMatch finds this flag in the token.
  predicate Combines(flag: string, s: string, delimiter: char) {
    && Combinable(s, delimiter)
    && |flag| > 0 && flag[0] != DASH && OccursFrom(s, flag[0], 1)
  }

  // The token after combinedSwitchesMatch has eaten one letter.
  function BlankFirst(c: char, s: string): (t: string)
    requires OccursFrom(s, c, 1)
    ensures |t| == |s| && t[0] == s[0]
  {
    s[FirstIndex(s, c, 1) := BLANK]
  }

  // The token after every letter c behind the dash has been eaten.
  function BlankAll(c: char, s: string): (t: string)
    ensures |t| == |s|
  {
    seq(|s|, i requires 0 <= i < |s| => if i > 0 && s[i] == c then BLANK else s[i])
  }

  // How often c occurs in s from position `from` on.
  function Occurrences(c: char, s: string, from: nat): (n: nat)
    requires from <= |s|
    ensures n == 0 <==> !OccursFrom(s, c, from)
    decreases |s| - from
  {
    if from == |s| then 0
    else (if s[from] == c then 1 else 0) + Occurrences(c, s, from + 1)
  }

  function LetterCount(c: char, s: string): nat {
    if s == "" then 0 else Occurrences(c, s, 1)
  }

  // What a counting switch eats of a token: all its letters, but only one if
  // the blank it writes is the delimiter, which ends the search.
  function EatenAll(c: char, s: string, delimiter: char): (t: string)
    requires OccursFrom(s, c, 1)
    ensures |t| == |s|
  {
    if delimiter == BLANK then BlankFirst(c, s) else BlankAll(c, s)
  }

  function LettersCounted(c: char, s: string, delimiter: char): nat {
    if delimiter == BLANK then 1 else LetterCount(c, s)
  }

  /** The shapes of a token, told by its characters: where it has blanks, when it is
      used up, which letters it combines, and where it is cut into flag and value. */
  lemma TokenShapes(s: string, flag: string, delimiter: char)
    ensures HasBlanks(s) <==> |s| > 1 && '\U{7}' in s[1..]
    ensures EmptyCombined(s) <==> s == "" || (s[0] == '-' && forall c :: c in s[1..] ==> c == '\U{7}')
    ensures Combines(flag, s, delimiter) <==>
      && |s| > 1 && s[0] == '-' && s[1] != '-' && delimiter !in s
      && flag != "" && flag[0] != '-' && flag[0] in s[1..]
    ensures if |s| > 2 && delimiter in s && delimiter !in s[..2]
            then s == FlagPart(s, delimiter) + [delimiter] + ValuePart(s, delimiter)
              && delimiter !in FlagPart(s, delimiter)
            else FlagPart(s, delimiter) == s && ValuePart(s, delimiter) == ""
  {
    forall i | 1 <= i < |s| ensures s[i] in s[1..] { assert s[1..][i - 1] == s[i]; }
    var k := FirstIndex(s, delimiter, 0);
    if k < |s| { assert s[k] in s; }
    if 1 < k < |s| {
      assert s == s[..k] + [s[k]] + s[k + 1..];
      assert forall i :: 0 <= i < 2 ==> s[..2][i] == s[i];
    } else if k < |s| && |s| > 2 {
      assert s[..2][k] == delimiter;
    }
  }

  /** What processArg answers: an exception, the program left by a visitor, or
      a verdict with the argument, the token as it now reads, the further
      tokens taken (0 or 1) and the ignore-rest flag. */
  datatype Outcome =
    | Failed(error: Error)
    | Quit
    | Went(matched: bool, arg: ArgState, token: string, extra: nat, ignore: bool)

  // _checkWithVisitor, then the return.
  function Visited(matched: bool, a: ArgState, token: string, extra: nat, ignore: bool): Outcome {
    if a.spec.visitor.Leave? then Quit
    else Went(matched, a, token, extra, ignore || a.spec.visitor.IgnoreRest?)
  }

  function NotMine(a: ArgState, token: string, ignore: bool): Outcome {
    Went(false, a, token, 0, ignore)
  }

  // commonProcessing of SwitchArg
  function Toggle(matched: bool, a: ArgState, token: string, ignore: bool): Outcome {
    if a.xorSet then Failed(MutuallyExclusive(a.spec.id))
    else if a.alreadySet then Failed(AlreadySet(a.spec.id))
    else Visited(matched, a.(alreadySet := true, on := !a.on), token, 0, ignore)
  }

  function ProcessSwitch(a: ArgState, delimiter: char, ignore: bool, token: string): Outcome {
    if a.spec.ignoreable && ignore then NotMine(a, token, ignore)
    else if a.spec.Matches(token) then Toggle(true, a, token, ignore)
    else if Combines(a.spec.flag, token, delimiter) then
      var eaten := BlankFirst(a.spec.flag[0], token);
      if Combines(a.spec.flag, eaten, delimiter) then Failed(AlreadySet(a.spec.id))
      else Toggle(AllBlank(eaten), a, eaten, ignore)
    else NotMine(a, token, ignore)
  }

  // The counting loop is stated by its result; ArgObjects.dfy proves the loop.
  function ProcessMultiSwitch(a: ArgState, delimiter: char, ignore: bool, token: string): Outcome {
    if a.spec.ignoreable && ignore then NotMine(a, token, ignore)
    else if a.spec.Matches(token) then
      Visited(true, a.(alreadySet := true, count := a.count + 1), token, 0, ignore)
    else if Combines(a.spec.flag, token, delimiter) then
      var more := LettersCounted(a.spec.flag[0], token, delimiter);
      Visited(false, a.(alreadySet := true, count := a.count + more),
              EatenAll(a.spec.flag[0], token, delimiter), 0, ignore)
    else NotMine(a, token, ignore)
  }

  function Store(a: ArgState, v: string): ArgState {
    if a.spec.kind.Collects() then a.(alreadySet := true, values := a.values + [v])
    else a.(alreadySet := true, value := v)
  }

  // processArg of ValueArg and of MultiArg, which differ in that only a
  // ValueArg refuses to be set twice
  function ProcessValue(a: ArgState, delimiter: char, ignore: bool,
                        token: string, rest: seq<string>): Outcome
  {
    if a.spec.ignoreable && ignore then NotMine(a, token, ignore)
    else if HasBlanks(token) then NotMine(a, token, ignore)
    else if !a.spec.Matches(FlagPart(token, delimiter)) then NotMine(a, token, ignore)
    else if a.spec.kind.Value? && a.alreadySet then
      Failed(if a.xorSet then MutuallyExclusive(a.spec.id) else AlreadySet(a.spec.id))
    else
      var v := ValuePart(token, delimiter);
      if v != "" then Visited(true, Store(a, v), token, 0, ignore)
      else if delimiter != ' ' then Failed(NoDelimiter(a.spec.id))
      else if rest == [] then Failed(MissingValue(a.spec.id))
      else Visited(true, Store(a, rest[0]), token, 1, ignore)
  }

  function ProcessUnlabeled(a: ArgState, ignore: bool, token: string): Outcome {
    if a.spec.kind.UnlabeledValue? && a.alreadySet then NotMine(a, token, ignore)
    else if HasBlanks(token) then NotMine(a, token, ignore)
    else Went(true, Store(a, token), token, 0, ignore)
  }

  function Process(a: ArgState, delimiter: char, ignore: bool,
                   token: string, rest: seq<string>): (r: Outcome)
  {
    match a.spec.kind
    case Switch => ProcessSwitch(a, delimiter, ignore, token)
    case MultiSwitch => ProcessMultiSwitch(a, delimiter, ignore, token)
    case Value => ProcessValue(a, delimiter, ignore, token, rest)
    case Multi => ProcessValue(a, delimiter, ignore, token, rest)
    case UnlabeledValue => ProcessUnlabeled(a, ignore, token)
    case UnlabeledMulti => ProcessUnlabeled(a, ignore, token)
  }

  // What one offer can change in an argument and in the position.
  ghost predicate Framed(a: ArgState, ignore: bool, token: string, rest: seq<string>, r: Outcome) {
    r.Went? ==>
      && a.spec == r.arg.spec && r.arg.xorSet == a.xorSet && r.arg.allowMore == a.allowMore
      && (a.alreadySet ==> r.arg.alreadySet)
      && (r.matched ==> r.arg.alreadySet)
      && |r.token| == |token|
      && r.extra <= |rest|
      && (!r.matched ==> r.extra == 0)
      && (ignore ==> r.ignore)
      && (r.ignore && !ignore ==> a.spec.visitor.IgnoreRest?)
  }

  lemma SwitchFrame(a: ArgState, delimiter: char, ignore: bool, token: string, rest: seq<string>)
    ensures Framed(a, ignore, token, rest, ProcessSwitch(a, delimiter, ignore, token))
  {
  }

  lemma MultiSwitchFrame(a: ArgState, delimiter: char, ignore: bool, token: string, rest: seq<string>)
    ensures Framed(a, ignore, token, rest, ProcessMultiSwitch(a, delimiter, ignore, token))
  {
  }

  lemma ValueFrame(a: ArgState, delimiter: char, ignore: bool, token: string, rest: seq<string>)
    ensures Framed(a, ignore, token, rest, ProcessValue(a, delimiter, ignore, token, rest))
  {
    var v := ValuePart(token, delimiter);
    if v != "" {
      StoreFrame(a, v, ignore, token, rest, 0);
    } else if rest != [] {
      StoreFrame(a, rest[0], ignore, token, rest, 1);
    }
  }

  lemma StoreFrame(a: ArgState, v: string, ignore: bool, token: string, rest: seq<string>, extra: nat)
    requires extra <= |rest|
    ensures Framed(a, ignore, token, rest, Visited(true, Store(a, v), token, extra, ignore))
  {
  }

  lemma UnlabeledFrame(a: ArgState, delimiter: char, ignore: bool, token: string, rest: seq<string>)
    ensures Framed(a, ignore, token, rest, ProcessUnlabeled(a, ignore, token))
  {
  }

  lemma ProcessFrame(a: ArgState, delimiter: char, ignore: bool, token: string, rest: seq<string>)
    ensures Framed(a, ignore, token, rest, Process(a, delimiter, ignore, token, rest))
  {
    SwitchFrame(a, delimiter, ignore, token, rest);
    MultiSwitchFrame(a, delimiter, ignore, token, rest);
    ValueFrame(a, delimiter, ignore, token, rest);
    UnlabeledFrame(a, delimiter, ignore, token, rest);
  }
}
