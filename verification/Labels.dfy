/** Which argument a token belongs to. The parser never looks an argument up:
    it offers the token down the list. That the order does not matter rests on
    flags and names being distinct and on labeled arguments coming first. */
module Labels {
  import opened Args
  import opened Scan

  // What the constructors and add establish of one labeled argument. The
  // delimiter may not occur in a flag or a name, and the blank char, which the
  // parser writes over letters it has eaten, is no flag.
  ghost predicate GoodLabel(s: Spec, delimiter: char) {
    && |s.flag| <= 1 && s.flag != [BLANK] && s.name != "" && s.ignoreable
    && delimiter !in s.flag && delimiter !in s.name
    && (s.flag == [DASH] || s.visitor.IgnoreRest? ==>
          s.flag == [DASH] && s.visitor.IgnoreRest? && s.kind.Switch?)
  }

  ghost predicate Apart(s: Spec, t: Spec) {
    s.name != t.name && (s.flag == t.flag ==> s.flag == "")
  }

  // What add keeps true of the list: flags and names differ, and labeled
  // arguments come before unlabeled ones.
  ghost predicate Sorted(args: seq<ArgState>) {
    && (forall i, j :: 0 <= i < |args| && 0 <= j < |args| && i != j ==> Apart(args[i].spec, args[j].spec))
    && (forall i, j :: 0 <= i < j < |args| && args[i].spec.kind.Unlabeled() ==> args[j].spec.kind.Unlabeled())
    && (forall j :: 0 <= j < |args| && args[j].spec.kind.Unlabeled() ==> args[j].spec.flag == "")
  }

  ghost predicate WellLabeled(args: seq<ArgState>, delimiter: char) {
    && delimiter != DASH && delimiter != BLANK && Sorted(args)
    && (forall j :: 0 <= j < |args| && !args[j].spec.kind.Unlabeled() ==> GoodLabel(args[j].spec, delimiter))
    && (forall j :: 0 <= j < |args| && args[j].spec.kind.Unlabeled() ==> !args[j].spec.visitor.IgnoreRest?)
  }

  lemma WellLabeledKept(args: seq<ArgState>, args': seq<ArgState>, delimiter: char)
    requires WellLabeled(args, delimiter) && SameShapes(args, args')
    ensures WellLabeled(args', delimiter)
  {
  }

  // The token names the argument: it is the flag or the name, or begins with
  // it when the argument takes a value.
  predicate Names(s: Spec, token: string, delimiter: char) {
    if s.kind.TakesValue() then !HasBlanks(token) && s.Matches(FlagPart(token, delimiter))
    else s.Matches(token)
  }

  // How many letters of a combined token mean this flag.
  function Letters(s: Spec, token: string, delimiter: char): nat {
    if s.flag != "" && s.flag[0] != DASH && Combinable(token, delimiter) then LetterCount(s.flag[0], token)
    else 0
  }

  lemma NamedPart(s: Spec, token: string, delimiter: char)
    requires GoodLabel(s, delimiter) && delimiter != DASH && Names(s, token, delimiter)
    ensures s.Matches(FlagPart(token, delimiter))
    ensures delimiter !in token ==> FlagPart(token, delimiter) == token
  {
    assert delimiter !in token ==> FirstIndex(token, delimiter, 0) == |token|;
    if !s.kind.TakesValue() && token == [DASH, DASH] + s.name {
      assert delimiter !in token;
    }
  }

  // A flag token has two characters, a name token more.
  lemma MatchForm(s: Spec, part: string, delimiter: char)
    requires GoodLabel(s, delimiter)
    ensures s.Matches(part) <==>
            && |part| >= 2 && part[0] == DASH
            && if |part| == 2 then [part[1]] == s.flag else part[1] == DASH && part[2..] == s.name
  {
    if |part| == 2 {
      assert part == [part[0], part[1]];
    } else if |part| > 2 {
      assert part == part[..2] + part[2..];
      assert part[..2] == [part[0], part[1]];
    }
    assert s.Matches(part) ==> part == [DASH] + s.flag || (|part| == 2 + |s.name| && part[2..] == s.name);
  }

  lemma PartOwner(s: Spec, t: Spec, part: string, delimiter: char)
    requires GoodLabel(s, delimiter) && GoodLabel(t, delimiter) && Apart(s, t)
    requires s.Matches(part)
    ensures !t.Matches(part)
  {
    MatchForm(s, part, delimiter);
    MatchForm(t, part, delimiter);
  }

  /** A token that names one argument names no other, and holds no letter of
      another's flag. */
  lemma NamesUnique(s: Spec, t: Spec, token: string, delimiter: char)
    requires GoodLabel(s, delimiter) && GoodLabel(t, delimiter) && Apart(s, t) && delimiter != DASH
    requires Names(s, token, delimiter)
    ensures !Names(t, token, delimiter)
    ensures Letters(t, token, delimiter) == 0
  {
    NamedPart(s, token, delimiter);
    PartOwner(s, t, FlagPart(token, delimiter), delimiter);
    if Names(t, token, delimiter) { NamedPart(t, token, delimiter); }
    if t.flag != "" && Combinable(token, delimiter) {
      assert token == [DASH] + s.flag;
    }
  }

  // One more letter of c at position i, one fewer without it.
  lemma {:induction false} OccurrencesUpdate(c: char, s: string, i: nat, d: char, from: nat)
    requires from <= |s| && i < |s|
    ensures Occurrences(c, s[i := d], from) + (if from <= i && s[i] == c then 1 else 0)
         == Occurrences(c, s, from) + (if from <= i && d == c then 1 else 0)
    decreases |s| - from
  {
    if from == |s| {
    } else {
      OccurrencesUpdate(c, s, i, d, from + 1);
    }
  }

  lemma {:induction false} OccurrencesBlankAll(c: char, b: char, s: string, from: nat)
    requires 1 <= from <= |s| && c != BLANK
    ensures Occurrences(c, BlankAll(b, s), from) == if c == b then 0 else Occurrences(c, s, from)
    decreases |s| - from
  {
    if from == |s| {
    } else {
      OccurrencesBlankAll(c, b, s, from + 1);
    }
  }

  // token' is token with some letters of the flag s overwritten
  ghost predicate Eaten(s: Spec, token: string, token': string)
    requires |s.flag| == 1
  {
    && |token'| == |token|
    && (exists i :: 1 <= i < |token| && token[i] == s.flag[0] && token'[i] == BLANK)
    && forall i :: 0 <= i < |token| ==> token'[i] == token[i] || (i >= 1 && token[i] == s.flag[0] && token'[i] == BLANK)
  }

  lemma EatenLetters(s: Spec, t: Spec, token: string, token': string, delimiter: char)
    requires |s.flag| == 1 && delimiter != BLANK && Combinable(token, delimiter)
    requires token' == BlankAll(s.flag[0], token)
             || (OccursFrom(token, s.flag[0], 1) && token' == BlankFirst(s.flag[0], token))
    requires t.flag == "" || (t.flag[0] != s.flag[0] && t.flag[0] != BLANK)
    ensures Letters(t, token', delimiter) == Letters(t, token, delimiter)
    ensures Combinable(token', delimiter)
  {
    assert token' != "" && token'[0] == DASH && (|token'| > 1 ==> token'[1] != DASH);
    assert delimiter !in token' by {
      assert forall i :: 0 <= i < |token'| ==> token'[i] == token[i] || token'[i] == BLANK;
    }
    if t.flag != "" {
      OccurrencesBlankAll(t.flag[0], s.flag[0], token, 1);
      if OccursFrom(token, s.flag[0], 1) {
        OccurrencesUpdate(t.flag[0], token, FirstIndex(token, s.flag[0], 1), BLANK, 1);
      }
    }
  }

  /** A token in which a switch has eaten letters names nobody. */
  lemma EatenNames(s: Spec, t: Spec, token: string, token': string, delimiter: char)
    requires |s.flag| == 1 && Combinable(token, delimiter) && Eaten(s, token, token')
    requires GoodLabel(t, delimiter) && delimiter != BLANK
    ensures !Names(t, token', delimiter)
    ensures t.flag == "" || t.flag[0] != s.flag[0] ==> !Names(t, token, delimiter)
    ensures HasBlanks(token')
  {
    var i :| 1 <= i < |token| && token[i] == s.flag[0] && token'[i] == BLANK;
    assert HasBlanks(token');
    assert FirstIndex(token, delimiter, 0) == |token|;
    MatchForm(t, token', delimiter);
    MatchForm(t, token, delimiter);
  }

  lemma EatsLetters(s: Spec, token: string, delimiter: char)
    requires |s.flag| == 1 && Combines(s.flag, token, delimiter)
    ensures Eaten(s, token, BlankFirst(s.flag[0], token))
    ensures Eaten(s, token, BlankAll(s.flag[0], token))
  {
    var k := FirstIndex(token, s.flag[0], 1);
    assert BlankFirst(s.flag[0], token)[k] == BLANK;
    assert BlankAll(s.flag[0], token)[k] == BLANK;
  }

  // What one labeled argument does with a token before `--`, by the way the
  // token speaks to it.
  ghost predicate Heard(a: ArgState, delimiter: char, token: string, r: Outcome) {
    r.Went? ==>
      if Names(a.spec, token, delimiter) then
        && r.matched && r.token == token
        && r.ignore == a.spec.visitor.IgnoreRest?
        && r.extra == (if a.spec.kind.TakesValue() && ValuePart(token, delimiter) == "" then 1 else 0)
        && (a.spec.kind.MultiSwitch? ==> r.arg.count == a.count + 1 && r.arg.alreadySet)
      else if !a.spec.kind.TakesValue() && Letters(a.spec, token, delimiter) > 0 then
        && |a.spec.flag| == 1
        && Combines(a.spec.flag, token, delimiter)
        && r.token == (if a.spec.kind.Switch? then BlankFirst(a.spec.flag[0], token)
                       else BlankAll(a.spec.flag[0], token))
        && !r.ignore && r.extra == 0
        && r.matched == (a.spec.kind.Switch? && AllBlank(r.token))
        && (a.spec.kind.MultiSwitch? ==>
              r.arg.count == a.count + Letters(a.spec, token, delimiter) && r.arg.alreadySet)
      else r == NotMine(a, token, false)
  }

  // The flag is one character at most, and the ignore-rest switch has no letter.
  predicate FlagFits(s: Spec) { |s.flag| <= 1 && (s.visitor.IgnoreRest? ==> s.flag == "" || s.flag == [DASH]) }

  lemma HeardBy(a: ArgState, delimiter: char, token: string, rest: seq<string>)
    requires !a.spec.kind.Unlabeled() && FlagFits(a.spec)
    requires delimiter != BLANK
    ensures Heard(a, delimiter, token, Process(a, delimiter, false, token, rest))
  {
    match a.spec.kind
    case Switch => SwitchHeard(a, delimiter, token);
    case MultiSwitch => MultiSwitchHeard(a, delimiter, token);
    case Value => ValueHeard(a, delimiter, token, rest);
    case Multi => ValueHeard(a, delimiter, token, rest);
  }

  lemma SwitchHeard(a: ArgState, delimiter: char, token: string)
    requires a.spec.kind.Switch? && FlagFits(a.spec)
    ensures Heard(a, delimiter, token, ProcessSwitch(a, delimiter, false, token))
  {
  }

  lemma MultiSwitchHeard(a: ArgState, delimiter: char, token: string)
    requires a.spec.kind.MultiSwitch? && FlagFits(a.spec)
    requires delimiter != BLANK
    ensures Heard(a, delimiter, token, ProcessMultiSwitch(a, delimiter, false, token))
  {
  }

  lemma ValueHeard(a: ArgState, delimiter: char, token: string, rest: seq<string>)
    requires a.spec.kind.TakesValue() && FlagFits(a.spec)
    ensures Heard(a, delimiter, token, ProcessValue(a, delimiter, false, token, rest))
  {
  }

  // Some token is matched by both.
  ghost predicate Confused(s: Spec, t: Spec) {
    exists token :: s.Matches(token) && t.Matches(token)
  }

  // A label as the constructors of labeled arguments leave it.
  predicate Told(s: Spec) { |s.flag| <= 1 && s.name != "" }

  /** What the comparison in add is for: a labeled argument clashes with another if
      and only if some token would be matched by both. */
  lemma ClashesIff(s: Spec, t: Spec)
    requires !s.kind.Unlabeled() && Told(s) && Told(t)
    ensures s.Clashes(t) <==> Confused(s, t)
    ensures s.Clashes(t) <==> s.name == t.name || (s.flag != "" && s.flag == t.flag)
  {
    if s.name == t.name {
      assert s.Matches([DASH, DASH] + s.name);
    } else if s.flag != "" && s.flag == t.flag {
      assert s.Matches([DASH] + s.flag);
    }
    forall token | s.Matches(token) && t.Matches(token) ensures s.name == t.name || (s.flag != "" && s.flag == t.flag) {
      assert |token| == 2 ==> [token[1]] == s.flag && [token[1]] == t.flag;
      assert |token| > 2 ==> token[2..] == s.name && token[2..] == t.name;
    }
  }

  lemma LettersBlanked(s: Spec, t: Spec, token: string, token': string, delimiter: char)
    requires GoodLabel(s, delimiter) && GoodLabel(t, delimiter) && Apart(s, t) && delimiter != BLANK
    requires |s.flag| == 1 && Combines(s.flag, token, delimiter)
    requires token' == BlankFirst(s.flag[0], token) || token' == BlankAll(s.flag[0], token)
    ensures Letters(t, token', delimiter) == Letters(t, token, delimiter)
    ensures !Names(t, token', delimiter) && !Names(t, token, delimiter)
  {
    assert t.flag == "" || t.flag[0] != s.flag[0];
    EatenLetters(s, t, token, token', delimiter);
    EatsLetters(s, token, delimiter);
    EatenNames(s, t, token, token', delimiter);
  }

  lemma AllBlankUnused(t: Spec, token: string, delimiter: char)
    requires AllBlank(token) && t.flag != [BLANK] && |t.flag| <= 1
    ensures Letters(t, token, delimiter) == 0
  {
  }

  // No labeled argument from position k on is named by the token.
  ghost predicate Nobody(args: seq<ArgState>, k: nat, token: string, delimiter: char) {
    forall j :: k <= j < |args| && !args[j].spec.kind.Unlabeled() ==> !Names(args[j].spec, token, delimiter)
  }

  lemma EatenNobody(args: seq<ArgState>, k: nat, token: string, token': string, delimiter: char)
    requires WellLabeled(args, delimiter) && k < |args| && !args[k].spec.kind.Unlabeled()
    requires |args[k].spec.flag| == 1 && Combines(args[k].spec.flag, token, delimiter)
    requires token' == BlankFirst(args[k].spec.flag[0], token) || token' == BlankAll(args[k].spec.flag[0], token)
    ensures Nobody(args, k + 1, token, delimiter) && Nobody(args, k + 1, token', delimiter)
  {
    forall j | k < j < |args| && !args[j].spec.kind.Unlabeled()
      ensures !Names(args[j].spec, token, delimiter) && !Names(args[j].spec, token', delimiter)
    {
      LettersBlanked(args[k].spec, args[j].spec, token, token', delimiter);
    }
  }
}
