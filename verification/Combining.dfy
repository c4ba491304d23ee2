/** Combining switches preserves meaning: `-abc` is `-a -b -c`, in any order
    and whatever the order of the argument list. */
module Combining {
  import opened Args
  import opened Scan
  import opened Labels

  // A switch that is unset, required by nobody, in no xor list and without a visitor.
  ghost predicate Plain(c: Config, a: ArgState) {
    && a.spec.kind.Switch? && a.spec.visitor.NoVisitor? && !a.spec.required
    && !a.alreadySet && !a.xorSet && GroupOf(c.groups, a.spec.id) == |c.groups|
  }

  ghost predicate OwnsLetter(c: Config, args: seq<ArgState>, j: int, letter: char) {
    0 <= j < |args| && args[j].spec.flag == [letter] && Plain(c, args[j])
  }

  // Distinct letters, each the flag of a plain switch at position k or later.
  ghost predicate SwitchLetters(c: Config, args: seq<ArgState>, k: nat, letters: string) {
    && (forall i, j :: 0 <= i < j < |letters| ==> letters[i] != letters[j] || letters[i] == BLANK)
    && (forall i :: 0 <= i < |letters| && letters[i] != BLANK ==>
          exists j :: k <= j && OwnsLetter(c, args, j, letters[i]))
  }

  function Flip(a: ArgState): ArgState { a.(alreadySet := true, on := !a.on) }

  // The arguments after every switch among the letters has been flipped.
  function Flipped(args: seq<ArgState>, letters: string): (r: seq<ArgState>)
    ensures |r| == |args|
  {
    seq(|args|, j requires 0 <= j < |args| =>
      if args[j].spec.flag != "" && args[j].spec.flag[0] in letters then Flip(args[j]) else args[j])
  }

  ghost predicate FlippedTo(c: Config, args: seq<ArgState>, letters: string, r: Offered) {
    && r.Offered? && r.args == Flipped(args, letters) && !r.ignore && r.extra == 0
    && r.taker < |args| && GroupOf(c.groups, args[r.taker].spec.id) == |c.groups|
    && !args[r.taker].spec.required
  }

  // The owner of a letter is the only argument the letter speaks to.
  lemma LetterOwner(c: Config, args: seq<ArgState>, k: nat, letters: string, i: nat)
    requires WellLabeled(args, c.delimiter) && SwitchLetters(c, args, 0, letters)
    requires i < |letters| && letters[i] != BLANK && k < |args| && args[k].spec.flag == [letters[i]]
    ensures Plain(c, args[k])
  {
    var j :| 0 <= j && OwnsLetter(c, args, j, letters[i]);
    assert args[j].spec.flag == args[k].spec.flag;
  }

  lemma LettersCombinable(c: Config, args: seq<ArgState>, letters: string)
    requires WellLabeled(args, c.delimiter) && SwitchLetters(c, args, 0, letters)
    ensures Combinable([DASH] + letters, c.delimiter)
    ensures FlagPart([DASH] + letters, c.delimiter) == [DASH] + letters
  {
    var token := [DASH] + letters;
    forall i | 0 <= i < |letters| ensures letters[i] != c.delimiter && letters[i] != DASH {
      if letters[i] != BLANK {
        var j :| 0 <= j && OwnsLetter(c, args, j, letters[i]);
        assert GoodLabel(args[j].spec, c.delimiter);
      }
    }
    assert FirstIndex(token, c.delimiter, 0) == |token|;
  }

  // A plain switch whose letter stands in the token flips itself.
  lemma PlainHeard(a: ArgState, delimiter: char, letters: string, i: nat)
    requires a.spec.kind.Switch? && a.spec.visitor.NoVisitor? && !a.alreadySet && !a.xorSet
    requires GoodLabel(a.spec, delimiter) && i < |letters| && a.spec.flag == [letters[i]]
    requires Combinable([DASH] + letters, delimiter)
    requires forall j :: 0 <= j < |letters| && j != i ==> letters[j] != letters[i]
    ensures var r := ProcessSwitch(a, delimiter, false, [DASH] + letters);
            && r.Went? && r.arg == Flip(a) && !r.ignore && r.extra == 0
            && (if |letters| == 1 then r.matched
                else r.token == [DASH] + letters[i := BLANK] && r.matched == AllBlank(r.token))
  {
    var token := [DASH] + letters;
    var f := letters[i];
    MatchForm(a.spec, token, delimiter);
    assert token[i + 1] == f && f != DASH;
    assert FirstIndex(token, f, 1) == i + 1;
    var eaten := [DASH] + letters[i := BLANK];
    assert BlankFirst(f, token) == eaten;
    assert forall n :: 1 <= n < |eaten| ==> eaten[n] == letters[i := BLANK][n - 1];
    assert !OccursFrom(eaten, f, 1);
  }

  // Any other labeled argument lets the token pass.
  lemma StrangerHeard(a: ArgState, delimiter: char, letters: string, rest: seq<string>)
    requires delimiter != BLANK
    requires !a.spec.kind.Unlabeled() && GoodLabel(a.spec, delimiter)
    requires a.spec.flag == "" || a.spec.flag[0] !in letters
    requires Combinable([DASH] + letters, delimiter)
    requires FlagPart([DASH] + letters, delimiter) == [DASH] + letters
    ensures Process(a, delimiter, false, [DASH] + letters, rest) == NotMine(a, [DASH] + letters, false)
  {
    var token := [DASH] + letters;
    HeardBy(a, delimiter, token, rest);
    MatchForm(a.spec, token, delimiter);
    assert forall n :: 1 <= n < |token| ==> token[n] == letters[n - 1];
    assert a.spec.flag != "" ==> !OccursFrom(token, a.spec.flag[0], 1);
    assert Letters(a.spec, token, delimiter) == 0;
    assert !Names(a.spec, token, delimiter);
    StrangerPasses(a, delimiter, token, rest);
  }

  lemma StrangerPasses(a: ArgState, delimiter: char, token: string, rest: seq<string>)
    requires !a.spec.kind.Unlabeled() && GoodLabel(a.spec, delimiter)
    requires !Names(a.spec, token, delimiter) && Letters(a.spec, token, delimiter) == 0
    ensures Process(a, delimiter, false, token, rest) == NotMine(a, token, false)
  {
  }

  // Flipping one switch and then the other letters is flipping them all.
  lemma FlippedSplit(c: Config, args: seq<ArgState>, k: nat, letters: string, i: nat)
    requires WellLabeled(args, c.delimiter) && i < |letters| && letters[i] != BLANK
    requires forall j :: 0 <= j < |letters| && j != i ==> letters[j] != letters[i]
    requires k < |args| && args[k].spec.flag == [letters[i]]
    ensures Flipped(args[k := Flip(args[k])], letters[i := BLANK]) == Flipped(args, letters)
  {
    var args' := args[k := Flip(args[k])];
    var letters' := letters[i := BLANK];
    forall j | 0 <= j < |args|
      ensures Flipped(args', letters')[j] == Flipped(args, letters)[j]
    {
      if j != k {
        assert Apart(args[j].spec, args[k].spec);
        if args[j].spec.flag != "" {
          var f := args[j].spec.flag[0];
          assert args[j].spec.flag == [f];
          assert f != BLANK && f != letters[i];
          assert f in letters ==> exists n :: 0 <= n < |letters| && letters[n] == f && letters'[n] == f;
          assert f in letters' ==> exists n :: 0 <= n < |letters| && letters'[n] == f && letters[n] == f;
        }
      } else {
        assert letters[i] !in letters';
      }
    }
  }

  lemma NothingFlipped(c: Config, args: seq<ArgState>, letters: string)
    requires WellLabeled(args, c.delimiter)
    requires forall i :: 0 <= i < |letters| ==> letters[i] == BLANK
    ensures Flipped(args, letters) == args
  {
    forall j | 0 <= j < |args| ensures Flipped(args, letters)[j] == args[j] {
      assert args[j].spec.flag != "" ==> args[j].spec.flag == [args[j].spec.flag[0]];
    }
  }

  lemma LettersMoveOn(c: Config, args: seq<ArgState>, k: nat, letters: string, i: nat)
    requires WellLabeled(args, c.delimiter) && SwitchLetters(c, args, k, letters)
    requires i < |letters| && letters[i] != BLANK && k < |args| && args[k].spec.flag == [letters[i]]
    ensures SwitchLetters(c, args[k := Flip(args[k])], k + 1, letters[i := BLANK])
    ensures forall j :: 0 <= j < |letters| && j != i ==> letters[j] != letters[i]
  {
    var args' := args[k := Flip(args[k])];
    var letters' := letters[i := BLANK];
    forall n | 0 <= n < |letters'| && letters'[n] != BLANK
      ensures exists j :: k + 1 <= j && OwnsLetter(c, args', j, letters'[n])
    {
      var j :| k <= j && OwnsLetter(c, args, j, letters[n]);
      assert OwnsLetter(c, args', j, letters'[n]);
    }
  }

  // The turn of the switch that owns letter i.
  lemma OwnTurn(c: Config, args: seq<ArgState>, k: nat, letters: string, i: nat, rest: seq<string>)
    requires WellLabeled(args, c.delimiter) && SwitchLetters(c, args, k, letters)
    requires i < |letters| && letters[i] != BLANK && k < |args| && args[k].spec.flag == [letters[i]]
    ensures Plain(c, args[k])
    ensures var r := Process(args[k], c.delimiter, false, [DASH] + letters, rest);
            var letters' := letters[i := BLANK];
            && r.Went? && r.arg == Flip(args[k]) && !r.ignore && r.extra == 0
            && if AnyLeft(letters')
               then !r.matched && r.token == [DASH] + letters' else r.matched
  {
    LettersCombinable(c, args, letters);
    LetterOwner(c, args, k, letters, i);
    LettersMoveOn(c, args, k, letters, i);
    PlainHeard(args[k], c.delimiter, letters, i);
    var letters' := letters[i := BLANK];
    assert forall n :: 0 <= n < |letters'| ==> ([DASH] + letters')[n + 1] == letters'[n];
  }

  // The argument at position k is not the owner of a letter.
  lemma OtherTurn(c: Config, args: seq<ArgState>, k: nat, letters: string, rest: seq<string>)
    requires WellLabeled(args, c.delimiter) && SwitchLetters(c, args, k, letters)
    requires k < |args| && !args[k].spec.kind.Unlabeled()
    requires args[k].spec.flag == "" || args[k].spec.flag[0] !in letters
    ensures Process(args[k], c.delimiter, false, [DASH] + letters, rest)
         == NotMine(args[k], [DASH] + letters, false)
    ensures SwitchLetters(c, args, k + 1, letters)
  {
    LettersCombinable(c, args, letters);
    StrangerHeard(args[k], c.delimiter, letters, rest);
    forall n | 0 <= n < |letters| && letters[n] != BLANK
      ensures exists j :: k + 1 <= j && OwnsLetter(c, args, j, letters[n])
    {
      var j :| k <= j && OwnsLetter(c, args, j, letters[n]);
    }
  }

  ghost predicate AnyLeft(letters: string) { exists i :: 0 <= i < |letters| && letters[i] != BLANK }

  // Somebody from position k on is waiting for a letter, so k is labeled.
  lemma OwnerAhead(c: Config, args: seq<ArgState>, k: nat, letters: string)
    requires WellLabeled(args, c.delimiter) && SwitchLetters(c, args, k, letters) && AnyLeft(letters)
    ensures k < |args| && !args[k].spec.kind.Unlabeled()
    ensures args[k].spec.flag != "" ==> args[k].spec.flag == [args[k].spec.flag[0]]
  {
    var i :| 0 <= i < |letters| && letters[i] != BLANK;
    var j :| k <= j && OwnsLetter(c, args, j, letters[i]);
  }

  lemma OwnTurnFlips(c: Config, args: seq<ArgState>, k: nat, letters: string, i: nat, rest: seq<string>)
    requires WellLabeled(args, c.delimiter) && SwitchLetters(c, args, k, letters)
    requires i < |letters| && letters[i] != BLANK && k < |args| && args[k].spec.flag == [letters[i]]
    requires var letters' := letters[i := BLANK];
             AnyLeft(letters') ==>
               FlippedTo(c, args[k := Flip(args[k])], letters',
                         Offer(c, args[k := Flip(args[k])], false, k + 1, [DASH] + letters', rest))
    ensures FlippedTo(c, args, letters, Offer(c, args, false, k, [DASH] + letters, rest))
  {
    OwnTurn(c, args, k, letters, i, rest);
    LettersMoveOn(c, args, k, letters, i);
    if AnyLeft(letters[i := BLANK]) {
      FlippedSplit(c, args, k, letters, i);
    } else {
      LastFlipped(c, args, k, letters, i);
    }
  }

  lemma LastFlipped(c: Config, args: seq<ArgState>, k: nat, letters: string, i: nat)
    requires WellLabeled(args, c.delimiter) && SwitchLetters(c, args, k, letters)
    requires i < |letters| && !AnyLeft(letters[i := BLANK]) && letters[i] != BLANK && k < |args|
      && args[k].spec.flag == [letters[i]]
    ensures Flipped(args, letters) == args[k := Flip(args[k])]
  {
    LettersMoveOn(c, args, k, letters, i);
    FlippedSplit(c, args, k, letters, i);
    WellLabeledKept(args, args[k := Flip(args[k])], c.delimiter);
    NothingFlipped(c, args[k := Flip(args[k])], letters[i := BLANK]);
  }

  lemma FlipPassed(c: Config, args: seq<ArgState>, k: nat, letters: string, rest: seq<string>)
    requires k < |args|
    requires Process(args[k], c.delimiter, false, [DASH] + letters, rest)
          == NotMine(args[k], [DASH] + letters, false)
    ensures Offer(c, args, false, k, [DASH] + letters, rest)
         == Offer(c, args, false, k + 1, [DASH] + letters, rest)
  {
    assert args[k := args[k]] == args;
  }

  lemma OwnerLetter(c: Config, args: seq<ArgState>, k: nat, letters: string, i: nat)
    requires WellLabeled(args, c.delimiter) && k < |args| && !args[k].spec.kind.Unlabeled()
    requires i < |letters| && args[k].spec.flag != "" && args[k].spec.flag[0] == letters[i]
    ensures letters[i] != BLANK && args[k].spec.flag == [letters[i]]
  {
    assert args[k].spec.flag == [letters[i]];
  }

  lemma OwnTurnGoesOn(c: Config, args: seq<ArgState>, k: nat, letters: string, i: nat)
    requires WellLabeled(args, c.delimiter) && SwitchLetters(c, args, k, letters)
    requires i < |letters| && letters[i] != BLANK && k < |args| && args[k].spec.flag == [letters[i]]
    ensures WellLabeled(args[k := Flip(args[k])], c.delimiter)
    ensures SwitchLetters(c, args[k := Flip(args[k])], k + 1, letters[i := BLANK])
  {
    LettersMoveOn(c, args, k, letters, i);
    WellLabeledKept(args, args[k := Flip(args[k])], c.delimiter);
  }

  /** A combined token flips exactly the switches among its letters, each once,
      and the switch that eats the last letter takes the token. */
  lemma {:induction false} OfferFlips(c: Config, args: seq<ArgState>, k: nat, letters: string, rest: seq<string>)
    requires WellLabeled(args, c.delimiter) && k <= |args| && SwitchLetters(c, args, k, letters)
    requires AnyLeft(letters)
    ensures FlippedTo(c, args, letters, Offer(c, args, false, k, [DASH] + letters, rest))
    decreases |args| - k
  {
    OwnerAhead(c, args, k, letters);
    var a := args[k];
    if a.spec.flag != "" && a.spec.flag[0] in letters {
      var i :| 0 <= i < |letters| && letters[i] == a.spec.flag[0];
      OwnerLetter(c, args, k, letters, i);
      var letters' := letters[i := BLANK];
      if AnyLeft(letters') {
        OwnTurnGoesOn(c, args, k, letters, i);
        OfferFlips(c, args[k := Flip(a)], k + 1, letters', rest);
      }
      OwnTurnFlips(c, args, k, letters, i, rest);
    } else {
      OtherTurn(c, args, k, letters, rest);
      OfferFlips(c, args, k + 1, letters, rest);
      FlipPassed(c, args, k, letters, rest);
    }
  }

  ghost predicate Owned(c: Config, args: seq<ArgState>, letter: char) {
    exists j :: 0 <= j && OwnsLetter(c, args, j, letter)
  }

  // Distinct letters, each the flag of a plain switch.
  ghost predicate PlainLetters(c: Config, args: seq<ArgState>, letters: string) {
    && (forall i, j :: 0 <= i < j < |letters| ==> letters[i] != letters[j])
    && (forall i :: 0 <= i < |letters| ==> Owned(c, args, letters[i]))
  }

  lemma PlainLettersSwitch(c: Config, args: seq<ArgState>, letters: string)
    requires WellLabeled(args, c.delimiter) && PlainLetters(c, args, letters)
    ensures SwitchLetters(c, args, 0, letters)
    ensures letters != "" ==> AnyLeft(letters)
  {
    forall i | 0 <= i < |letters| ensures letters[i] != BLANK {
      assert Owned(c, args, letters[i]);
      var j :| 0 <= j && OwnsLetter(c, args, j, letters[i]);
      assert GoodLabel(args[j].spec, c.delimiter);
    }
    assert letters != "" ==> letters[0] != BLANK;
  }

  /** One combined token, one turn of the parser: the switches are flipped and
      nothing else changes. */
  lemma StepFlips(c: Config, s: State, letters: string, rest: seq<string>)
    requires WellLabeled(s.args, c.delimiter) && !s.ignore && PlainLetters(c, s.args, letters) && letters != ""
    ensures Step(c, s, [DASH] + letters, rest) == Next(State(Flipped(s.args, letters), false, s.count), 0)
  {
    PlainLettersSwitch(c, s.args, letters);
    OfferFlips(c, s.args, 0, letters, rest);
  }

  // The tokens `-a`, `-b`, `-c`.
  function Separate(letters: string): (tokens: seq<string>)
    ensures |tokens| == |letters|
  {
    seq(|letters|, i requires 0 <= i < |letters| => [DASH, letters[i]])
  }

  lemma LettersLeft(c: Config, args: seq<ArgState>, letters: string)
    requires PlainLetters(c, args, letters) && letters != ""
    ensures PlainLetters(c, args, letters[..1])
    ensures PlainLetters(c, Flipped(args, letters[..1]), letters[1..])
  {
    var first, others := letters[..1], letters[1..];
    var args' := Flipped(args, first);
    forall i | 0 <= i < |others| ensures Owned(c, args', others[i]) {
      assert Owned(c, args, letters[i + 1]) && others[i] == letters[i + 1] && others[i] !in first;
      var j :| 0 <= j && OwnsLetter(c, args, j, letters[i + 1]);
      assert OwnsLetter(c, args', j, others[i]);
    }
  }

  lemma FlippedInTurn(args: seq<ArgState>, letters: string)
    requires letters != "" && forall i, j :: 0 <= i < j < |letters| ==> letters[i] != letters[j]
    ensures Flipped(Flipped(args, letters[..1]), letters[1..]) == Flipped(args, letters)
    ensures SameShapes(args, Flipped(args, letters[..1]))
  {
    var first, others := letters[..1], letters[1..];
    forall f | f in letters ensures f in first <==> f !in others {
      var i :| 0 <= i < |letters| && letters[i] == f;
      if i > 0 { assert others[i - 1] == f; }
    }
    assert letters == first + others;
  }

  // One turn that takes a single token.
  lemma RunOne(c: Config, s: State, token: string, rest: seq<string>, s': State)
    requires Step(c, s, token, rest) == Next(s', 0)
    ensures Run(c, s, [token] + rest) == Run(c, s', rest)
  {
    var tokens := [token] + rest;
    assert tokens[0] == token && tokens[1..] == rest;
  }

  lemma CombinedFlip(c: Config, s: State, letters: string, rest: seq<string>)
    requires WellLabeled(s.args, c.delimiter) && !s.ignore && PlainLetters(c, s.args, letters) && letters != ""
    ensures Run(c, s, [[DASH] + letters] + rest)
         == Run(c, State(Flipped(s.args, letters), false, s.count), rest)
  {
    StepFlips(c, s, letters, rest);
    RunOne(c, s, [DASH] + letters, rest, State(Flipped(s.args, letters), false, s.count));
  }

  lemma SeparateFirst(c: Config, s: State, letters: string, rest: seq<string>)
    requires WellLabeled(s.args, c.delimiter) && !s.ignore && letters != ""
    requires PlainLetters(c, s.args, letters[..1])
    ensures Run(c, s, Separate(letters) + rest)
         == Run(c, State(Flipped(s.args, letters[..1]), false, s.count), Separate(letters[1..]) + rest)
  {
    assert [DASH] + letters[..1] == [DASH, letters[0]];
    assert Separate(letters) == [[DASH, letters[0]]] + Separate(letters[1..]);
    assert Separate(letters) + rest == [[DASH] + letters[..1]] + (Separate(letters[1..]) + rest);
    CombinedFlip(c, s, letters[..1], Separate(letters[1..]) + rest);
  }

  lemma {:induction false} SeparateFlip(c: Config, s: State, letters: string, rest: seq<string>)
    requires WellLabeled(s.args, c.delimiter) && !s.ignore && PlainLetters(c, s.args, letters)
    ensures Run(c, s, Separate(letters) + rest) == Run(c, State(Flipped(s.args, letters), false, s.count), rest)
    decreases |letters|
  {
    if letters == "" {
      NothingFlipped(c, s.args, letters);
      assert Separate(letters) + rest == rest;
    } else {
      LettersLeft(c, s.args, letters);
      FlippedInTurn(s.args, letters);
      WellLabeledKept(s.args, Flipped(s.args, letters[..1]), c.delimiter);
      SeparateFirst(c, s, letters, rest);
      SeparateFlip(c, State(Flipped(s.args, letters[..1]), false, s.count), letters[1..], rest);
    }
  }

  /** `-abc` and the same switches given one by one, in any order, lead to the
      same state and so to the same end, whatever tokens follow. */
  lemma CombiningKeepsMeaning(c: Config, s: State, letters: string, order: string, rest: seq<string>)
    requires WellLabeled(s.args, c.delimiter) && !s.ignore
    requires letters != "" && PlainLetters(c, s.args, letters)
    requires PlainLetters(c, s.args, order) && forall f :: f in letters <==> f in order
    ensures Run(c, s, [[DASH] + letters] + rest) == Run(c, s, Separate(order) + rest)
    ensures Run(c, s, [[DASH] + letters] + rest)
         == Run(c, State(Flipped(s.args, letters), false, s.count), rest)
  {
    CombinedFlip(c, s, letters, rest);
    SeparateFlip(c, s, order, rest);
    assert Flipped(s.args, letters) == Flipped(s.args, order);
  }
}
