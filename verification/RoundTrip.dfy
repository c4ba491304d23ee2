/** Printing a command line and parsing it back. Any values for any of the
    value arguments, by flag or by name, then `--` and any words, come back as
    they were. */
module RoundTrip {
  import opened Args
  import opened Scan
  import opened Labels
  import C = Combining
  import A = Acceptance

  /** One option to print: the position of its argument, whether to use the
      flag or the long name, and its value. */
  datatype Option = Option(at: nat, byFlag: bool, value: string)

  function Key(s: Spec, byFlag: bool): string {
    if byFlag then [DASH] + s.flag else [DASH, DASH] + s.name
  }

  // `-f v` when the delimiter is a space, `-f=v` otherwise.
  function PrintOption(s: Spec, o: Option, delimiter: char): seq<string> {
    if delimiter == ' ' then [Key(s, o.byFlag), o.value]
    else [Key(s, o.byFlag) + [delimiter] + o.value]
  }

  function PrintOptions(args: seq<ArgState>, options: seq<Option>, delimiter: char): seq<string>
    requires forall i :: 0 <= i < |options| ==> options[i].at < |args|
  {
    if options == [] then []
    else PrintOption(args[options[0].at].spec, options[0], delimiter) + PrintOptions(args, options[1..], delimiter)
  }

  // What the printer must be given: value arguments that are not yet set, each
  // at most once (a MultiArg as often as wanted), with a flag if the flag is
  // used; with a delimiter other than a space the value must not be empty and
  // must not hold the blank char.
  ghost predicate Printable(args: seq<ArgState>, o: Option, delimiter: char) {
    && o.at < |args| && args[o.at].spec.kind.TakesValue() && args[o.at].spec.visitor.NoVisitor?
    && (args[o.at].spec.kind.Value? ==> !args[o.at].alreadySet)
    && (o.byFlag ==> args[o.at].spec.flag != "")
    && BLANK !in args[o.at].spec.name
    && (delimiter != ' ' ==> o.value != "" && BLANK !in o.value)
  }

  ghost predicate AllPrintable(args: seq<ArgState>, options: seq<Option>, delimiter: char) {
    && (forall i :: 0 <= i < |options| ==> Printable(args, options[i], delimiter))
    && (forall i, j :: 0 <= i < j < |options| && options[i].at == options[j].at ==>
          !args[options[i].at].spec.kind.Value?)
  }

  // None of the arguments is in an xor list.
  ghost predicate Free(c: Config, args: seq<ArgState>, at: nat)
    requires at < |args|
  {
    GroupOf(c.groups, args[at].spec.id) == |c.groups|
  }

  /** The first token printed names its argument and nobody else. */
  lemma KeyNames(s: Spec, o: Option, delimiter: char)
    requires GoodLabel(s, delimiter) && delimiter != DASH && delimiter != BLANK
    requires s.kind.TakesValue() && (o.byFlag ==> s.flag != "") && BLANK !in s.name
    requires delimiter != ' ' ==> BLANK !in o.value
    ensures var token := PrintOption(s, o, delimiter)[0];
            && Names(s, token, delimiter)
            && ValuePart(token, delimiter) == if delimiter == ' ' then "" else o.value
  {
    var key := Key(s, o.byFlag);
    var token := PrintOption(s, o, delimiter)[0];
    assert |key| >= 2 && delimiter !in key && forall i :: 0 <= i < |key| ==> key[i] != BLANK;
    if delimiter == ' ' {
      assert FirstIndex(token, delimiter, 0) == |token|;
      assert token[..|token|] == token;
    } else {
      assert token[|key|] == delimiter && forall i :: 0 <= i < |key| ==> token[i] == key[i];
      assert FirstIndex(token, delimiter, 0) == |key|;
      assert token[..|key|] == key && token[|key| + 1..] == o.value;
      assert forall i :: |key| < i < |token| ==> token[i] == o.value[i - |key| - 1];
    }
    assert !HasBlanks(token);
  }

  // A token that names the argument at position j reaches it untouched.
  lemma {:induction false} OfferReaches(c: Config, args: seq<ArgState>, k: nat, j: nat, token: string,
                                        rest: seq<string>)
    requires WellLabeled(args, c.delimiter) && k <= j < |args| && !args[j].spec.kind.Unlabeled()
    requires Names(args[j].spec, token, c.delimiter)
    ensures Offer(c, args, false, k, token, rest) == Offer(c, args, false, j, token, rest)
    decreases j - k
  {
    if k == j {
    } else {
      NamesUnique(args[j].spec, args[k].spec, token, c.delimiter);
      C.StrangerPasses(args[k], c.delimiter, token, rest);
      assert args[k := args[k]] == args;
      OfferReaches(c, args, k + 1, j, token, rest);
    }
  }

  function Weight(a: ArgState): int { if a.IsRequired() then 1 else 0 }

  function AfterOption(s: State, o: Option): State
    requires o.at < |s.args|
  {
    var a := Store(s.args[o.at], o.value);
    State(s.args[o.at := a], false, s.count + Weight(a))
  }

  /** One printed option, one turn of the parser: the value is stored. */
  lemma StepOption(c: Config, s: State, o: Option, rest: seq<string>)
    requires WellLabeled(s.args, c.delimiter) && !s.ignore
    requires Printable(s.args, o, c.delimiter) && Free(c, s.args, o.at)
    ensures Run(c, s, PrintOption(s.args[o.at].spec, o, c.delimiter) + rest)
         == Run(c, AfterOption(s, o), rest)
  {
    var tokens := PrintOption(s.args[o.at].spec, o, c.delimiter) + rest;
    OptionOffered(c, s, o, rest);
    assert c.delimiter == ' ' ==> tokens[2..] == rest;
    assert c.delimiter != ' ' ==> tokens[1..] == rest;
  }

  // The first token of a printed option goes to its argument.
  lemma OptionOffered(c: Config, s: State, o: Option, rest: seq<string>)
    requires WellLabeled(s.args, c.delimiter) && !s.ignore
    requires Printable(s.args, o, c.delimiter) && Free(c, s.args, o.at)
    ensures var tokens := PrintOption(s.args[o.at].spec, o, c.delimiter) + rest;
      Step(c, s, tokens[0], tokens[1..]) == Next(AfterOption(s, o), if c.delimiter == ' ' then 1 else 0)
  {
    var a := s.args[o.at];
    var tokens := PrintOption(a.spec, o, c.delimiter) + rest;
    KeyNames(a.spec, o, c.delimiter);
    OfferReaches(c, s.args, 0, o.at, tokens[0], tokens[1..]);
    assert c.delimiter == ' ' ==> tokens[1..][0] == o.value;
    OptionStored(a, c.delimiter, o, tokens[1..]);
  }

  lemma OptionStored(a: ArgState, delimiter: char, o: Option, rest: seq<string>)
    requires GoodLabel(a.spec, delimiter) && delimiter != DASH && delimiter != BLANK
    requires a.spec.kind.TakesValue() && a.spec.visitor.NoVisitor? && (a.spec.kind.Value? ==> !a.alreadySet)
    requires (o.byFlag ==> a.spec.flag != "") && BLANK !in a.spec.name
    requires delimiter != ' ' ==> o.value != "" && BLANK !in o.value
    requires delimiter == ' ' ==> rest != [] && rest[0] == o.value
    ensures Process(a, delimiter, false, PrintOption(a.spec, o, delimiter)[0], rest)
         == Went(true, Store(a, o.value), PrintOption(a.spec, o, delimiter)[0],
                 if delimiter == ' ' then 1 else 0, false)
  {
    KeyNames(a.spec, o, delimiter);
    NamedStored(a, delimiter, PrintOption(a.spec, o, delimiter)[0], rest);
  }

  // A token that names a value argument stores its own value, or the next token.
  lemma NamedStored(a: ArgState, delimiter: char, token: string, rest: seq<string>)
    requires a.spec.kind.TakesValue() && a.spec.visitor.NoVisitor? && (a.spec.kind.Value? ==> !a.alreadySet)
    requires Names(a.spec, token, delimiter)
    ensures var v := ValuePart(token, delimiter);
      && (v != "" ==> Process(a, delimiter, false, token, rest) == Went(true, Store(a, v), token, 0, false))
      && (v == "" && delimiter == ' ' && rest != [] ==>
            Process(a, delimiter, false, token, rest) == Went(true, Store(a, rest[0]), token, 1, false))
  {
  }

  // The values printed for one argument, in order.
  function PrintedValues(options: seq<Option>, at: nat): seq<string> {
    if options == [] then []
    else (if options[0].at == at then [options[0].value] else []) + PrintedValues(options[1..], at)
  }

  // An argument that has received these values.
  function Received(a: ArgState, given: seq<string>): ArgState {
    if given == [] then a
    else if a.spec.kind.Collects() then a.(alreadySet := true, values := a.values + given)
    else a.(alreadySet := true, value := given[|given| - 1])
  }

  function Assigned(args: seq<ArgState>, options: seq<Option>): (r: seq<ArgState>)
    ensures |r| == |args|
  {
    seq(|args|, j requires 0 <= j < |args| => Received(args[j], PrintedValues(options, j)))
  }

  function OptionsWeight(s: State, options: seq<Option>): int
    requires forall i :: 0 <= i < |options| ==> options[i].at < |s.args|
    decreases |options|
  {
    if options == [] then s.count else OptionsWeight(AfterOption(s, options[0]), options[1..])
  }

  lemma {:induction false} PrintOptionsKept(args: seq<ArgState>, args': seq<ArgState>, options: seq<Option>,
                                            delimiter: char)
    requires SameShapes(args, args')
    requires forall i :: 0 <= i < |options| ==> options[i].at < |args|
    ensures PrintOptions(args, options, delimiter) == PrintOptions(args', options, delimiter)
  {
    if options == [] {
    } else {
      PrintOptionsKept(args, args', options[1..], delimiter);
    }
  }

  lemma AssignedInTurn(args: seq<ArgState>, options: seq<Option>)
    requires options != [] && options[0].at < |args|
    ensures Assigned(args[options[0].at := Store(args[options[0].at], options[0].value)], options[1..])
         == Assigned(args, options)
  {
    var o := options[0];
    var args' := args[o.at := Store(args[o.at], o.value)];
    forall j | 0 <= j < |args|
      ensures Received(args'[j], PrintedValues(options[1..], j)) == Received(args[j], PrintedValues(options, j))
    {
      var later := PrintedValues(options[1..], j);
      if j == o.at {
        assert PrintedValues(options, j) == [o.value] + later;
        assert args[j].values + [o.value] + later == args[j].values + ([o.value] + later);
      } else {
        assert PrintedValues(options, j) == later;
      }
    }
  }

  lemma PrintableAfter(args: seq<ArgState>, options: seq<Option>, delimiter: char)
    requires AllPrintable(args, options, delimiter) && options != []
    ensures AllPrintable(args[options[0].at := Store(args[options[0].at], options[0].value)], options[1..], delimiter)
  {
    var args' := args[options[0].at := Store(args[options[0].at], options[0].value)];
    forall i | 0 <= i < |options[1..]| ensures Printable(args', options[1..][i], delimiter) {
      assert Printable(args, options[i + 1], delimiter);
    }
  }

  lemma FirstOption(c: Config, s: State, options: seq<Option>, rest: seq<string>)
    requires WellLabeled(s.args, c.delimiter) && !s.ignore && options != []
    requires AllPrintable(s.args, options, c.delimiter) && Free(c, s.args, options[0].at)
    ensures var s' := AfterOption(s, options[0]);
            Run(c, s, PrintOptions(s.args, options, c.delimiter) + rest)
            == Run(c, s', PrintOptions(s'.args, options[1..], c.delimiter) + rest)
  {
    var o := options[0];
    var first := PrintOption(s.args[o.at].spec, o, c.delimiter);
    var others := PrintOptions(s.args, options[1..], c.delimiter);
    assert first + others + rest == first + (others + rest);
    StepOption(c, s, o, others + rest);
    PrintOptionsKept(s.args, AfterOption(s, o).args, options[1..], c.delimiter);
  }

  lemma {:induction false} RunOptions(c: Config, s: State, options: seq<Option>, rest: seq<string>)
    requires WellLabeled(s.args, c.delimiter) && !s.ignore
    requires AllPrintable(s.args, options, c.delimiter)
    requires forall i :: 0 <= i < |options| ==> Free(c, s.args, options[i].at)
    ensures Run(c, s, PrintOptions(s.args, options, c.delimiter) + rest)
         == Run(c, State(Assigned(s.args, options), false, OptionsWeight(s, options)), rest)
    decreases |options|
  {
    if options == [] {
      assert Assigned(s.args, options) == s.args;
      assert PrintOptions(s.args, options, c.delimiter) + rest == rest;
    } else {
      var s' := AfterOption(s, options[0]);
      FirstOption(c, s, options, rest);
      WellLabeledKept(s.args, s'.args, c.delimiter);
      PrintableAfter(s.args, options, c.delimiter);
      AssignedInTurn(s.args, options);
      RunOptions(c, s', options[1..], rest);
    }
  }

  // The ignore-rest switch, unset and in no xor list.
  ghost predicate EndMark(c: Config, args: seq<ArgState>, e: nat) {
    && e < |args| && args[e].spec.kind.Switch? && args[e].spec.visitor.IgnoreRest?
    && !args[e].spec.required && !args[e].alreadySet && !args[e].xorSet && Free(c, args, e)
  }

  /** `--` turns the labels off and flips its own switch. */
  lemma StepEnd(c: Config, s: State, e: nat, rest: seq<string>)
    requires WellLabeled(s.args, c.delimiter) && !s.ignore && EndMark(c, s.args, e)
    ensures Run(c, s, ["--"] + rest) == Run(c, State(s.args[e := C.Flip(s.args[e])], true, s.count), rest)
  {
    assert "--" == [DASH] + s.args[e].spec.flag;
    OfferReaches(c, s.args, 0, e, "--", rest);
    C.RunOne(c, s, "--", rest, State(s.args[e := C.Flip(s.args[e])], true, s.count));
  }

  // The first unlabeled argument, which collects every word.
  ghost predicate Collector(c: Config, args: seq<ArgState>, u: nat) {
    && u < |args| && args[u].spec.kind.UnlabeledMulti? && Free(c, args, u)
    && forall j :: 0 <= j < u ==> !args[j].spec.kind.Unlabeled() && args[j].spec.ignoreable
  }

  lemma {:induction false} OfferWord(c: Config, args: seq<ArgState>, k: nat, u: nat, word: string, rest: seq<string>)
    requires Collector(c, args, u) && k <= u && BLANK !in word
    ensures Offer(c, args, true, k, word, rest) == Offered(args[u := Store(args[u], word)], word, true, u, 0)
    decreases u - k
  {
    if k == u {
    } else {
      assert args[k := args[k]] == args;
      OfferWord(c, args, k + 1, u, word, rest);
    }
  }

  function AfterWord(s: State, u: nat, word: string): State
    requires u < |s.args|
  {
    var a := Store(s.args[u], word);
    State(s.args[u := a], true, s.count + Weight(a))
  }

  function WordsWeight(s: State, u: nat, words: seq<string>): int
    requires u < |s.args|
    decreases |words|
  {
    if words == [] then s.count else WordsWeight(AfterWord(s, u, words[0]), u, words[1..])
  }

  lemma StepWord(c: Config, s: State, u: nat, word: string, rest: seq<string>)
    requires s.ignore && Collector(c, s.args, u) && BLANK !in word
    ensures Step(c, s, word, rest) == Next(AfterWord(s, u, word), 0)
  {
    OfferWord(c, s.args, 0, u, word, rest);
  }

  lemma WordsInTurn(s: State, u: nat, words: seq<string>)
    requires u < |s.args| && words != [] && s.args[u].spec.kind.Collects()
    ensures var args' := AfterWord(s, u, words[0]).args;
            args'[u := Received(args'[u], words[1..])] == s.args[u := Received(s.args[u], words)]
  {
    assert s.args[u].values + [words[0]] + words[1..] == s.args[u].values + words;
    assert words[1..] == [] ==> words == [words[0]];
  }

  lemma CollectorAfter(c: Config, s: State, u: nat, word: string)
    requires Collector(c, s.args, u)
    ensures Collector(c, AfterWord(s, u, word).args, u)
  {
  }

  lemma {:induction false} RunWords(c: Config, s: State, u: nat, words: seq<string>)
    requires s.ignore && Collector(c, s.args, u)
    requires forall i :: 0 <= i < |words| ==> BLANK !in words[i]
    ensures Run(c, s, words)
         == Done(State(s.args[u := Received(s.args[u], words)], true, WordsWeight(s, u, words)))
    decreases |words|
  {
    if words == [] {
      assert s.args[u := s.args[u]] == s.args;
    } else {
      StepWord(c, s, u, words[0], words[1..]);
      CollectorAfter(c, s, u, words[0]);
      WordsInTurn(s, u, words);
      RunWords(c, AfterWord(s, u, words[0]), u, words[1..]);
    }
  }

  // The arguments as the printed line describes them.
  function Described(args: seq<ArgState>, options: seq<Option>, e: nat, u: nat, words: seq<string>): (r: seq<ArgState>)
    ensures |r| == |args|
  {
    seq(|args|, j requires 0 <= j < |args| =>
      if j == e then C.Flip(args[j])
      else if j == u then Received(args[j], words)
      else Received(args[j], PrintedValues(options, j)))
  }

  /** The round trip: the printed options, `--` and the words parse back to
      exactly the values, each where it belongs and in order. */
  lemma PrintedParsesBack(c: Config, s: State, options: seq<Option>, e: nat, u: nat, words: seq<string>)
    requires WellLabeled(s.args, c.delimiter) && !s.ignore
    requires AllPrintable(s.args, options, c.delimiter)
    requires forall i :: 0 <= i < |options| ==> Free(c, s.args, options[i].at)
    requires EndMark(c, s.args, e) && Collector(c, s.args, u)
    requires forall i :: 0 <= i < |words| ==> BLANK !in words[i]
    ensures var r := Run(c, s, PrintOptions(s.args, options, c.delimiter) + ["--"] + words);
            r.Done? && r.state.args == Described(s.args, options, e, u, words)
  {
    var printed := PrintOptions(s.args, options, c.delimiter);
    assert printed + ["--"] + words == printed + (["--"] + words);
    RunOptions(c, s, options, ["--"] + words);
    var s1 := State(Assigned(s.args, options), false, OptionsWeight(s, options));
    AssignedElsewhere(c, s.args, options, e, u);
    StepEnd(c, s1, e, words);
    var s2 := State(s1.args[e := C.Flip(s1.args[e])], true, s1.count);
    RunWords(c, s2, u, words);
    AsDescribed(s.args, options, e, u, words);
  }

  // Options are values of value arguments only.
  lemma {:induction false} NotGiven(args: seq<ArgState>, options: seq<Option>, at: nat)
    requires forall i :: 0 <= i < |options| ==> options[i].at < |args| && args[options[i].at].spec.kind.TakesValue()
    requires at < |args| && !args[at].spec.kind.TakesValue()
    ensures PrintedValues(options, at) == []
  {
    if options == [] {
    } else {
      NotGiven(args, options[1..], at);
    }
  }

  lemma NoneGiven(c: Config, args: seq<ArgState>, options: seq<Option>, at: nat)
    requires AllPrintable(args, options, c.delimiter) && at < |args| && !args[at].spec.kind.TakesValue()
    ensures PrintedValues(options, at) == []
  {
    forall i | 0 <= i < |options|
      ensures options[i].at < |args| && args[options[i].at].spec.kind.TakesValue()
    {
      assert Printable(args, options[i], c.delimiter);
    }
    NotGiven(args, options, at);
  }

  lemma AssignedElsewhere(c: Config, args: seq<ArgState>, options: seq<Option>, e: nat, u: nat)
    requires WellLabeled(args, c.delimiter) && AllPrintable(args, options, c.delimiter)
    requires EndMark(c, args, e) && Collector(c, args, u)
    ensures WellLabeled(Assigned(args, options), c.delimiter) && EndMark(c, Assigned(args, options), e)
    ensures Assigned(args, options)[e] == args[e] && Assigned(args, options)[u] == args[u]
    ensures Collector(c, Assigned(args, options)[e := C.Flip(args[e])], u)
  {
    NoneGiven(c, args, options, e);
    NoneGiven(c, args, options, u);
    WellLabeledKept(args, Assigned(args, options), c.delimiter);
  }

  lemma AsDescribed(args: seq<ArgState>, options: seq<Option>, e: nat, u: nat, words: seq<string>)
    requires e < |args| && u < |args| && e != u
    ensures Assigned(args, options)[e := C.Flip(args[e])][u := Received(args[u], words)]
         == Described(args, options, e, u, words)
  {
  }

  lemma DescribedSet(args: seq<ArgState>, options: seq<Option>, e: nat, u: nat, words: seq<string>)
    requires A.Built([], args) && A.Fresh(args) && e < |args| && u < |args| && args[e].spec.kind.Switch?
    ensures var out := Described(args, options, e, u, words);
      forall j :: 0 <= j < |args| ==>
        && out[j].spec == args[j].spec
        && (args[j].spec.required ==> (out[j].IsSet() <==>
          if j == u then words != [] else PrintedValues(options, j) != []))
  {
    assert forall j :: 0 <= j < |args| ==> A.Untouched(args[j]) && !A.Grouped([], args[j].spec.id);
  }

  lemma UngroupedDecided(args: seq<ArgState>)
    ensures A.AllDecided([], args) <==> forall j :: 0 <= j < |args| && args[j].spec.required ==> args[j].IsSet()
  {
    assert forall j :: 0 <= j < |args| ==> !A.Grouped([], args[j].spec.id);
  }

  /** Whether the printed line is accepted is decided by what was printed: with
      no xor lists and from fresh arguments it is, if and only if every required
      argument was given a value. */
  lemma PrintedAccepted(c: Config, args: seq<ArgState>, options: seq<Option>, e: nat, u: nat, words: seq<string>)
    requires WellLabeled(args, c.delimiter) && AllPrintable(args, options, c.delimiter)
    requires c.groups == [] && A.Built([], args) && A.Fresh(args)
    requires EndMark(c, args, e) && Collector(c, args, u)
    requires forall i :: 0 <= i < |words| ==> BLANK !in words[i]
    ensures var line := PrintOptions(args, options, c.delimiter) + ["--"] + words;
            Parse(c, State(args, false, 0), |A.RequiredIds(args)|, line).Accepted?
            <==> forall j :: 0 <= j < |args| && args[j].spec.required ==>
                   if j == u then words != [] else PrintedValues(options, j) != []
  {
    var line := PrintOptions(args, options, c.delimiter) + ["--"] + words;
    PrintedParsesBack(c, State(args, false, 0), options, e, u, words);
    A.AcceptanceExact(c, args, false, line);
    DescribedSet(args, options, e, u, words);
    UngroupedDecided(Described(args, options, e, u, words));
  }
}
