/** The argument objects: the fields that parsing updates in place, and the
    loops that read and overwrite tokens. Each method is proved against the
    functions of module Args. */
module ArgObjects {
  import opened Args
  import Labels

  // The two static fields of Arg, shared by the whole process.
  class Globals {
    var ignoreRest: bool
    var delimiter: char

    constructor (delimiter: char)
      ensures !ignoreRest && this.delimiter == delimiter
    {
      ignoreRest, this.delimiter := false, delimiter;
    }
  }

  /** When the counting loop ends: unless the flag is the blank char and the
      delimiter is not. */
  predicate Countable(flag: string, delimiter: char) {
    flag != "" && flag[0] == BLANK ==> delimiter == BLANK
  }

  /** Where the counting loop ends: it is not begun, or each turn uses up a letter
      or ends the search. */
  predicate CountingEnds(s: Spec, token: string, delimiter: char, ignore: bool) {
    || Countable(s.flag, delimiter)
    || (s.ignoreable && ignore) || s.Matches(token) || !Combines(s.flag, token, delimiter)
  }

  /** One letter eaten: one fewer is left, and eating the rest gives the same
      token. This is the measure of the counting loop. */
  lemma EatOne(flag: string, s: string, delimiter: char)
    requires Countable(flag, delimiter) && delimiter != BLANK
    ensures Combines(flag, s, delimiter) ==>
      && LetterCount(flag[0], BlankFirst(flag[0], s)) == LetterCount(flag[0], s) - 1
      && BlankAll(flag[0], BlankFirst(flag[0], s)) == BlankAll(flag[0], s)
      && Combinable(BlankFirst(flag[0], s), delimiter)
  {
    if Combines(flag, s, delimiter) {
      Labels.OccurrencesUpdate(flag[0], s, FirstIndex(s, flag[0], 1), BLANK, 1);
      var t := BlankFirst(flag[0], s);
      assert forall i :: 0 <= i < |t| ==> t[i] == s[i] || t[i] == BLANK;
    }
  }

  /** A flag that is the blank char itself is never used up: the loop finds the
      same token again, for ever. */
  lemma BlankFlagNeverUsedUp(flag: string, s: string, delimiter: char)
    requires !Countable(flag, delimiter) && Combines(flag, s, delimiter)
    ensures BlankFirst(flag[0], s) == s && Combines(flag, BlankFirst(flag[0], s), delimiter)
  {
    var k := FirstIndex(s, BLANK, 1);
    assert s[k := BLANK] == s;
  }

  /** With the blank char as delimiter the loop ends, but after one letter: the
      rest of the token is not counted. */
  lemma BlankDelimiterCountsOne(flag: string, s: string)
    requires Combines(flag, s, BLANK)
    ensures !Combines(flag, BlankFirst(flag[0], s), BLANK)
    ensures LetterCount(flag[0], BlankFirst(flag[0], s)) == LetterCount(flag[0], s) - 1
  {
    var k := FirstIndex(s, flag[0], 1);
    assert BlankFirst(flag[0], s)[k] == BLANK && s[k] != BLANK;
    Labels.OccurrencesUpdate(flag[0], s, k, BLANK, 1);
  }

  // How a call of processArg ends.
  datatype Response = Threw(error: Error) | LeftProgram | Returned(matched: bool)

  predicate BeginsWith(s: string, prefix: string) { |prefix| <= |s| && s[..|prefix|] == prefix }

  // What the base constructor refuses with an exception.
  predicate Specified(flag: string, name: string) {
    && |flag| <= 1
    && (name != "ignore_rest" ==> flag != "-" && flag != " ")
    && !BeginsWith(name, "-") && ' ' !in name
  }

  /** An argument is created only if its specification passes: with the space as
      delimiter that is all a label needs but a name, and a flag that is not the
      blank char. The answer is empty when an exception is raised. */
  method Create(id: nat, kind: Kind, flag: string, name: string, description: string,
                required: bool, visitor: Visitor, ignoreable: bool, on: bool, count: int, value: string)
    returns (a: seq<Arg>)
    ensures |a| == if Specified(flag, name) then 1 else 0
    ensures forall x :: x in a ==> fresh(x) && x.Snap() == ArgState(
      Args.Spec(id, kind, flag, name, description, "required", visitor, ignoreable, required),
      false, false, false, on, count, value, [])
    ensures name != "" && name != "ignore_rest" && flag != [BLANK] && ignoreable && !visitor.IgnoreRest? ==>
      forall x :: x in a ==> Labels.GoodLabel(x.Spec(), ' ')
  {
    if |flag| > 1 { return []; }
    if name != "ignore_rest" && (flag == "-" || flag == "--" || flag == " ") { return []; }
    if BeginsWith(name, "-") || BeginsWith(name, "--") || ' ' in name { return []; }
    var x := new Arg(id, kind, flag, name, description, required, visitor, ignoreable, on, count, value);
    return [x];
  }

  class Arg {
    const id: nat
    const kind: Kind
    const flag: string
    const name: string
    const description: string
    const visitor: Visitor
    const ignoreable: bool
    var requireLabel: string
    var required: bool
    var alreadySet: bool
    var xorSet: bool
    var allowMore: bool
    var on: bool
    var count: int
    var value: string
    var values: seq<string>

    function Spec(): Spec
      reads this
    {
      Args.Spec(id, kind, flag, name, description, requireLabel, visitor, ignoreable, required)
    }

    function Snap(): ArgState
      reads this
    {
      ArgState(Spec(), alreadySet, xorSet, allowMore, on, count, value, values)
    }

    // The checks of the specification come before; see Create.
    constructor (id: nat, kind: Kind, flag: string, name: string, description: string,
                 required: bool, visitor: Visitor, ignoreable: bool, on: bool, count: int, value: string)
      ensures Snap() == ArgState(
        Args.Spec(id, kind, flag, name, description, "required", visitor, ignoreable, required),
        false, false, false, on, count, value, [])
    {
      this.id, this.kind, this.flag, this.name := id, kind, flag, name;
      this.description, this.visitor, this.ignoreable := description, visitor, ignoreable;
      requireLabel, this.required := "required", required;
      alreadySet, xorSet, allowMore := false, false, false;
      this.on, this.count, this.value, values := on, count, value, [];
    }

    method ForceRequired()
      modifies this
      ensures Snap() == old(Snap()).(spec := old(Spec()).(required := true))
    {
      required := true;
    }

    method SetRequireLabel(text: string)
      modifies this
      ensures Snap() == old(Snap()).(spec := old(Spec()).(requireLabel := text))
    {
      requireLabel := text;
    }

    method XorSet()
      modifies this
      ensures Snap() == old(Snap()).(alreadySet := true, xorSet := true)
    {
      alreadySet, xorSet := true, true;
    }

    // Whether more values may come; the answer is true from the second time on.
    method AllowMore() returns (more: bool)
      modifies this
      ensures more == (kind.Collects() && old(allowMore))
      ensures Snap() == if kind.Collects() then old(Snap()).(allowMore := true) else old(Snap())
    {
      if kind.Collects() {
        more := allowMore;
        allowMore := true;
      } else {
        more := false;
      }
    }

    method FindBlank(s: string) returns (found: bool)
      ensures found == HasBlanks(s)
    {
      var i := 1;
      while i < |s|
        invariant 1 <= i
        invariant forall j :: 1 <= j < i && j < |s| ==> s[j] != BLANK
      {
        if s[i] == BLANK { return true; }
        i := i + 1;
      }
      return false;
    }

    // Splits a token into its flag and its value.
    method TrimFlag(token: string, delimiter: char) returns (flagPart: string, valuePart: string)
      ensures flagPart == FlagPart(token, delimiter) && valuePart == ValuePart(token, delimiter)
    {
      var stop := 0;
      var i := 0;
      while i < |token|
        invariant 0 <= i <= |token|
        invariant stop == 0 && forall j :: 0 <= j < i ==> token[j] != delimiter
      {
        if token[i] == delimiter {
          stop := i;
          break;
        }
        i := i + 1;
      }
      assert FirstIndex(token, delimiter, 0) == i;
      if stop > 1 {
        flagPart, valuePart := token[..stop], token[stop + 1..];
      } else {
        flagPart, valuePart := token, "";
      }
    }

    // Eats the first letter of the token that is this switch's flag.
    method CombinedSwitchesMatch(args: array<string>, i: nat, delimiter: char) returns (found: bool)
      requires i < args.Length
      modifies args
      ensures found == Combines(flag, old(args[i]), delimiter)
      ensures found ==> args[..] == old(args[..])[i := BlankFirst(flag[0], old(args[i]))]
      ensures !found ==> args[..] == old(args[..])
    {
      var s := args[i];
      if |s| > 0 && s[0] != DASH { return false; }
      assert |s| >= 2 ==> s[..2] == [s[0], s[1]];
      if |s| >= 2 && s[..2] == [DASH, DASH] { return false; }
      if delimiter in s { return false; }
      var k := 1;
      while k < |s|
        invariant 1 <= k
        invariant args[..] == old(args[..])
        invariant forall j :: 1 <= j < k && j < |s| ==> !(|flag| > 0 && s[j] == flag[0] && flag[0] != DASH)
      {
        if |flag| > 0 && s[k] == flag[0] && flag[0] != DASH {
          assert FirstIndex(s, flag[0], 1) == k;
          args[i] := s[k := BLANK];
          return true;
        }
        k := k + 1;
      }
      return false;
    }

    method LastCombined(s: string) returns (last: bool)
      ensures last == AllBlank(s)
    {
      var i := 1;
      while i < |s|
        invariant 1 <= i
        invariant forall j :: 1 <= j < i && j < |s| ==> s[j] == BLANK
      {
        if s[i] != BLANK { return false; }
        i := i + 1;
      }
      return true;
    }

    method Visit(g: Globals, matched: bool) returns (r: Response)
      modifies g
      ensures r == if visitor.Leave? then LeftProgram else Returned(matched)
      ensures g.delimiter == old(g.delimiter)
      ensures g.ignoreRest == (old(g.ignoreRest) || visitor.IgnoreRest?)
    {
      match visitor {
        case NoVisitor => r := Returned(matched);
        case IgnoreRest => g.ignoreRest := true; r := Returned(matched);
        case Leave => r := LeftProgram;
      }
    }

    // The call has done to the heap what the outcome says.
    twostate predicate Did(o: Outcome, r: Response, next: nat, i: nat, args: array<string>, g: Globals)
      requires i < args.Length
      reads this, args, g
    {
      && g.delimiter == old(g.delimiter)
      && match o
         case Failed(e) => r == Threw(e)
         case Quit => r == LeftProgram
         case Went(matched, a, token, extra, ignore) =>
           && r == Returned(matched) && Snap() == a && next == i + extra
           && args[..] == old(args[..])[i := token] && g.ignoreRest == ignore
    }

    // commonProcessing of SwitchArg
    method CommonProcessing(g: Globals) returns (r: Response)
      modifies this, g
      ensures g.delimiter == old(g.delimiter)
      ensures r == match Toggle(true, old(Snap()), "", old(g.ignoreRest))
                   case Failed(e) => Threw(e)
                   case Quit => LeftProgram
                   case Went(_, _, _, _, _) => Returned(true)
      ensures r.Returned? ==>
        && Snap() == old(Snap()).(alreadySet := true, on := !old(on))
        && g.ignoreRest == (old(g.ignoreRest) || visitor.IgnoreRest?)
    {
      if xorSet { return Threw(MutuallyExclusive(id)); }
      if alreadySet { return Threw(AlreadySet(id)); }
      alreadySet := true;
      on := !on;
      r := Visit(g, true);
    }

    method ProcessSwitchArg(i: nat, args: array<string>, g: Globals) returns (r: Response, next: nat)
      requires i < args.Length && kind.Switch?
      modifies this, args, g
      ensures Did(ProcessSwitch(old(Snap()), old(g.delimiter), old(g.ignoreRest), old(args[i])), r, next, i, args, g)
    {
      next := i;
      if ignoreable && g.ignoreRest { return Returned(false), i; }
      if Spec().Matches(args[i]) {
        r := CommonProcessing(g);
        return;
      }
      var found := CombinedSwitchesMatch(args, i, g.delimiter);
      if !found { return Returned(false), i; }
      label Eaten:
      var again := CombinedSwitchesMatch(args, i, g.delimiter);
      if again { return Threw(AlreadySet(id)), i; }
      r := CommonProcessing(g);
      if r.Returned? {
        var last := LastCombined(args[i]);
        r := Returned(last);
      }
    }

    // Counts and eats every letter of the token that is this switch's flag.
    method CountCombined(i: nat, args: array<string>, delimiter: char) returns (found: bool)
      requires i < args.Length && (Combines(flag, args[i], delimiter) ==> Countable(flag, delimiter))
      modifies this, args
      ensures found == Combines(flag, old(args[i]), delimiter)
      ensures found ==>
        && Snap() == old(Snap()).(alreadySet := true,
                                  count := old(count) + LettersCounted(flag[0], old(args[i]), delimiter))
        && args[..] == old(args[..])[i := EatenAll(flag[0], old(args[i]), delimiter)]
      ensures !found ==> Snap() == old(Snap()) && args[..] == old(args[..])
    {
      ghost var token := args[i];
      if delimiter != BLANK && Combines(flag, token, delimiter) { EatOne(flag, token, delimiter); }
      found := CombinedSwitchesMatch(args, i, delimiter);
      if !found { return; }
      alreadySet := true;
      count := count + 1;
      if delimiter != BLANK { EatOne(flag, args[i], delimiter); } else { BlankDelimiterCountsOne(flag, token); }
      var more := CombinedSwitchesMatch(args, i, delimiter);
      while more
        invariant args[..] == old(args[..])[i := args[i]]
        invariant Snap() == old(Snap()).(alreadySet := true, count := count)
        invariant delimiter == BLANK ==> !more && count == old(count) + 1 && args[i] == BlankFirst(flag[0], token)
        invariant delimiter != BLANK ==>
          && |args[i]| == |token| && BlankAll(flag[0], args[i]) == BlankAll(flag[0], token)
          && Combinable(args[i], delimiter)
          && count + LetterCount(flag[0], args[i]) + (if more then 1 else 0) == old(count) + LetterCount(flag[0], token)
          && (!more ==> !Combines(flag, args[i], delimiter))
        decreases LetterCount(flag[0], args[i]), more
      {
        count := count + 1;
        EatOne(flag, args[i], delimiter);
        more := CombinedSwitchesMatch(args, i, delimiter);
      }
      if delimiter != BLANK { assert args[i] == BlankAll(flag[0], args[i]); }
    }

    method ProcessMultiSwitchArg(i: nat, args: array<string>, g: Globals) returns (r: Response, next: nat)
      requires i < args.Length && kind.MultiSwitch? && CountingEnds(Spec(), args[i], g.delimiter, g.ignoreRest)
      modifies this, args, g
      ensures Did(ProcessMultiSwitch(old(Snap()), old(g.delimiter), old(g.ignoreRest), old(args[i])),
                  r, next, i, args, g)
    {
      next := i;
      if ignoreable && g.ignoreRest { return Returned(false), i; }
      if Spec().Matches(args[i]) {
        alreadySet := true;
        count := count + 1;
        r := Visit(g, true);
        return;
      }
      var found := CountCombined(i, args, g.delimiter);
      if !found { return Returned(false), i; }
      r := Visit(g, false);
    }

    // _extractValue of ValueArg and MultiArg, for values that are strings
    method ExtractValue(v: string)
      modifies this
      ensures Snap() == Store(old(Snap()), v).(alreadySet := old(alreadySet))
    {
      if kind.Collects() { values := values + [v]; } else { value := v; }
    }

    // The value of a matched argument: from the token, or the next token.
    method TakeValue(i: nat, args: array<string>, delimiter: char, valuePart: string)
      returns (error: seq<Error>, next: nat)
      requires i < args.Length
      modifies this
      ensures error == if valuePart != "" then []
                       else if delimiter != ' ' then [NoDelimiter(id)]
                       else if i + 1 == args.Length then [MissingValue(id)] else []
      ensures error == [] ==>
        && next == (if valuePart != "" then i else i + 1) && next < args.Length
        && Snap() == Store(old(Snap()), if valuePart != "" then valuePart else args[next])
    {
      next := i;
      if delimiter != ' ' && valuePart == "" { return [NoDelimiter(id)], i; }
      if valuePart == "" {
        next := next + 1;
        if next < args.Length {
          ExtractValue(args[next]);
        } else {
          return [MissingValue(id)], i;
        }
      } else {
        ExtractValue(valuePart);
      }
      alreadySet := true;
      return [], next;
    }

    // processArg of ValueArg and of MultiArg
    method ProcessValueArg(i: nat, args: array<string>, g: Globals) returns (r: Response, next: nat)
      requires i < args.Length && kind.TakesValue()
      modifies this, args, g
      ensures Did(ProcessValue(old(Snap()), old(g.delimiter), old(g.ignoreRest), old(args[i]), old(args[i + 1..])),
                  r, next, i, args, g)
    {
      next := i;
      if ignoreable && g.ignoreRest { return Returned(false), i; }
      var blanks := FindBlank(args[i]);
      if blanks { return Returned(false), i; }
      var flagPart, valuePart := TrimFlag(args[i], g.delimiter);
      if !Spec().Matches(flagPart) { return Returned(false), i; }
      if kind.Value? && alreadySet {
        return Threw(if xorSet then MutuallyExclusive(id) else AlreadySet(id)), i;
      }
      assert i + 1 < args.Length ==> args[i + 1..][0] == args[i + 1];
      var error: seq<Error>;
      error, next := TakeValue(i, args, g.delimiter, valuePart);
      if error != [] { return Threw(error[0]), i; }
      r := Visit(g, true);
    }

    // processArg of the two unlabeled kinds
    method ProcessUnlabeledArg(i: nat, args: array<string>, g: Globals) returns (r: Response, next: nat)
      requires i < args.Length && kind.Unlabeled()
      modifies this
      ensures Did(ProcessUnlabeled(old(Snap()), old(g.ignoreRest), old(args[i])), r, next, i, args, g)
    {
      if kind.UnlabeledValue? && alreadySet { return Returned(false), i; }
      var blanks := FindBlank(args[i]);
      if blanks { return Returned(false), i; }
      ExtractValue(args[i]);
      alreadySet := true;
      return Returned(true), i;
    }

    // The virtual call.
    method ProcessArg(i: nat, args: array<string>, g: Globals) returns (r: Response, next: nat)
      requires i < args.Length && (kind.MultiSwitch? ==> CountingEnds(Spec(), args[i], g.delimiter, g.ignoreRest))
      modifies this, args, g
      ensures Did(Process(old(Snap()), old(g.delimiter), old(g.ignoreRest), old(args[i]), old(args[i + 1..])),
                  r, next, i, args, g)
    {
      match kind {
        case Switch => r, next := ProcessSwitchArg(i, args, g);
        case MultiSwitch => r, next := ProcessMultiSwitchArg(i, args, g);
        case Value => r, next := ProcessValueArg(i, args, g);
        case Multi => r, next := ProcessValueArg(i, args, g);
        case UnlabeledValue => r, next := ProcessUnlabeledArg(i, args, g);
        case UnlabeledMulti => r, next := ProcessUnlabeledArg(i, args, g);
      }
    }
  }
}
