/** One run of the parser over a token list: each token is offered to the
    arguments in list order, the taker is checked against the xor groups, and
    the number of required arguments seen is compared at the end. */
module Scan {
  import opened Args

  /** `groups` are the xor lists, by argument address. */
  datatype Config = Config(groups: seq<seq<nat>>, delimiter: char)

  datatype State = State(args: seq<ArgState>, ignore: bool, count: int)

  /** A token offered to the whole list; `taker` is |args| when nobody took it. */
  datatype Offered =
    | Refused(error: Error)
    | Leaving
    | Offered(args: seq<ArgState>, token: string, ignore: bool, taker: nat, extra: nat)

  function Offer(c: Config, args: seq<ArgState>, ignore: bool, k: nat, token: string, rest: seq<string>): Offered
    requires k <= |args|
    decreases |args| - k
  {
    if k == |args| then Offered(args, token, ignore, k, 0)
    else
      match Process(args[k], c.delimiter, ignore, token, rest)
      case Failed(e) => Refused(e)
      case Quit => Leaving
      case Went(matched, arg, t, extra, ign) =>
        if matched then Offered(args[k := arg], t, ign, k, extra)
        else Offer(c, args[k := arg], ign, k + 1, t, rest)
  }

  // The first xor list from position `from` on that holds the argument, or |groups|.
  function GroupFrom(groups: seq<seq<nat>>, id: nat, from: nat): (g: nat)
    requires from <= |groups|
    ensures from <= g <= |groups|
    ensures g < |groups| ==> id in groups[g]
    ensures forall h :: from <= h < g ==> id !in groups[h]
    decreases |groups| - from
  {
    if from == |groups| || id in groups[from] then from else GroupFrom(groups, id, from + 1)
  }

  function GroupOf(groups: seq<seq<nat>>, id: nat): nat { GroupFrom(groups, id, 0) }

  // Whether another member of the list is already set.
  ghost predicate RivalSet(args: seq<ArgState>, members: seq<nat>, id: nat) {
    exists j :: 0 <= j < |args| && args[j].spec.id in members && args[j].spec.id != id && args[j].IsSet()
  }

  ghost predicate SetId(args: seq<ArgState>, id: nat) {
    exists j :: 0 <= j < |args| && args[j].spec.id == id && args[j].IsSet()
  }

  // The first other member of the list that is set; id itself if there is none.
  ghost function Rival(args: seq<ArgState>, members: seq<nat>, id: nat): nat {
    if members == [] then id
    else if members[0] != id && SetId(args, members[0]) then members[0]
    else Rival(args, members[1..], id)
  }

  // xorSet on every member but one, and allowMore on that one.
  function Exclude(args: seq<ArgState>, members: seq<nat>, id: nat): (r: seq<ArgState>)
    ensures |r| == |args|
  {
    seq(|args|, j requires 0 <= j < |args| =>
      if args[j].spec.id !in members then args[j]
      else if args[j].spec.id != id then args[j].(alreadySet := true, xorSet := true)
      else if args[j].spec.kind.Collects() then args[j].(allowMore := true)
      else args[j])
  }

  datatype Checked = Clash(error: Error) | Counted(args: seq<ArgState>, weight: int)

  /** XorHandler::check for the argument at position k. */
  ghost function Check(groups: seq<seq<nat>>, args: seq<ArgState>, k: nat): Checked
    requires k < |args|
  {
    var a := args[k];
    var g := GroupOf(groups, a.spec.id);
    if g == |groups| then Counted(args, if a.IsRequired() then 1 else 0)
    else if RivalSet(args, groups[g], a.spec.id) then
      Clash(MutuallyExclusive(Rival(args, groups[g], a.spec.id)))
    else
      Counted(Exclude(args, groups[g], a.spec.id),
              if a.spec.kind.Collects() && a.allowMore then 0 else |groups[g]|)
  }

  datatype Stepped = Stop(error: Error) | Exit | Next(state: State, extra: nat)

  /** One turn of the outer loop of parse, on the token at the front. */
  ghost function Step(c: Config, s: State, token: string, rest: seq<string>): (r: Stepped)
    ensures r.Next? ==> SameShapes(s.args, r.state.args) && r.extra <= |rest|
  {
    OfferFrame(c, s.args, s.ignore, 0, token, rest);
    match Offer(c, s.args, s.ignore, 0, token, rest)
    case Refused(e) => Stop(e)
    case Leaving => Exit
    case Offered(args, t, ignore, k, extra) =>
      if k < |args| then
        match Check(c.groups, args, k)
        case Clash(e) => Stop(e)
        case Counted(checked, weight) => Next(State(checked, ignore, s.count + weight), extra)
      else if EmptyCombined(t) || ignore then Next(State(args, ignore, s.count), 0)
      else Stop(NoMatch(t))
  }

  datatype Scanned = Stopped(error: Error) | Exited | Done(state: State)

  /** The outer loop of parse on the tokens that are left. */
  ghost function Run(c: Config, s: State, tokens: seq<string>): Scanned
    decreases |tokens|
  {
    if tokens == [] then Done(s)
    else
      match Step(c, s, tokens[0], tokens[1..])
      case Stop(e) => Stopped(e)
      case Exit => Exited
      case Next(s', extra) =>
        Run(c, s', tokens[1 + extra..])
  }

  datatype Parsed = Rejected(error: Error) | Gone | Accepted(state: State)

  /** parse: the run, then the comparison with the number of required arguments. */
  ghost function Parse(c: Config, s: State, required: int, tokens: seq<string>): Parsed {
    match Run(c, s, tokens)
    case Stopped(e) => Rejected(e)
    case Exited => Gone
    case Done(r) =>
      if r.count < required then Rejected(MissingArgs)
      else if r.count > required then Rejected(TooManyArgs)
      else Accepted(r)
  }

  ghost predicate SameShapes(args: seq<ArgState>, args': seq<ArgState>) {
    |args| == |args'| && forall j :: 0 <= j < |args| ==> args[j].spec == args'[j].spec
  }

  lemma {:induction false} OfferFrame(c: Config, args: seq<ArgState>, ignore: bool, k: nat, token: string,
                                      rest: seq<string>)
    requires k <= |args|
    ensures var r := Offer(c, args, ignore, k, token, rest);
            r.Offered? ==>
              && SameShapes(args, r.args)
              && r.taker <= |args|
              && r.extra <= |rest|
              && (r.taker == |args| ==> r.extra == 0)
    decreases |args| - k
  {
    if k == |args| {
    } else {
      ProcessFrame(args[k], c.delimiter, ignore, token, rest);
      var r := Process(args[k], c.delimiter, ignore, token, rest);
      if r.Went? && !r.matched {
        OfferFrame(c, args[k := r.arg], r.ignore, k + 1, r.token, rest);
      }
    }
  }
}
