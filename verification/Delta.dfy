/** The change report on the R environment: which variables went away and
    which were assigned since the environment was captured. The two set
    differences behind it are taken under different orders. */
module Delta {

  /** A variable and the object it is bound to, known by its address. */
  datatype Variable = Variable(name: string, value: nat)

  // std::string's operator<
  predicate Before(a: string, b: string) {
    b != "" && (a == "" || a[0] < b[0] || (a[0] == b[0] && Before(a[1..], b[1..])))
  }

  lemma {:induction false} BeforeTotal(a: string, b: string)
    ensures a == b <==> !Before(a, b) && !Before(b, a)
    ensures !(Before(a, b) && Before(b, a))
  {
    if a != "" && b != "" && a[0] == b[0] {
      BeforeTotal(a[1..], b[1..]);
      assert a == [a[0]] + a[1..] && b == [b[0]] + b[1..];
    }
  }

  lemma {:induction false} BeforeTransitive(a: string, b: string, c: string)
    requires Before(a, b) && Before(b, c)
    ensures Before(a, c)
  {
    if a != "" && a[0] == b[0] == c[0] { BeforeTransitive(a[1..], b[1..], c[1..]); }
  }

  // compareVariablesByName, and the default order of pairs
  datatype Order = ByName | ByPair

  predicate Less(o: Order, v: Variable, w: Variable) {
    match o
    case ByName => Before(v.name, w.name)
    case ByPair => Before(v.name, w.name) || (!Before(w.name, v.name) && v.value < w.value)
  }

  predicate Same(o: Order, v: Variable, w: Variable) {
    if o.ByName? then v.name == w.name else v == w
  }

  lemma LessTotal(o: Order, v: Variable, w: Variable)
    ensures Same(o, v, w) <==> !Less(o, v, w) && !Less(o, w, v)
    ensures !(Less(o, v, w) && Less(o, w, v))
  {
    BeforeTotal(v.name, w.name);
  }

  lemma LessTransitive(o: Order, u: Variable, v: Variable, w: Variable)
    requires (Less(o, u, v) || Same(o, u, v)) && Less(o, v, w)
    ensures Less(o, u, w)
  {
    BeforeTotal(u.name, v.name);
    BeforeTotal(v.name, w.name);
    BeforeTotal(u.name, w.name);
    if Before(u.name, v.name) && Before(v.name, w.name) { BeforeTransitive(u.name, v.name, w.name); }
  }

  ghost predicate SortedBy(o: Order, vars: seq<Variable>) {
    forall i, j :: 0 <= i < j < |vars| ==> Less(o, vars[i], vars[j])
  }

  ghost predicate Present(o: Order, v: Variable, vars: seq<Variable>) {
    exists w :: w in vars && Same(o, v, w)
  }

  /** A list sorted by distinct names is sorted by pairs too, so one sort
      serves both differences. */
  lemma NameSortedIsPairSorted(vars: seq<Variable>)
    requires SortedBy(ByName, vars)
    ensures SortedBy(ByPair, vars)
  {
  }

  // std::set_difference
  function SetDifference(o: Order, a: seq<Variable>, b: seq<Variable>): seq<Variable>
    decreases |a| + |b|
  {
    if a == [] then []
    else if b == [] then a
    else if Less(o, a[0], b[0]) then [a[0]] + SetDifference(o, a[1..], b)
    else if Less(o, b[0], a[0]) then SetDifference(o, a, b[1..])
    else SetDifference(o, a[1..], b[1..])
  }

  // An element before the head of a sorted list is not in the list.
  lemma NotPresent(o: Order, v: Variable, vars: seq<Variable>)
    requires SortedBy(o, vars) && (vars != [] ==> Less(o, v, vars[0]))
    ensures !Present(o, v, vars)
  {
    forall w | w in vars ensures !Same(o, v, w) {
      var i :| 0 <= i < |vars| && vars[i] == w;
      if i > 0 { LessTransitive(o, v, vars[0], w); }
      LessTotal(o, v, w);
    }
  }

  lemma Split(vars: seq<Variable>, v: Variable)
    requires vars != []
    ensures v in vars <==> v == vars[0] || v in vars[1..]
  {
    assert vars == [vars[0]] + vars[1..];
  }

  lemma PresentSplit(o: Order, v: Variable, vars: seq<Variable>)
    requires vars != []
    ensures Present(o, v, vars) <==> Same(o, v, vars[0]) || Present(o, v, vars[1..])
  {
    if w :| w in vars && Same(o, v, w) { Split(vars, w); }
    if w :| w in vars[1..] && Same(o, v, w) { Split(vars, w); }
  }

  /** On sorted lists the difference holds exactly the elements of the first
      list that the second has no equal of. */
  lemma {:induction false} DifferenceMember(o: Order, a: seq<Variable>, b: seq<Variable>, v: Variable)
    requires SortedBy(o, a) && SortedBy(o, b)
    ensures v in SetDifference(o, a, b) <==> v in a && !Present(o, v, b)
    decreases |a| + |b|
  {
    if a == [] || b == [] {
    } else {
      Split(a, v);
      PresentSplit(o, v, b);
      LessTotal(o, a[0], b[0]);
      if Less(o, a[0], b[0]) {
        DifferenceMember(o, a[1..], b, v);
        NotPresent(o, a[0], b);
        Split([a[0]] + SetDifference(o, a[1..], b), v);
      } else if Less(o, b[0], a[0]) {
        DifferenceMember(o, a, b[1..], v);
        NotPresent(o, b[0], a);
        assert v in a ==> !Same(o, b[0], v);
      } else {
        DifferenceMember(o, a[1..], b[1..], v);
        HeadDropped(o, a, b, v);
      }
    }
  }

  lemma HeadDropped(o: Order, a: seq<Variable>, b: seq<Variable>, v: Variable)
    requires SortedBy(o, a) && SortedBy(o, b) && a != [] && b != [] && Same(o, a[0], b[0])
    ensures v in a[1..] ==> !Same(o, v, b[0])
    ensures v == a[0] ==> Present(o, v, b)
  {
    if v in a[1..] {
      var i :| 0 <= i < |a[1..]| && a[1..][i] == v;
      assert Less(o, a[0], a[i + 1]);
      LessTotal(o, a[0], v);
    }
    if v == a[0] { assert b[0] in b; }
  }

  // The difference keeps the order.
  lemma {:induction false} DifferenceSorted(o: Order, a: seq<Variable>, b: seq<Variable>)
    requires SortedBy(o, a) && SortedBy(o, b)
    ensures SortedBy(o, SetDifference(o, a, b))
    decreases |a| + |b|
  {
    if a == [] || b == [] {
    } else {
      if Less(o, a[0], b[0]) {
        var rest := SetDifference(o, a[1..], b);
        DifferenceSorted(o, a[1..], b);
        forall i | 0 <= i < |rest| ensures Less(o, a[0], rest[i]) {
          DifferenceMember(o, a[1..], b, rest[i]);
          var k :| 0 <= k < |a[1..]| && a[1..][k] == rest[i];
          assert a[k + 1] == rest[i];
        }
      } else if Less(o, b[0], a[0]) {
        DifferenceSorted(o, a, b[1..]);
      } else {
        DifferenceSorted(o, a[1..], b[1..]);
      }
    }
  }

  // The bindings of a list of variables with distinct names.
  function Bindings(vars: seq<Variable>): (m: map<string, nat>) {
    if vars == [] then map[]
    else Bindings(vars[..|vars| - 1])[vars[|vars| - 1].name := vars[|vars| - 1].value]
  }

  ghost predicate DistinctNames(vars: seq<Variable>) {
    forall i, j :: 0 <= i < j < |vars| ==> vars[i].name != vars[j].name
  }

  lemma {:induction false} BindingsHold(vars: seq<Variable>)
    requires DistinctNames(vars)
    ensures forall i :: 0 <= i < |vars| ==>
      vars[i].name in Bindings(vars) && Bindings(vars)[vars[i].name] == vars[i].value
    ensures forall n :: n in Bindings(vars) ==> Variable(n, Bindings(vars)[n]) in vars
  {
    if vars == [] {
    } else {
      var front := vars[..|vars| - 1];
      BindingsHold(front);
      assert vars == front + [vars[|vars| - 1]];
      forall n | n in Bindings(vars) ensures Variable(n, Bindings(vars)[n]) in vars {
        if n != vars[|vars| - 1].name { assert Variable(n, Bindings(front)[n]) in front; }
      }
    }
  }

  lemma SortedDistinct(vars: seq<Variable>)
    requires SortedBy(ByName, vars)
    ensures DistinctNames(vars)
  {
    forall i, j | 0 <= i < j < |vars| ensures vars[i].name != vars[j].name {
      BeforeTotal(vars[i].name, vars[j].name);
    }
  }

  /** The reported change. */
  datatype Patch = Patch(removed: seq<string>, updates: map<string, nat>)

  function Apply(env: map<string, nat>, p: Patch): map<string, nat> {
    (env - set n | n in p.removed) + p.updates
  }

  /** What the report must be, in terms of the two environments alone. */
  ghost predicate IsChange(before: map<string, nat>, after: map<string, nat>, p: Patch) {
    && (forall n :: n in p.removed <==> n in before && n !in after)
    && (forall i, j :: 0 <= i < j < |p.removed| ==> Before(p.removed[i], p.removed[j]))
    && (forall n :: n in p.updates <==> n in after && (n !in before || before[n] != after[n]))
    && (forall n :: n in p.updates ==> p.updates[n] == after[n])
  }

  /** Applying the report to the captured environment gives the current one. */
  lemma ChangeApplies(before: map<string, nat>, after: map<string, nat>, p: Patch)
    requires IsChange(before, after, p)
    ensures Apply(before, p) == after
    ensures forall n :: n in p.removed ==> n !in p.updates
  {
  }

  /** No smaller report does: whatever patch leads from the one environment to
      the other removes at least these names and assigns at least these values. */
  lemma ChangeMinimal(before: map<string, nat>, after: map<string, nat>, p: Patch, other: Patch)
    requires IsChange(before, after, p)
    requires Apply(before, other) == after
    ensures forall n :: n in p.removed ==> n in other.removed
    ensures forall n :: n in p.updates ==> n in other.updates && other.updates[n] == p.updates[n]
  {
    forall n | n in p.removed ensures n in other.removed {
      assert n !in Apply(before, other);
    }
    forall n | n in p.updates ensures n in other.updates && other.updates[n] == p.updates[n] {
      assert Apply(before, other)[n] == after[n];
    }
  }

  // Any order of the same variables gives the same bindings.
  lemma SameBindings(vars: seq<Variable>, vars': seq<Variable>)
    requires DistinctNames(vars) && DistinctNames(vars') && forall v :: v in vars <==> v in vars'
    ensures Bindings(vars) == Bindings(vars')
  {
    BindingsHold(vars);
    BindingsHold(vars');
    forall n | n in Bindings(vars)
      ensures n in Bindings(vars') && Bindings(vars')[n] == Bindings(vars)[n]
    {
      var i :| 0 <= i < |vars'| && vars'[i] == Variable(n, Bindings(vars)[n]);
    }
    forall n | n in Bindings(vars') ensures n in Bindings(vars) {
      var i :| 0 <= i < |vars| && vars[i] == Variable(n, Bindings(vars')[n]);
    }
  }

  function Insert(v: Variable, vars: seq<Variable>): seq<Variable> {
    if vars == [] || Before(v.name, vars[0].name) then [v] + vars
    else [vars[0]] + Insert(v, vars[1..])
  }

  // std::sort under compareVariablesByName
  function SortByName(vars: seq<Variable>): seq<Variable> {
    if vars == [] then [] else Insert(vars[0], SortByName(vars[1..]))
  }

  lemma {:induction false} InsertMembers(v: Variable, vars: seq<Variable>, w: Variable)
    ensures w in Insert(v, vars) <==> w == v || w in vars
  {
    if vars != [] && !Before(v.name, vars[0].name) {
      InsertMembers(v, vars[1..], w);
      Split(vars, w);
      Split([vars[0]] + Insert(v, vars[1..]), w);
    }
  }

  lemma {:induction false} InsertSorts(v: Variable, vars: seq<Variable>)
    requires SortedBy(ByName, vars) && forall w :: w in vars ==> w.name != v.name
    ensures SortedBy(ByName, Insert(v, vars))
  {
    if vars == [] {
    } else if Before(v.name, vars[0].name) {
      forall i | 0 <= i < |vars| ensures Before(v.name, vars[i].name) {
        if i > 0 { BeforeTransitive(v.name, vars[0].name, vars[i].name); }
      }
    } else {
      var rest := Insert(v, vars[1..]);
      InsertSorts(v, vars[1..]);
      BeforeTotal(v.name, vars[0].name);
      assert vars[0] in vars;
      forall i | 0 <= i < |rest| ensures Before(vars[0].name, rest[i].name) {
        InsertMembers(v, vars[1..], rest[i]);
        if rest[i] in vars[1..] {
          var k :| 0 <= k < |vars[1..]| && vars[1..][k] == rest[i];
          assert vars[k + 1] == rest[i];
        }
      }
    }
  }

  lemma {:induction false} SortMembers(vars: seq<Variable>, v: Variable)
    ensures v in SortByName(vars) <==> v in vars
  {
    if vars == [] {
    } else {
      SortMembers(vars[1..], v);
      Split(vars, v);
      InsertMembers(vars[0], SortByName(vars[1..]), v);
    }
  }

  /** Sorting variables with distinct names gives the same variables in order. */
  lemma {:induction false} SortSorts(vars: seq<Variable>)
    requires DistinctNames(vars)
    ensures SortedBy(ByName, SortByName(vars))
    ensures Bindings(SortByName(vars)) == Bindings(vars)
  {
    SortOrders(vars);
    SortedDistinct(SortByName(vars));
    forall v ensures v in SortByName(vars) <==> v in vars { SortMembers(vars, v); }
    SameBindings(SortByName(vars), vars);
  }

  lemma {:induction false} SortOrders(vars: seq<Variable>)
    requires DistinctNames(vars)
    ensures SortedBy(ByName, SortByName(vars))
  {
    if vars == [] {
    } else {
      SortOrders(vars[1..]);
      forall w | w in SortByName(vars[1..]) ensures w.name != vars[0].name {
        SortMembers(vars[1..], w);
        var k :| 0 <= k < |vars[1..]| && vars[1..][k] == w;
        assert vars[k + 1] == w;
      }
      InsertSorts(vars[0], SortByName(vars[1..]));
    }
  }

  // The order-difference of sorted lists, read as environments.
  lemma RemovedNames(last: seq<Variable>, now: seq<Variable>)
    requires SortedBy(ByName, last) && SortedBy(ByName, now)
    ensures var r := SetDifference(ByName, last, now);
      && (forall i, j :: 0 <= i < j < |r| ==> Before(r[i].name, r[j].name))
      && (forall n :: (exists i :: 0 <= i < |r| && r[i].name == n) <==> n in Bindings(last) && n !in Bindings(now))
  {
    var r := SetDifference(ByName, last, now);
    DifferenceSorted(ByName, last, now);
    SortedDistinct(last);
    SortedDistinct(now);
    BindingsHold(last);
    BindingsHold(now);
    forall i | 0 <= i < |r| ensures r[i].name in Bindings(last) && r[i].name !in Bindings(now) {
      DifferenceMember(ByName, last, now, r[i]);
      assert forall w :: w in now ==> w.name != r[i].name;
    }
    forall n | n in Bindings(last) && n !in Bindings(now) ensures exists i :: 0 <= i < |r| && r[i].name == n {
      var v := Variable(n, Bindings(last)[n]);
      DifferenceMember(ByName, last, now, v);
      assert !Present(ByName, v, now);
      var i :| 0 <= i < |r| && r[i] == v;
    }
  }

  lemma AddedBindings(last: seq<Variable>, now: seq<Variable>)
    requires SortedBy(ByName, last) && SortedBy(ByName, now)
    ensures var a := SetDifference(ByPair, now, last);
      && DistinctNames(a)
      && (forall n :: n in Bindings(a) <==>
            n in Bindings(now) && (n !in Bindings(last) || Bindings(last)[n] != Bindings(now)[n]))
      && (forall n :: n in Bindings(a) ==> Bindings(a)[n] == Bindings(now)[n])
  {
    var a := SetDifference(ByPair, now, last);
    NameSortedIsPairSorted(last);
    NameSortedIsPairSorted(now);
    SortedDistinct(last);
    SortedDistinct(now);
    forall v ensures v in a <==> v in now && v !in last {
      DifferenceMember(ByPair, now, last, v);
      assert Present(ByPair, v, last) <==> v in last;
    }
    AddedDistinct(now, last);
    BindingsHold(last);
    BindingsHold(now);
    BindingsHold(a);
    forall n | n in Bindings(a)
      ensures n in Bindings(now) && Bindings(a)[n] == Bindings(now)[n]
      ensures n !in Bindings(last) || Bindings(last)[n] != Bindings(now)[n]
    {
      assert Variable(n, Bindings(a)[n]) in now;
    }
    forall n | n in Bindings(now) && (n !in Bindings(last) || Bindings(last)[n] != Bindings(now)[n])
      ensures n in Bindings(a)
    {
      var v := Variable(n, Bindings(now)[n]);
      assert v !in last && v in now;
      var i :| 0 <= i < |a| && a[i] == v;
    }
  }

  // Sorted by pairs and taken from a list of distinct names: distinct names.
  lemma AddedDistinct(now: seq<Variable>, last: seq<Variable>)
    requires SortedBy(ByName, now) && SortedBy(ByName, last)
    ensures DistinctNames(SetDifference(ByPair, now, last))
  {
    var a := SetDifference(ByPair, now, last);
    NameSortedIsPairSorted(last);
    NameSortedIsPairSorted(now);
    SortedDistinct(now);
    DifferenceSorted(ByPair, now, last);
    forall i, j | 0 <= i < j < |a| ensures a[i].name != a[j].name {
      DifferenceMember(ByPair, now, last, a[i]);
      DifferenceMember(ByPair, now, last, a[j]);
      LessTotal(ByPair, a[i], a[j]);
      var x :| 0 <= x < |now| && now[x] == a[i];
      var y :| 0 <= y < |now| && now[y] == a[j];
    }
  }

  // What ls returns: every name of the environment once, in any order.
  ghost predicate Listing(names: seq<string>, env: map<string, nat>) {
    && (forall n :: n in names <==> n in env)
    && (forall i, j :: 0 <= i < j < |names| ==> names[i] != names[j])
  }

  class EnvironmentWatcher {
    var lastVars: seq<Variable>

    constructor ()
      ensures lastVars == []
    {
      lastVars := [];
    }

    ghost predicate Valid()
      reads this
    {
      DistinctNames(lastVars)
    }

    /** The environment as it was captured. */
    ghost function Captured(): map<string, nat>
      reads this
    {
      Bindings(lastVars)
    }

    // The variables of an environment, in the order in which it lists them.
    method ListVariables(env: map<string, nat>, names: seq<string>) returns (vars: seq<Variable>)
      requires Listing(names, env)
      ensures DistinctNames(vars) && Bindings(vars) == env
    {
      vars := [];
      for i := 0 to |names|
        invariant |vars| == i && forall j :: 0 <= j < i ==> vars[j] == Variable(names[j], env[names[j]])
      {
        assert names[i] in env;
        vars := vars + [Variable(names[i], env[names[i]])];
      }
      BindingsHold(vars);
      forall n | n in env ensures n in Bindings(vars) && Bindings(vars)[n] == env[n] {
        var i :| 0 <= i < |names| && names[i] == n;
        assert vars[i].name == n;
      }
      forall n | n in Bindings(vars) ensures n in env {
        var i :| 0 <= i < |vars| && vars[i] == Variable(n, Bindings(vars)[n]);
      }
    }

    method CaptureEnvironment(env: map<string, nat>, names: seq<string>)
      requires Listing(names, env)
      modifies this
      ensures Valid() && Captured() == env && SortedBy(ByName, lastVars)
    {
      lastVars := ListVariables(env, names);
      SortSorts(lastVars);
      lastVars := SortByName(lastVars);
      SortedDistinct(lastVars);
    }

    method NamesOf(vars: seq<Variable>) returns (names: seq<string>)
      ensures |names| == |vars| && forall j :: 0 <= j < |vars| ==> names[j] == vars[j].name
    {
      names := [];
      for i := 0 to |vars|
        invariant |names| == i && forall j :: 0 <= j < i ==> names[j] == vars[j].name
      {
        names := names + [vars[i].name];
      }
    }

    method ValuesOf(vars: seq<Variable>) returns (values: map<string, nat>)
      ensures values == Bindings(vars)
    {
      values := map[];
      for i := 0 to |vars|
        invariant values == Bindings(vars[..i])
      {
        assert vars[..i + 1][..i] == vars[..i];
        values := values[vars[i].name := vars[i].value];
      }
      assert vars[..|vars|] == vars;
    }

    /** jsonDelta: exactly the change since the capture, which stays as it is. */
    method JsonDelta(env: map<string, nat>, names: seq<string>) returns (p: Patch)
      requires Valid() && Listing(names, env)
      modifies this
      ensures IsChange(old(Captured()), env, p)
      ensures Valid() && Captured() == old(Captured())
    {
      var newVars := ListVariables(env, names);
      SortSorts(newVars);
      newVars := SortByName(newVars);
      SortSorts(lastVars);
      lastVars := SortByName(lastVars);
      SortedDistinct(lastVars);
      var removed := SetDifference(ByName, lastVars, newVars);
      var added := SetDifference(ByPair, newVars, lastVars);
      RemovedNames(lastVars, newVars);
      AddedBindings(lastVars, newVars);
      var removedNames := NamesOf(removed);
      var updates := ValuesOf(added);
      p := Patch(removedNames, updates);
    }
  }
}
