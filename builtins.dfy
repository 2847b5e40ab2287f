/** The built-in functions that manipulate values and their dependency flags:
    `id`, `concat`, `sum`, `ASSERT`, `FIX`, `TRUST`, and what `AFTER` and
    `TRIGGER` decide once the date has been read. Resolving a value (looking up
    a table reference) is a parameter `resolve`; the owner-read check is a
    parameter `canRead`; the current time is a parameter `now`. */
module Builtins {
  import opened Base
  import opened Values

  /** What a built-in throws. */
  datatype BuiltinError =
    | CannotConcat(arg: Val)          // `Cannot concat …`
    | CannotSum(arg: Val)             // `Cannot sum …`
    | AssertWrongTypes                // "Assert called with wrong types"
    | AssertFailed(message: Prim)     // the message's value is thrown
    | NonCellContext(builtin: string) // `Cannot use TRUST in a non-cell context`
    | TypeError                       // a method called on something that lacks it

  /** Resolution of a table reference into a value; the sheet and the user it
      depends on are folded into the function. */
  type Resolver = Val -> Val

  /** `id` */
  function Id(x: Val): (r: Val)
    ensures r == x
  {
    x
  }

  // ---------------------------------------------------------------------------
  // concat

  /** The list a `concat` argument stands for: itself if it is a list, else
      what it resolves to. */
  function AsList(arg: Val, resolve: Resolver): Val
  {
    if arg.ListV? then arg else resolve(arg)
  }

  /** Index of the first argument that is not, and does not resolve to, a list. */
  predicate FirstNonList(args: seq<Val>, resolve: Resolver, i: int)
  {
    0 <= i < |args| && !AsList(args[i], resolve).ListV?
    && forall j :: 0 <= j < i ==> AsList(args[j], resolve).ListV?
  }

  function ConcatValues(args: seq<Val>, resolve: Resolver): (r: Result<seq<Val>, BuiltinError>)
    ensures r.Ok? <==> forall i :: 0 <= i < |args| ==> AsList(args[i], resolve).ListV?
    ensures r.Ok? ==> r.value == Flatten(seq(|args|, i requires 0 <= i < |args| => AsList(args[i], resolve).values))
    ensures r.Err? ==> exists i :: FirstNonList(args, resolve, i) && r.error == CannotConcat(AsList(args[i], resolve))
  {
    if |args| == 0 then Ok([])
    else
      var a := AsList(args[0], resolve);
      if !a.ListV? then
        assert FirstNonList(args, resolve, 0);
        Err(CannotConcat(a))
      else
        var rest := ConcatValues(args[1..], resolve);
        assert forall i :: 1 <= i < |args| ==> args[i] == args[1..][i - 1];
        if rest.Err? then
          var i :| FirstNonList(args[1..], resolve, i) && rest.error == CannotConcat(AsList(args[1..][i], resolve));
          assert FirstNonList(args, resolve, i + 1);
          Err(rest.error)
        else
          var parts := seq(|args|, i requires 0 <= i < |args| => AsList(args[i], resolve).values);
          assert parts[1..] == seq(|args[1..]|, i requires 0 <= i < |args[1..]| => AsList(args[1..][i], resolve).values);
          Ok(a.values + rest.value)
  }

  /** `concat(ws, user, env, ...args)`: the elements of every argument list in
      order, as a fresh list with no dependencies of its own; fails on the first
      argument that neither is nor resolves to a list. */
  function Concat(args: seq<Val>, resolve: Resolver): (r: Result<Val, BuiltinError>)
    ensures r.Ok? <==> forall i :: 0 <= i < |args| ==> AsList(args[i], resolve).ListV?
    ensures r.Ok? ==> r.value == ListV(Flatten(seq(|args|, i requires 0 <= i < |args| => AsList(args[i], resolve).values)), [])
    ensures r.Err? ==> exists i :: FirstNonList(args, resolve, i) && r.error == CannotConcat(AsList(args[i], resolve))
  {
    match ConcatValues(args, resolve)
    case Ok(vs) => Ok(ListV(vs, []))
    case Err(e) => Err(e)
  }

  /** Every element of the result comes from one of the argument lists. */
  lemma ConcatElementsFromArguments(args: seq<Val>, resolve: Resolver, x: Val)
    requires Concat(args, resolve).Ok?
    ensures x in Concat(args, resolve).value.values <==>
            exists i :: 0 <= i < |args| && x in AsList(args[i], resolve).values
  {
    var parts := seq(|args|, i requires 0 <= i < |args| => AsList(args[i], resolve).values);
    assert forall i :: 0 <= i < |args| ==> parts[i] == AsList(args[i], resolve).values;
    FlattenMember(parts, x);
  }

  /** A `concat` argument as the source receives it: its parameter list is
      `(ws, user, ...args)`, so the environment every built-in is called with
      arrives as the first argument. */
  datatype ConcatArg = EnvArg(env: map<string, Val>) | ValueArg(v: Val)

  function ConcatStepAsWritten(args: seq<ConcatArg>, resolve: Resolver): Result<seq<Val>, BuiltinError>
  {
    if |args| == 0 then Ok([])
    else
      match args[0]
      case EnvArg(_) => Err(TypeError) // the environment has no `isList`
      case ValueArg(v) =>
        var a := AsList(v, resolve);
        if !a.ListV? then Err(CannotConcat(a))
        else
          match ConcatStepAsWritten(args[1..], resolve)
          case Ok(vs) => Ok(a.values + vs)
          case Err(e) => Err(e)
  }

  /** `concat` as written, called like every other built-in. */
  function ConcatAsWritten(env: map<string, Val>, args: seq<Val>, resolve: Resolver): Result<Val, BuiltinError>
  {
    var given := [EnvArg(env)] + seq(|args|, i requires 0 <= i < |args| => ValueArg(args[i]));
    match ConcatStepAsWritten(given, resolve)
    case Ok(vs) => Ok(ListV(vs, []))
    case Err(e) => Err(e)
  }

  /** As written, `concat` fails on every call, even on lists only. */
  lemma ConcatAsWrittenAlwaysFails(env: map<string, Val>, args: seq<Val>, resolve: Resolver)
    ensures ConcatAsWritten(env, args, resolve) == Err(TypeError)
    ensures (forall i :: 0 <= i < |args| ==> args[i].ListV?) ==> Concat(args, resolve).Ok?
  {
  }

  // ---------------------------------------------------------------------------
  // sum

  /** A single list argument stands for its elements. */
  function Unpack(args: seq<Val>): seq<Val>
  {
    if |args| == 1 && args[0].ListV? then args[0].values else args
  }

  /** Σ xs, the reference total. */
  function Total(xs: seq<int>): int
  {
    if |xs| == 0 then 0 else xs[0] + Total(xs[1..])
  }

  /** The number a value holds (0 for anything else). */
  function NumberOf(v: Val): int
  {
    if IsNumber(v) then JsValue(v).n else 0
  }

  function Numbers(vs: seq<Val>): (r: seq<int>)
    ensures |r| == |vs| && forall i :: 0 <= i < |vs| ==> r[i] == NumberOf(vs[i])
  {
    seq(|vs|, i requires 0 <= i < |vs| => NumberOf(vs[i]))
  }

  predicate FirstNonNumber(vs: seq<Val>, i: int)
  {
    0 <= i < |vs| && !IsNumber(vs[i]) && forall j :: 0 <= j < i ==> IsNumber(vs[j])
  }

  /** The reducer, left to right from `acc`: stops at the first element whose
      value is not a number. */
  function SumFrom(acc: int, vs: seq<Val>): (r: Result<int, BuiltinError>)
    ensures r.Ok? <==> forall i :: 0 <= i < |vs| ==> IsNumber(vs[i])
    ensures r.Ok? ==> r.value == acc + Total(Numbers(vs))
    ensures r.Err? ==> exists i :: FirstNonNumber(vs, i) && r.error == CannotSum(vs[i])
    decreases vs
  {
    if |vs| == 0 then Ok(acc)
    else if !IsNumber(vs[0]) then
      assert FirstNonNumber(vs, 0);
      Err(CannotSum(vs[0]))
    else
      var r := SumFrom(acc + NumberOf(vs[0]), vs[1..]);
      assert forall i :: 1 <= i < |vs| ==> vs[i] == vs[1..][i - 1];
      if r.Err? then
        var i :| FirstNonNumber(vs[1..], i) && r.error == CannotSum(vs[1..][i]);
        assert FirstNonNumber(vs, i + 1);
        r
      else
        assert Numbers(vs)[1..] == Numbers(vs[1..]);
        r
  }

  /** `sum(ws, user, env, ...args)`: the total of the (unpacked) arguments from
      0, carrying the dependencies of every summed argument. */
  function Sum(args: seq<Val>): (r: Result<Val, BuiltinError>)
    ensures var xs := Unpack(args);
      (r.Ok? <==> forall i :: 0 <= i < |xs| ==> IsNumber(xs[i]))
      && (r.Ok? ==> r.value == Scalar(Num(Total(Numbers(xs))), DepsOf(xs)))
      && (r.Err? ==> exists i :: FirstNonNumber(xs, i) && r.error == CannotSum(xs[i]))
  {
    var xs := Unpack(args);
    match SumFrom(0, xs)
    case Ok(total) => Ok(Scalar(Num(total), DepsOf(xs)))
    case Err(e) => Err(e)
  }

  lemma {:induction false} TotalAppend(a: seq<int>, b: seq<int>)
    ensures Total(a + b) == Total(a) + Total(b)
  {
    if |a| == 0 {
      assert a + b == b;
    } else {
      assert (a + b)[0] == a[0] && (a + b)[1..] == a[1..] + b;
      TotalAppend(a[1..], b);
    }
  }

  /** Summing one list is summing its elements given separately. */
  lemma SumListIsSumOfElements(vs: seq<Val>, ds: seq<Dep>)
    requires |vs| != 1 || !vs[0].ListV?
    ensures Sum([ListV(vs, ds)]) == Sum(vs)
  {
  }

  // ---------------------------------------------------------------------------
  // ASSERT

  /** `ASSERT(cond, msg, v)`: both `cond` and `msg` are resolved; the type error
      is raised only when the condition is not a boolean and the message is not
      a string; a `false` condition throws the message's value; otherwise the
      result is `v` (or null) carrying the condition's and message's dependencies. */
  function Assert(cond: Val, msg: Val, v: Option<Val>, resolve: Resolver): (r: Result<Val, BuiltinError>)
    ensures var c, m := resolve(cond), resolve(msg);
      (r == Err(AssertWrongTypes) <==> !JsValue(c).Bool? && !JsValue(m).Str?)
      && (r.Err? && r.error.AssertFailed? <==> JsValue(c) == Bool(false))
      && (r.Err? && r.error.AssertFailed? ==> r.error.message == JsValue(m))
      && (r.Ok? <==> (JsValue(c).Bool? || JsValue(m).Str?) && JsValue(c) != Bool(false))
      && (r.Ok? ==> r.value == AddDeps(if v.Some? then v.value else Scalar(Null, []), c.deps + m.deps))
  {
    var c, m := resolve(cond), resolve(msg);
    if !JsValue(c).Bool? && !JsValue(m).Str? then Err(AssertWrongTypes)
    else if JsValue(c) == Bool(false) then Err(AssertFailed(JsValue(m)))
    else Ok(AddDeps(if v.Some? then v.value else Scalar(Null, []), c.deps + m.deps))
  }

  /** A condition that is not a boolean passes as long as the message is a string. */
  lemma AssertPassesNonBooleanWithStringMessage(cond: Val, msg: Val, resolve: Resolver)
    requires !JsValue(resolve(cond)).Bool? && JsValue(resolve(msg)).Str?
    ensures Assert(cond, msg, None, resolve) == Ok(Scalar(Null, resolve(cond).deps + resolve(msg).deps))
  {
    assert [] + (resolve(cond).deps + resolve(msg).deps) == resolve(cond).deps + resolve(msg).deps;
  }

  // ---------------------------------------------------------------------------
  // FIX and TRUST

  /** `FIX(v)`: resolves `v` and switches off `recalculate` on every dependency
      of every node of the result; nothing else changes. */
  method Fix(v: Val, resolve: Resolver) returns (r: Val)
    requires forall d :: d in DepSet(resolve(v)) ==> allocated(d)
    modifies DepSet(resolve(v))
    ensures r == resolve(v)
    ensures forall d :: d in DepSet(r) ==> !d.recalculate && d.enforce == old(d.enforce)
  {
    r := resolve(v);
    var ds := AllDeps(r);
    for i := 0 to |ds|
      invariant forall j :: 0 <= j < i ==> !ds[j].recalculate
      invariant forall d :: d in DepSet(r) ==> d.enforce == old(d.enforce)
    {
      ds[i].recalculate := false;
    }
  }

  /** The names `TRUST` and `TRIGGER` read from the cell environment. */
  predicate InCellContext(env: map<string, Val>)
  {
    "tableName" in env && "rowIndex" in env && "colName" in env && "owner" in env
  }

  /** Whether `TRUST` lifts enforcement of `d` for this owner. */
  predicate Trusted(d: DepKind, owner: Prim, canRead: (DepKind, Prim) -> bool)
  {
    d.NormalDep? && canRead(d, owner)
  }

  /** `TRUST(v)`: resolves `v`; outside a cell (one of the four bindings
      missing) it fails and changes nothing; inside, it switches off `enforce`
      exactly on the cell dependencies the cell's owner can read. */
  method Trust(v: Val, env: map<string, Val>, canRead: (DepKind, Prim) -> bool, resolve: Resolver)
    returns (r: Result<Val, BuiltinError>)
    requires forall d :: d in DepSet(resolve(v)) ==> allocated(d)
    modifies DepSet(resolve(v))
    ensures r.Err? <==> !InCellContext(env)
    ensures r.Err? ==> r.error == NonCellContext("TRUST")
    ensures r.Ok? ==> r.value == resolve(v)
    ensures forall d :: d in DepSet(resolve(v)) ==> d.recalculate == old(d.recalculate)
    ensures forall d :: d in DepSet(resolve(v)) ==>
      d.enforce == (old(d.enforce) && !(InCellContext(env) && Trusted(d.kind, JsValue(env["owner"]), canRead)))
  {
    var w := resolve(v);
    if !InCellContext(env) {
      return Err(NonCellContext("TRUST"));
    }
    var owner := JsValue(env["owner"]);
    var ds := AllDeps(w);
    for i := 0 to |ds|
      invariant forall d :: d in DepSet(w) ==> d.recalculate == old(d.recalculate)
      invariant forall d :: d in DepSet(w) && d in ds[..i] ==>
        d.enforce == (old(d.enforce) && !Trusted(d.kind, owner, canRead))
      invariant forall d :: d in DepSet(w) && d !in ds[..i] ==> d.enforce == old(d.enforce)
    {
      assert ds[..i + 1] == ds[..i] + [ds[i]];
      if Trusted(ds[i].kind, owner, canRead) {
        ds[i].enforce := false;
      }
    }
    assert ds[..|ds|] == ds;
    r := Ok(w);
  }

  // ---------------------------------------------------------------------------
  // AFTER and TRIGGER, once the date is known

  /** `AFTER(v)`: `false` with a fresh time dependency while the date lies in
      the future, `true` with no dependency once it has passed. */
  method After(date: int, now: int) returns (r: Val)
    ensures r.Scalar? && r.value == Bool(date <= now)
    ensures date <= now ==> r.deps == []
    ensures date > now ==> |r.deps| == 1 && fresh(r.deps[0]) && r.deps[0].kind == TimeDep(date)
  {
    if date > now {
      var d := new Dep(TimeDep(date));
      r := Scalar(Bool(false), [d]);
    } else {
      r := Scalar(Bool(true), []);
    }
  }

  /** `TRIGGER(v)`: as `AFTER`, but the dependency is a trigger armed for the
      cell's owner at the cell's coordinates, and a cell context is required. */
  method Trigger(date: int, now: int, env: map<string, Val>) returns (r: Result<Val, BuiltinError>)
    ensures r.Err? <==> !InCellContext(env)
    ensures r.Err? ==> r.error == NonCellContext("TRIGGER")
    ensures r.Ok? ==> r.value.Scalar? && r.value.value == Bool(date <= now)
    ensures r.Ok? && date <= now ==> r.value.deps == []
    ensures r.Ok? && date > now ==>
      |r.value.deps| == 1 && fresh(r.value.deps[0])
      && r.value.deps[0].kind == TriggerDep(JsValue(env["owner"]), JsValue(env["tableName"]),
                                           JsValue(env["rowIndex"]), JsValue(env["colName"]), date)
  {
    if !InCellContext(env) {
      return Err(NonCellContext("TRIGGER"));
    }
    if date > now {
      var d := new Dep(TriggerDep(JsValue(env["owner"]), JsValue(env["tableName"]),
                                  JsValue(env["rowIndex"]), JsValue(env["colName"]), date));
      r := Ok(Scalar(Bool(false), [d]));
    } else {
      r := Ok(Scalar(Bool(true), []));
    }
  }
}
