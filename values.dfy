/** A minimal value model for the built-in functions: evaluated values form a
    tree (scalars, lists, unresolved table references), and every node carries
    the dependencies it was computed from. A dependency is shared, mutable
    state: its `recalculate` and `enforce` flags can be switched off in place. */
module Values {
  import opened Base

  /** The JavaScript primitive a scalar holds. Numbers are modelled as integers. */
  datatype Prim = Undefined | Null | Bool(b: bool) | Num(n: int) | Str(s: string)

  /** What a dependency is on: a cell, a point in time, or a trigger armed by a
      cell owner; `OtherDep` stands for the kinds the built-ins never inspect. */
  datatype DepKind =
    | NormalDep(table: string, row: int, col: string)
    | TimeDep(date: int)
    | TriggerDep(owner: Prim, tableName: Prim, rowIndex: Prim, colName: Prim, at: int)
    | OtherDep

  class Dep {
    const kind: DepKind
    var recalculate: bool
    var enforce: bool

    /** A dependency starts out recalculating and enforced. */
    constructor (kind: DepKind)
      ensures this.kind == kind && recalculate && enforce
    {
      this.kind := kind;
      recalculate := true;
      enforce := true;
    }
  }

  /** An evaluated value. `TableRef` is a table not yet resolved into a list. */
  datatype Val =
    | Scalar(value: Prim, deps: seq<Dep>)
    | ListV(values: seq<Val>, deps: seq<Dep>)
    | TableRef(name: string, deps: seq<Dep>)

  /** `v.value` as JavaScript reads it: non-scalars have no `value` field. */
  function JsValue(v: Val): (p: Prim)
    ensures v.Scalar? ==> p == v.value
    ensures !v.Scalar? ==> p == Undefined
  {
    if v.Scalar? then v.value else Undefined
  }

  /** `typeof v.value === "number"` */
  predicate IsNumber(v: Val)
  {
    JsValue(v).Num?
  }

  /** Every dependency on every node of the value, in the pre-order in which
      `visitAll` meets them. */
  function AllDeps(v: Val): (r: seq<Dep>)
    ensures forall d :: d in v.deps ==> d in r
  {
    match v
    case Scalar(_, ds) => ds
    case TableRef(_, ds) => ds
    case ListV(vs, ds) => ds + Flatten(seq(|vs|, i requires 0 <= i < |vs| => AllDeps(vs[i])))
  }

  function DepSet(v: Val): set<Dep>
  {
    set d | d in AllDeps(v)
  }

  /** The dependencies of a list element are dependencies of the list. */
  lemma ElementDepsWithin(v: Val, i: nat)
    requires v.ListV? && i < |v.values|
    ensures DepSet(v.values[i]) <= DepSet(v)
  {
    var vs := v.values;
    var parts := seq(|vs|, i requires 0 <= i < |vs| => AllDeps(vs[i]));
    assert parts[i] == AllDeps(vs[i]);
    forall d | d in AllDeps(vs[i]) ensures d in AllDeps(v) {
      FlattenMember(parts, d);
    }
  }

  /** `v.addDeps(...)`: the given dependencies are added to the value's own. */
  function AddDeps(v: Val, ds: seq<Dep>): (r: Val)
    ensures r.deps == v.deps + ds
    ensures JsValue(r) == JsValue(v)
    ensures v.ListV? ==> r.ListV? && r.values == v.values
  {
    v.(deps := v.deps + ds)
  }

  /** The top-level dependencies of each value, in order. */
  function DepsOf(vs: seq<Val>): (r: seq<Dep>)
    ensures forall i, d :: 0 <= i < |vs| && d in vs[i].deps ==> d in r
  {
    if |vs| == 0 then []
    else
      var r := vs[0].deps + DepsOf(vs[1..]);
      assert forall i :: 1 <= i < |vs| ==> vs[i] == vs[1..][i - 1];
      r
  }
}
