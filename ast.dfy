/** The formula syntax tree: a closed family of node kinds, each with a source
    location, their children, the pre-order traversals `visitAll` and `visit`,
    the canonical printing, and the coordinate stamping that row insertion
    applies to every node of a cloned formula. */
module Ast {
  import opened Base

  // ---------------------------------------------------------------------------
  // Source locations

  /** Where a node came from: the coordinate label of the cell it belongs to and
      the first and last column reported by the parser. */
  datatype Loc = Loc(cell: string, start: nat, end: nat)

  /** A location as the constructor makes it: not yet attached to a cell. */
  function NewLoc(firstColumn: nat, lastColumn: nat): (l: Loc)
    ensures l.cell == "undefined" && l.start == firstColumn && l.end == lastColumn
  {
    Loc("undefined", firstColumn, lastColumn)
  }

  /** `cell:start-end` */
  function LocToString(l: Loc): string
  {
    l.cell + ":" + NatToString(l.start) + "-" + NatToString(l.end)
  }

  /** Position of the first `c` in `s`, or -1. */
  function IndexOf(s: string, c: char): (r: int)
    ensures -1 <= r < |s|
    ensures r >= 0 ==> s[r] == c && c !in s[..r]
    ensures r < 0 ==> c !in s
  {
    if |s| == 0 then -1
    else if s[0] == c then 0
    else
      var r := IndexOf(s[1..], c);
      assert r >= 0 ==> s[..r + 1] == [s[0]] + s[1..][..r];
      if r < 0 then -1 else r + 1
  }

  predicate AllDigits(s: string)
  {
    forall i :: 0 <= i < |s| ==> IsDigit(s[i])
  }

  /** Reads back what `LocToString` prints: the label up to the first colon, then
      two numbers separated by a dash. */
  function ParseLoc(s: string): Option<Loc>
  {
    var i := IndexOf(s, ':');
    if i < 0 then None
    else
      var rest := s[i + 1..];
      var j := IndexOf(rest, '-');
      if j <= 0 then None
      else
        var a, b := rest[..j], rest[j + 1..];
        if |b| > 0 && AllDigits(a) && AllDigits(b) then Some(Loc(s[..i], ParseNat(a), ParseNat(b)))
        else None
  }

  /** Splitting at a character that first occurs after `a`. */
  lemma {:induction false} IndexOfAfter(a: string, c: char, b: string)
    requires c !in a
    ensures IndexOf(a + [c] + b, c) == |a|
    ensures (a + [c] + b)[..|a|] == a && (a + [c] + b)[|a| + 1..] == b
  {
    if |a| > 0 {
      assert (a + [c] + b)[1..] == a[1..] + [c] + b;
      IndexOfAfter(a[1..], c, b);
    }
  }

  lemma {:induction false} DigitsAvoid(s: string, c: char)
    requires AllDigits(s) && !IsDigit(c)
    ensures c !in s
  {
    forall i | 0 <= i < |s| ensures s[i] != c {
      assert IsDigit(s[i]);
    }
  }

  /** Printing a location loses nothing as long as the label has no colon. */
  lemma {:induction false} LocRoundTrip(l: Loc)
    requires ':' !in l.cell
    ensures ParseLoc(LocToString(l)) == Some(l)
  {
    var a, b := NatToString(l.start), NatToString(l.end);
    DigitsAvoid(a, '-');
    assert LocToString(l) == l.cell + [':'] + (a + ['-'] + b);
    ParseLocParts(l.cell, a, b);
    ParseNatToString(l.start);
    ParseNatToString(l.end);
  }

  /** `ParseLoc` on a label, a colon, a number, a dash and a number. */
  lemma {:induction false} ParseLocParts(cell: string, a: string, b: string)
    requires ':' !in cell && '-' !in a && |a| > 0 && |b| > 0 && AllDigits(a) && AllDigits(b)
    ensures ParseLoc(cell + [':'] + (a + ['-'] + b)) == Some(Loc(cell, ParseNat(a), ParseNat(b)))
  {
    var rest := a + ['-'] + b;
    IndexOfAfter(cell, ':', rest);
    IndexOfAfter(a, '-', b);
  }


  // ---------------------------------------------------------------------------
  // Nodes

  /** Literal payloads. Numbers are modelled as integers. */
  datatype Lit = LBool(b: bool) | LNum(n: int) | LStr(s: string)

  /** A selector: a column name (a string) or a row index (a number). */
  datatype Key = NameKey(name: string) | IndexKey(index: int)

  /** One `key: value` entry of a tuple, or one `name in source` binding of a comprehension. */
  datatype Field = Field(key: string, value: Node)

  datatype Node =
    | Literal(value: Lit, loc: Loc)
    | Identifier(name: string, loc: Loc)
    | Binary(op: string, l: Node, r: Node, loc: Loc)
    | Unary(op: string, arg: Node, loc: Loc)
    | List(elements: seq<Node>, loc: Loc)
    | Tuple(fields: seq<Field>, loc: Loc)
    | IfThenElse(cond: Node, thenBranch: Node, elseBranch: Node, loc: Loc)
    | Select(l: Node, ixCol: Key, loc: Loc)
    | Project(l: Node, ixCols: seq<Key>, loc: Loc)
    | Generate(expr: Node, srcs: seq<Field>, cond: Node, loc: Loc)
    | Filter(l: Node, filter: Node, loc: Loc)
    | Call(name: string, args: seq<Node>, loc: Loc)

  /** The `type` tag every node carries. */
  function Type(n: Node): string
  {
    match n
    case Literal(_, _) => "Literal"
    case Identifier(_, _) => "Identifier"
    case Binary(_, _, _, _) => "Binary"
    case Unary(_, _, _) => "Unary"
    case List(_, _) => "List"
    case Tuple(_, _) => "Tuple"
    case IfThenElse(_, _, _, _) => "IfThenElse"
    case Select(_, _, _) => "Select"
    case Project(_, _, _) => "Project"
    case Generate(_, _, _, _) => "Generate"
    case Filter(_, _, _) => "Filter"
    case Call(_, _, _) => "Call"
  }

  function FieldKeys(fs: seq<Field>): (r: seq<string>)
    ensures |r| == |fs| && forall i :: 0 <= i < |fs| ==> r[i] == fs[i].key
  {
    seq(|fs|, i requires 0 <= i < |fs| => fs[i].key)
  }

  function FieldValues(fs: seq<Field>): (r: seq<Node>)
    ensures |r| == |fs| && forall i :: 0 <= i < |fs| ==> r[i] == fs[i].value
  {
    seq(|fs|, i requires 0 <= i < |fs| => fs[i].value)
  }

  /** The sub-expressions a node recurses into, in order. For a comprehension these
      are its expression, every source and its condition (see the findings in the
      README for what the source returns instead). */
  function Children(n: Node): (r: seq<Node>)
    ensures forall c :: c in r ==> c < n
  {
    match n
    case Literal(_, _) => []
    case Identifier(_, _) => []
    case Binary(_, l, r, _) => [l, r]
    case Unary(_, a, _) => [a]
    case List(es, _) => es
    case Tuple(fs, _) =>
      assert forall i :: 0 <= i < |fs| ==> fs[i] in fs;
      FieldValues(fs)
    case IfThenElse(c, t, e, _) => [c, t, e]
    case Select(l, _, _) => [l]
    case Project(l, _, _) => [l]
    case Generate(e, ss, c, _) =>
      assert forall i :: 0 <= i < |ss| ==> ss[i] in ss;
      [e] + FieldValues(ss) + [c]
    case Filter(l, f, _) => [l, f]
    case Call(_, xs, _) => xs
  }

  /** Every node of the tree in pre-order, defined field by field (a reference
      for what the traversals must reach). */
  function Nodes(n: Node): (r: seq<Node>)
    ensures |r| >= 1 && r[0] == n
  {
    match n
    case Literal(_, _) => [n]
    case Identifier(_, _) => [n]
    case Binary(_, l, r, _) => [n] + Nodes(l) + Nodes(r)
    case Unary(_, a, _) => [n] + Nodes(a)
    case List(es, _) => [n] + Flatten(seq(|es|, i requires 0 <= i < |es| => Nodes(es[i])))
    case Tuple(fs, _) => [n] + Flatten(seq(|fs|, i requires 0 <= i < |fs| => Nodes(fs[i].value)))
    case IfThenElse(c, t, e, _) => [n] + Nodes(c) + Nodes(t) + Nodes(e)
    case Select(l, _, _) => [n] + Nodes(l)
    case Project(l, _, _) => [n] + Nodes(l)
    case Generate(e, ss, c, _) =>
      [n] + Nodes(e) + Flatten(seq(|ss|, i requires 0 <= i < |ss| => Nodes(ss[i].value))) + Nodes(c)
    case Filter(l, f, _) => [n] + Nodes(l) + Nodes(f)
    case Call(_, xs, _) => [n] + Flatten(seq(|xs|, i requires 0 <= i < |xs| => Nodes(xs[i])))
  }

  /** The children's node lists, one per child. */
  function ChildNodes(n: Node): (r: seq<seq<Node>>)
    ensures |r| == |Children(n)|
  {
    var cs := Children(n);
    seq(|cs|, i requires 0 <= i < |cs| => Nodes(cs[i]))
  }

  lemma {:induction false} Flatten1(a: seq<Node>)
    ensures Flatten([a]) == a
  {
  }

  lemma {:induction false} Flatten2(a: seq<Node>, b: seq<Node>)
    ensures Flatten([a, b]) == a + b
  {
    assert [a, b][1..] == [b];
    Flatten1(b);
  }

  lemma {:induction false} Flatten3(a: seq<Node>, b: seq<Node>, c: seq<Node>)
    ensures Flatten([a, b, c]) == a + b + c
  {
    assert [a, b, c][1..] == [b, c];
    Flatten2(b, c);
  }

  /** `Nodes` agrees with recursing through `Children`. */
  lemma {:induction false} NodesViaChildren(n: Node)
    ensures Nodes(n) == [n] + Flatten(ChildNodes(n))
  {
    if n.Binary? || n.Filter? || n.IfThenElse? {
      NodesViaChildrenFixed(n);
    } else if n.Unary? || n.Select? || n.Project? {
      NodesViaChildrenOne(n);
    } else if n.Tuple? {
      NodesViaChildrenTuple(n);
    } else if n.Generate? {
      NodesViaChildrenGenerate(n);
    } else if n.List? || n.Call? {
      NodesViaChildrenSeq(n);
    } else {
      assert Children(n) == [];
    }
  }

  lemma {:induction false} NodesViaChildrenFixed(n: Node)
    requires n.Binary? || n.Filter? || n.IfThenElse?
    ensures Nodes(n) == [n] + Flatten(ChildNodes(n))
  {
    if n.IfThenElse? {
      var c, t, e := n.cond, n.thenBranch, n.elseBranch;
      assert Children(n) == [c, t, e];
      assert ChildNodes(n) == [Nodes(c), Nodes(t), Nodes(e)];
      Flatten3(Nodes(c), Nodes(t), Nodes(e));
    } else {
      var a, b := n.l, if n.Binary? then n.r else n.filter;
      assert Children(n) == [a, b];
      assert ChildNodes(n) == [Nodes(a), Nodes(b)];
      Flatten2(Nodes(a), Nodes(b));
    }
  }

  lemma {:induction false} NodesViaChildrenOne(n: Node)
    requires n.Unary? || n.Select? || n.Project?
    ensures Nodes(n) == [n] + Flatten(ChildNodes(n))
  {
    var a := if n.Unary? then n.arg else n.l;
    assert Children(n) == [a];
    assert ChildNodes(n) == [Nodes(a)];
    Flatten1(Nodes(a));
  }

  lemma {:induction false} NodesViaChildrenTuple(n: Node)
    requires n.Tuple?
    ensures Nodes(n) == [n] + Flatten(ChildNodes(n))
  {
    var fs := n.fields;
    assert ChildNodes(n) == seq(|fs|, i requires 0 <= i < |fs| => Nodes(fs[i].value));
  }

  lemma {:induction false} NodesViaChildrenSeq(n: Node)
    requires n.List? || n.Call?
    ensures Nodes(n) == [n] + Flatten(ChildNodes(n))
  {
    var es := if n.List? then n.elements else n.args;
    assert Children(n) == es;
    assert ChildNodes(n) == seq(|es|, i requires 0 <= i < |es| => Nodes(es[i]));
  }

  lemma {:induction false} NodesViaChildrenGenerate(n: Node)
    requires n.Generate?
    ensures Nodes(n) == [n] + Flatten(ChildNodes(n))
  {
    var e, ss, c := n.expr, n.srcs, n.cond;
    var mid := seq(|ss|, i requires 0 <= i < |ss| => Nodes(ss[i].value));
    GenerateChildren(n);
    ChildNodesGenerate(n, mid);
    FlattenAround(Nodes(e), mid, Nodes(c));
  }

  lemma {:induction false} ChildNodesGenerate(n: Node, mid: seq<seq<Node>>)
    requires n.Generate? && Children(n) == [n.expr] + FieldValues(n.srcs) + [n.cond]
    requires mid == seq(|n.srcs|, i requires 0 <= i < |n.srcs| => Nodes(n.srcs[i].value))
    ensures ChildNodes(n) == [Nodes(n.expr)] + mid + [Nodes(n.cond)]
  {
    var cs, ks, want := Children(n), ChildNodes(n), [Nodes(n.expr)] + mid + [Nodes(n.cond)];
    forall k | 0 <= k < |ks| ensures ks[k] == want[k] {
      if 0 < k < |cs| - 1 {
        assert cs[k] == FieldValues(n.srcs)[k - 1];
      }
    }
  }

  lemma {:induction false} FlattenAround(a: seq<Node>, mid: seq<seq<Node>>, b: seq<Node>)
    ensures Flatten([a] + mid + [b]) == a + Flatten(mid) + b
  {
    FlattenAppend([a] + mid, [b]);
    FlattenAppend([a], mid);
    Flatten1(a);
    Flatten1(b);
  }


  /** A node of the tree is the root or a node of one of the children. */
  lemma {:induction false} NodesMember(n: Node, m: Node)
    ensures m in Nodes(n) <==> m == n || exists i :: 0 <= i < |Children(n)| && m in Nodes(Children(n)[i])
  {
    var ks := ChildNodes(n);
    assert forall i :: 0 <= i < |ks| ==> ks[i] == Nodes(Children(n)[i]);
    NodesViaChildren(n);
    FlattenMember(ks, m);
  }

  // ---------------------------------------------------------------------------
  // Traversals

  /** Pre-order `visitAll`: the nodes `f` is applied to, in order. The callback
      is asked about a node before its children; a `false` answer skips them. */
  function VisitAll(n: Node, f: Node -> bool): (r: seq<Node>)
    ensures |r| >= 1 && r[0] == n
    ensures !f(n) ==> r == [n]
  {
    if !f(n) then [n]
    else
      var cs := Children(n);
      [n] + Flatten(seq(|cs|, i requires 0 <= i < |cs| => VisitAll(cs[i], f)))
  }

  /** A callback that never prunes visits every node, in pre-order. */
  lemma {:induction false} VisitAllTotal(n: Node, f: Node -> bool)
    requires forall m :: f(m)
    ensures VisitAll(n, f) == Nodes(n)
  {
    var cs := Children(n);
    forall i | 0 <= i < |cs| ensures VisitAll(cs[i], f) == Nodes(cs[i]) {
      assert cs[i] in cs;
      VisitAllTotal(cs[i], f);
    }
    assert seq(|cs|, i requires 0 <= i < |cs| => VisitAll(cs[i], f)) == ChildNodes(n);
    NodesViaChildren(n);
  }

  /** A node a traversal reaches is the root or is reached from one of the children. */
  lemma {:induction false} VisitAllMember(n: Node, f: Node -> bool, m: Node) returns (i: nat)
    requires m in VisitAll(n, f) && m != n
    ensures i < |Children(n)| && m in VisitAll(Children(n)[i], f)
  {
    var cs := Children(n);
    var parts := seq(|cs|, i requires 0 <= i < |cs| => VisitAll(cs[i], f));
    FlattenMember(parts, m);
    i :| 0 <= i < |parts| && m in parts[i];
    assert m in VisitAll(cs[i], f);
  }

  /** Whatever the callback, a traversal only reaches nodes of the tree. */
  lemma {:induction false} VisitAllWithin(n: Node, f: Node -> bool, m: Node)
    requires m in VisitAll(n, f)
    ensures m in Nodes(n)
  {
    if m == n {
      assert Nodes(n)[0] == n;
    } else {
      var i := VisitAllMember(n, f, m);
      var c := Children(n)[i];
      assert c in Children(n);
      VisitAllWithin(c, f, m);
      NodesOfChild(n, i, m);
    }
  }

  /** A node of a child's tree is a node of the tree. */
  lemma {:induction false} NodesOfChild(n: Node, i: nat, m: Node)
    requires i < |Children(n)| && m in Nodes(Children(n)[i])
    ensures m in Nodes(n)
  {
    NodesMember(n, m);
  }

  /** `visit`: handlers keyed by the node's `type`. A node without a handler is
      still descended into; a handler answering `false` prunes the node's
      children. The result lists the nodes a handler was called on, in order. */
  function Visit(n: Node, h: map<string, Node -> bool>): (r: seq<Node>)
  {
    var here := if Type(n) in h then [n] else [];
    if Type(n) in h && !h[Type(n)](n) then here
    else
      var cs := Children(n);
      here + Flatten(seq(|cs|, i requires 0 <= i < |cs| => Visit(cs[i], h)))
  }

  /** The single callback that `visit`'s handler table amounts to. */
  function AsCallback(h: map<string, Node -> bool>): Node -> bool
  {
    m => Type(m) !in h || h[Type(m)](m)
  }

  /** The nodes that have a handler, order kept. */
  function KeepHandled(s: seq<Node>, h: map<string, Node -> bool>): (r: seq<Node>)
    ensures forall m :: m in r ==> m in s && Type(m) in h
  {
    if |s| == 0 then [] else (if Type(s[0]) in h then [s[0]] else []) + KeepHandled(s[1..], h)
  }

  lemma {:induction false} KeepHandledAppend(a: seq<Node>, b: seq<Node>, h: map<string, Node -> bool>)
    ensures KeepHandled(a + b, h) == KeepHandled(a, h) + KeepHandled(b, h)
  {
    if |a| == 0 {
      assert a + b == b;
    } else {
      assert (a + b)[1..] == a[1..] + b;
      KeepHandledAppend(a[1..], b, h);
    }
  }

  lemma {:induction false} KeepHandledFlatten(ss: seq<seq<Node>>, h: map<string, Node -> bool>)
    ensures KeepHandled(Flatten(ss), h) == Flatten(seq(|ss|, i requires 0 <= i < |ss| => KeepHandled(ss[i], h)))
  {
    var ks := seq(|ss|, i requires 0 <= i < |ss| => KeepHandled(ss[i], h));
    if |ss| > 0 {
      KeepHandledAppend(ss[0], Flatten(ss[1..]), h);
      KeepHandledFlatten(ss[1..], h);
      assert ks[1..] == seq(|ss[1..]|, i requires 0 <= i < |ss[1..]| => KeepHandled(ss[1..][i], h));
    }
  }

  lemma {:induction false} KeepHandledParts(parts: seq<seq<Node>>, vs: seq<seq<Node>>, h: map<string, Node -> bool>)
    requires |parts| == |vs| && forall i :: 0 <= i < |parts| ==> KeepHandled(parts[i], h) == vs[i]
    ensures KeepHandled(Flatten(parts), h) == Flatten(vs)
  {
    KeepHandledFlatten(parts, h);
    assert seq(|parts|, i requires 0 <= i < |parts| => KeepHandled(parts[i], h)) == vs;
  }

  lemma KeepHandledOne(n: Node, h: map<string, Node -> bool>)
    ensures KeepHandled([n], h) == if Type(n) in h then [n] else []
  {
    assert [n][1..] == [];
  }

  /** `visit` is `visitAll` with the handler table turned into a callback
      (unhandled types continue), keeping only the handled nodes. */
  lemma VisitIsVisitAll(n: Node, h: map<string, Node -> bool>)
    ensures Visit(n, h) == KeepHandled(VisitAll(n, AsCallback(h)), h)
  {
    VisitIsVisitAllWith(n, h, AsCallback(h));
  }

  lemma {:induction false} VisitIsVisitAllWith(n: Node, h: map<string, Node -> bool>, g: Node -> bool)
    requires forall m :: g(m) == (Type(m) !in h || h[Type(m)](m))
    ensures Visit(n, h) == KeepHandled(VisitAll(n, g), h)
  {
    var cs := Children(n);
    forall i | 0 <= i < |cs| ensures Visit(cs[i], h) == KeepHandled(VisitAll(cs[i], g), h) {
      assert cs[i] in cs;
      VisitIsVisitAllWith(cs[i], h, g);
    }
    VisitStep(n, h, g);
  }

  /** One level of `VisitIsVisitAllWith`: agreement on the children gives
      agreement on the node. */
  lemma {:induction false} VisitStep(n: Node, h: map<string, Node -> bool>, g: Node -> bool)
    requires g(n) == (Type(n) !in h || h[Type(n)](n))
    requires forall i :: 0 <= i < |Children(n)| ==> Visit(Children(n)[i], h) == KeepHandled(VisitAll(Children(n)[i], g), h)
    ensures Visit(n, h) == KeepHandled(VisitAll(n, g), h)
  {
    var here := if Type(n) in h then [n] else [];
    KeepHandledOne(n, h);
    if g(n) {
      var cs := Children(n);
      var parts := seq(|cs|, i requires 0 <= i < |cs| => VisitAll(cs[i], g));
      var vs := seq(|cs|, i requires 0 <= i < |cs| => Visit(cs[i], h));
      assert VisitAll(n, g) == [n] + Flatten(parts);
      assert Visit(n, h) == here + Flatten(vs);
      KeepHandledAppend([n], Flatten(parts), h);
      KeepHandledParts(parts, vs, h);
    } else {
      assert VisitAll(n, g) == [n];
      assert Visit(n, h) == here;
    }
  }



  // ---------------------------------------------------------------------------
  // Coordinate stamping: `ast.visitAll(n => { n.loc.cell = label })`

  /** The tree with every node's location attached to `cell`; nothing else changes. */
  function Relabel(n: Node, cell: string): (r: Node)
    ensures Type(r) == Type(n)
    ensures r.loc == n.loc.(cell := cell)
  {
    var loc := n.loc.(cell := cell);
    match n
    case Literal(v, _) => Literal(v, loc)
    case Identifier(x, _) => Identifier(x, loc)
    case Binary(op, l, r, _) => Binary(op, Relabel(l, cell), Relabel(r, cell), loc)
    case Unary(op, a, _) => Unary(op, Relabel(a, cell), loc)
    case List(es, _) => List(seq(|es|, i requires 0 <= i < |es| => Relabel(es[i], cell)), loc)
    case Tuple(fs, _) => Tuple(seq(|fs|, i requires 0 <= i < |fs| => Field(fs[i].key, Relabel(fs[i].value, cell))), loc)
    case IfThenElse(c, t, e, _) => IfThenElse(Relabel(c, cell), Relabel(t, cell), Relabel(e, cell), loc)
    case Select(l, k, _) => Select(Relabel(l, cell), k, loc)
    case Project(l, ks, _) => Project(Relabel(l, cell), ks, loc)
    case Generate(e, ss, c, _) =>
      Generate(Relabel(e, cell), seq(|ss|, i requires 0 <= i < |ss| => Field(ss[i].key, Relabel(ss[i].value, cell))),
        Relabel(c, cell), loc)
    case Filter(l, f, _) => Filter(Relabel(l, cell), Relabel(f, cell), loc)
    case Call(name, xs, _) => Call(name, seq(|xs|, i requires 0 <= i < |xs| => Relabel(xs[i], cell)), loc)
  }

  /** Stamping commutes with taking children. */
  lemma {:induction false} ChildrenRelabel(n: Node, cell: string)
    ensures |Children(Relabel(n, cell))| == |Children(n)|
    ensures forall i :: 0 <= i < |Children(n)| ==> Children(Relabel(n, cell))[i] == Relabel(Children(n)[i], cell)
  {
    if n.Tuple? {
      ChildrenRelabelTuple(n, cell);
    } else if n.Generate? {
      ChildrenRelabelGenerate(n, cell);
    } else if n.List? || n.Call? {
      ChildrenRelabelSeq(n, cell);
    } else {
      ChildrenRelabelFixed(n, cell);
    }
  }

  lemma {:induction false} ChildrenRelabelFixed(n: Node, cell: string)
    requires !n.Tuple? && !n.Generate? && !n.List? && !n.Call?
    ensures |Children(Relabel(n, cell))| == |Children(n)|
    ensures forall i :: 0 <= i < |Children(n)| ==> Children(Relabel(n, cell))[i] == Relabel(Children(n)[i], cell)
  {
    match n
    case Literal(_, _) =>
    case Identifier(_, _) =>
    case Binary(_, _, _, _) =>
    case Unary(_, _, _) =>
    case IfThenElse(_, _, _, _) =>
    case Select(_, _, _) =>
    case Project(_, _, _) =>
    case Filter(_, _, _) =>
  }

  lemma {:induction false} ChildrenRelabelSeq(n: Node, cell: string)
    requires n.List? || n.Call?
    ensures |Children(Relabel(n, cell))| == |Children(n)|
    ensures forall i :: 0 <= i < |Children(n)| ==> Children(Relabel(n, cell))[i] == Relabel(Children(n)[i], cell)
  {
  }

  lemma {:induction false} ChildrenRelabelTuple(n: Node, cell: string)
    requires n.Tuple?
    ensures |Children(Relabel(n, cell))| == |Children(n)|
    ensures forall i :: 0 <= i < |Children(n)| ==> Children(Relabel(n, cell))[i] == Relabel(Children(n)[i], cell)
  {
    assert Children(Relabel(n, cell)) == FieldValues(Relabel(n, cell).fields);
  }

  lemma {:induction false} ChildrenRelabelGenerate(n: Node, cell: string)
    requires n.Generate?
    ensures |Children(Relabel(n, cell))| == |Children(n)|
    ensures forall i :: 0 <= i < |Children(n)| ==> Children(Relabel(n, cell))[i] == Relabel(Children(n)[i], cell)
  {
    var r := Relabel(n, cell);
    GenerateChildren(n);
    GenerateChildren(r);
    var cs, rs := Children(n), Children(r);
    var vs, ws := FieldValues(n.srcs), FieldValues(r.srcs);
    assert |ws| == |vs|;
    forall k | 0 <= k < |cs| ensures rs[k] == Relabel(cs[k], cell) {
      if 0 < k < |cs| - 1 {
        assert cs[k] == vs[k - 1] && rs[k] == ws[k - 1];
      }
    }
  }


  /** Every node of the tree carries the label `cell`. */
  ghost predicate Stamped(n: Node, cell: string)
  {
    forall m :: m in Nodes(n) ==> m.loc.cell == cell
  }

  /** A tree is stamped when its root and all its children are. */
  lemma {:induction false} StampedViaChildren(n: Node, cell: string)
    requires n.loc.cell == cell
    requires forall i :: 0 <= i < |Children(n)| ==> Stamped(Children(n)[i], cell)
    ensures Stamped(n, cell)
  {
    forall m | m in Nodes(n) ensures m.loc.cell == cell {
      NodesMember(n, m);
    }
  }

  /** After stamping, every node of the tree carries the label. */
  lemma {:induction false} RelabelStampsEveryNode(n: Node, cell: string)
    ensures forall m :: m in Nodes(Relabel(n, cell)) ==> m.loc.cell == cell
  {
    var r := Relabel(n, cell);
    var cs, rs := Children(n), Children(r);
    ChildrenRelabel(n, cell);
    forall i | 0 <= i < |rs| ensures Stamped(rs[i], cell) {
      assert cs[i] in cs;
      RelabelStampsEveryNode(cs[i], cell);
    }
    StampedViaChildren(r, cell);
  }

  /** Stamping only touches labels: a second stamp overrides the first. */
  lemma {:induction false} RelabelTwice(n: Node, c: string, d: string)
    ensures Relabel(Relabel(n, c), d) == Relabel(n, d)
    decreases n, 1
  {
    match n
    case Literal(_, _) =>
    case Identifier(_, _) =>
    case Binary(_, l, r, _) => RelabelTwice(l, c, d); RelabelTwice(r, c, d);
    case Unary(_, a, _) => RelabelTwice(a, c, d);
    case IfThenElse(x, t, e, _) => RelabelTwice(x, c, d); RelabelTwice(t, c, d); RelabelTwice(e, c, d);
    case Select(l, _, _) => RelabelTwice(l, c, d);
    case Project(l, _, _) => RelabelTwice(l, c, d);
    case Filter(l, f, _) => RelabelTwice(l, c, d); RelabelTwice(f, c, d);
    case List(_, _) => RelabelTwiceSeq(n, c, d);
    case Tuple(_, _) => RelabelTwiceSeq(n, c, d);
    case Generate(_, _, _, _) => RelabelTwiceSeq(n, c, d);
    case Call(_, _, _) => RelabelTwiceSeq(n, c, d);
  }

  /** `RelabelTwice` for the kinds holding a sequence of sub-expressions. */
  lemma {:induction false} RelabelTwiceSeq(n: Node, c: string, d: string)
    requires n.List? || n.Tuple? || n.Generate? || n.Call?
    ensures Relabel(Relabel(n, c), d) == Relabel(n, d)
    decreases n, 0
  {
    match n
    case List(es, _) =>
      forall i | 0 <= i < |es| ensures Relabel(Relabel(es[i], c), d) == Relabel(es[i], d) {
        assert es[i] in es;
        RelabelTwice(es[i], c, d);
      }
    case Tuple(fs, _) =>
      forall i | 0 <= i < |fs| ensures Relabel(Relabel(fs[i].value, c), d) == Relabel(fs[i].value, d) {
        RelabelTwice(fs[i].value, c, d);
      }
    case Generate(e, ss, x, _) =>
      RelabelTwice(e, c, d); RelabelTwice(x, c, d);
      forall i | 0 <= i < |ss| ensures Relabel(Relabel(ss[i].value, c), d) == Relabel(ss[i].value, d) {
        RelabelTwice(ss[i].value, c, d);
      }
    case Call(_, xs, _) =>
      forall i | 0 <= i < |xs| ensures Relabel(Relabel(xs[i], c), d) == Relabel(xs[i], d) {
        assert xs[i] in xs;
        RelabelTwice(xs[i], c, d);
      }
  }

  // ---------------------------------------------------------------------------
  // Canonical printing

  function LitToString(v: Lit): string
  {
    match v
    case LBool(b) => if b then "true" else "false"
    case LNum(n) => IntToString(n)
    case LStr(s) => s
  }

  function KeyToString(k: Key): string
  {
    match k
    case NameKey(s) => s
    case IndexKey(i) => IntToString(i)
  }

  function KeysToString(ks: seq<Key>): string
  {
    Join(seq(|ks|, i requires 0 <= i < |ks| => KeyToString(ks[i])), ", ")
  }

  /** `toString`, with an if-expression printed from its three parts. */
  function ToString(n: Node): string
  {
    match n
    case Literal(v, _) => LitToString(v)
    case Identifier(x, _) => x
    case Binary(op, l, r, _) => "(" + ToString(l) + " " + op + " " + ToString(r) + ")"
    case Unary(op, a, _) => "(" + op + ToString(a) + ")"
    case List(es, _) => "[" + Join(seq(|es|, i requires 0 <= i < |es| => ToString(es[i])), ", ") + "]"
    case Tuple(fs, _) =>
      "{" + Join(seq(|fs|, i requires 0 <= i < |fs| => fs[i].key + ":" + ToString(fs[i].value)), ", ") + "}"
    case IfThenElse(c, t, e, _) =>
      "if (" + ToString(c) + ") then (" + ToString(t) + ") else (" + ToString(e) + ")"
    case Select(l, k, _) => "(" + ToString(l) + "." + KeyToString(k) + ")"
    case Project(l, ks, _) => "(" + ToString(l) + "{" + KeysToString(ks) + "})"
    case Generate(e, ss, c, _) =>
      "{" + ToString(e) + " for "
      + Join(seq(|ss|, i requires 0 <= i < |ss| => ss[i].key + " in " + ToString(ss[i].value)), ", ")
      + " when " + ToString(c) + "}"
    case Filter(l, f, _) => "(" + ToString(l) + "[" + ToString(f) + "])"
    case Call(name, xs, _) => name + "(" + Join(seq(|xs|, i requires 0 <= i < |xs| => ToString(xs[i])), ", ") + ")"
  }

  /** The canonical form ignores locations: stamping a formula with its cell's
      coordinates does not change how it prints. */
  lemma {:induction false} RelabelKeepsToString(n: Node, cell: string)
    ensures ToString(Relabel(n, cell)) == ToString(n)
    decreases n, 1
  {
    match n
    case Literal(_, _) =>
    case Identifier(_, _) =>
    case Binary(_, l, r, _) => RelabelKeepsToString(l, cell); RelabelKeepsToString(r, cell);
    case Unary(_, a, _) => RelabelKeepsToString(a, cell);
    case IfThenElse(c, t, e, _) =>
      RelabelKeepsToString(c, cell); RelabelKeepsToString(t, cell); RelabelKeepsToString(e, cell);
    case Select(l, _, _) => RelabelKeepsToString(l, cell);
    case Project(l, _, _) => RelabelKeepsToString(l, cell);
    case Filter(l, f, _) => RelabelKeepsToString(l, cell); RelabelKeepsToString(f, cell);
    case List(_, _) => RelabelKeepsToStringSeq(n, cell);
    case Tuple(_, _) => RelabelKeepsToStringSeq(n, cell);
    case Generate(_, _, _, _) => RelabelKeepsToStringSeq(n, cell);
    case Call(_, _, _) => RelabelKeepsToStringSeq(n, cell);
  }

  /** `RelabelKeepsToString` for the kinds holding a sequence of sub-expressions. */
  lemma {:induction false} RelabelKeepsToStringSeq(n: Node, cell: string)
    requires n.List? || n.Tuple? || n.Generate? || n.Call?
    ensures ToString(Relabel(n, cell)) == ToString(n)
    decreases n, 0
  {
    match n
    case List(es, _) =>
      forall i | 0 <= i < |es| ensures ToString(Relabel(es[i], cell)) == ToString(es[i]) {
        assert es[i] in es;
        RelabelKeepsToString(es[i], cell);
      }
      var es' := Relabel(n, cell).elements;
      assert seq(|es'|, i requires 0 <= i < |es'| => ToString(es'[i]))
          == seq(|es|, i requires 0 <= i < |es| => ToString(es[i]));
    case Tuple(fs, _) =>
      forall i | 0 <= i < |fs| ensures ToString(Relabel(fs[i].value, cell)) == ToString(fs[i].value) {
        RelabelKeepsToString(fs[i].value, cell);
      }
      var fs' := Relabel(n, cell).fields;
      assert seq(|fs'|, i requires 0 <= i < |fs'| => fs'[i].key + ":" + ToString(fs'[i].value))
          == seq(|fs|, i requires 0 <= i < |fs| => fs[i].key + ":" + ToString(fs[i].value));
    case Generate(e, ss, c, _) =>
      RelabelKeepsToString(e, cell); RelabelKeepsToString(c, cell);
      forall i | 0 <= i < |ss| ensures ToString(Relabel(ss[i].value, cell)) == ToString(ss[i].value) {
        RelabelKeepsToString(ss[i].value, cell);
      }
      var ss' := Relabel(n, cell).srcs;
      assert seq(|ss'|, i requires 0 <= i < |ss'| => ss'[i].key + " in " + ToString(ss'[i].value))
          == seq(|ss|, i requires 0 <= i < |ss| => ss[i].key + " in " + ToString(ss[i].value));
    case Call(_, xs, _) =>
      forall i | 0 <= i < |xs| ensures ToString(Relabel(xs[i], cell)) == ToString(xs[i]) {
        assert xs[i] in xs;
        RelabelKeepsToString(xs[i], cell);
      }
      var xs' := Relabel(n, cell).args;
      assert seq(|xs'|, i requires 0 <= i < |xs'| => ToString(xs'[i]))
          == seq(|xs|, i requires 0 <= i < |xs| => ToString(xs[i]));
  }

  /** Printing shapes: each composite kind is wrapped in its own brackets; a
      call prints its name followed by the parenthesised arguments, so a
      call with no argument prints `name()` and one with a single argument
      `name(arg)`. */
  lemma {:induction false} PrintedBrackets(n: Node)
    ensures var s := ToString(n);
      (n.Binary? || n.Unary? || n.Select? || n.Project? || n.Filter? ==> s[0] == '(' && s[|s| - 1] == ')')
      && (n.List? ==> s[0] == '[' && s[|s| - 1] == ']')
      && (n.Tuple? || n.Generate? ==> s[0] == '{' && s[|s| - 1] == '}')
      && (n.Call? ==> |s| > |n.name| && s[..|n.name|] == n.name && s[|n.name|] == '(' && s[|s| - 1] == ')')
      && (n.Call? && |n.args| == 0 ==> s == n.name + "()")
      && (n.Call? && |n.args| == 1 ==> s == n.name + "(" + ToString(n.args[0]) + ")")
  {
    if n.Call? {
      var s := ToString(n);
      var body := Join(seq(|n.args|, i requires 0 <= i < |n.args| => ToString(n.args[i])), ", ");
      assert s == n.name + "(" + body + ")";
      assert s[..|n.name|] == n.name;
    }
  }

  // ---------------------------------------------------------------------------
  // Selector kinds

  /** `sType` of a selection or projection: "col" when selecting by column name,
      "row" otherwise; a projection is decided by its first selector. */
  function SType(n: Node): (r: string)
    requires n.Select? || n.Project?
    ensures r == "col" || r == "row"
    ensures n.Select? ==> (r == "col" <==> n.ixCol.NameKey?)
    ensures n.Project? ==> (r == "col" <==> |n.ixCols| > 0 && n.ixCols[0].NameKey?)
  {
    if n.Select? then (if n.ixCol.NameKey? then "col" else "row")
    else if |n.ixCols| > 0 && n.ixCols[0].NameKey? then "col" else "row"
  }

  /** A projection has the kind of the selection by its first selector. */
  lemma {:induction false} ProjectSTypeIsFirstSelector(l: Node, ks: seq<Key>, loc: Loc)
    ensures |ks| > 0 ==> SType(Project(l, ks, loc)) == SType(Select(l, ks[0], loc))
    ensures |ks| == 0 ==> SType(Project(l, ks, loc)) == "row"
  {
  }

  // ---------------------------------------------------------------------------
  // Tuple construction

  function Reverse<T>(s: seq<T>): (r: seq<T>)
    ensures |r| == |s|
    ensures forall i :: 0 <= i < |s| ==> r[i] == s[|s| - 1 - i]
  {
    if |s| == 0 then [] else Reverse(s[1..]) + [s[0]]
  }

  /** The value stored under `k`, if any. */
  function Lookup(fs: seq<Field>, k: string): Option<Node>
  {
    if |fs| == 0 then None else if fs[0].key == k then Some(fs[0].value) else Lookup(fs[1..], k)
  }

  lemma {:induction false} LookupAt(fs: seq<Field>, i: nat)
    requires i < |fs| && Distinct(FieldKeys(fs))
    ensures Lookup(fs, fs[i].key) == Some(fs[i].value)
  {
    if i > 0 {
      assert FieldKeys(fs)[0] != FieldKeys(fs)[i];
      assert FieldKeys(fs[1..]) == FieldKeys(fs)[1..];
      LookupAt(fs[1..], i - 1);
    }
  }

  lemma {:induction false} LookupMissing(fs: seq<Field>, k: string)
    requires k !in FieldKeys(fs)
    ensures Lookup(fs, k) == None
  {
    if |fs| > 0 {
      assert FieldKeys(fs)[0] == fs[0].key;
      assert FieldKeys(fs[1..]) == FieldKeys(fs)[1..];
      LookupMissing(fs[1..], k);
    }
  }

  /** The `Tuple` constructor: the fields are stored in the reverse of the order
      in which they are given (the parser hands them over last to first). */
  method MakeTuple(given: seq<Field>, loc: Loc) returns (t: Node)
    requires Distinct(FieldKeys(given))
    ensures t == Tuple(Reverse(given), loc)
  {
    var stored: seq<Field> := [];
    var i := |given|;
    while i > 0
      invariant 0 <= i <= |given|
      invariant stored == Reverse(given[i..])
    {
      i := i - 1;
      assert given[i..][1..] == given[i + 1..];
      stored := stored + [given[i]];
    }
    t := Tuple(stored, loc);
  }

  /** Reordering the fields changes no field: the same keys map to the same values. */
  lemma {:induction false} ReverseKeepsFields(given: seq<Field>, k: string)
    requires Distinct(FieldKeys(given))
    ensures Distinct(FieldKeys(Reverse(given)))
    ensures Lookup(Reverse(given), k) == Lookup(given, k)
  {
    var r := Reverse(given);
    var n := |given|;
    forall i, j | 0 <= i < j < n ensures FieldKeys(r)[i] != FieldKeys(r)[j] {
      assert FieldKeys(given)[n - 1 - j] != FieldKeys(given)[n - 1 - i];
    }
    if exists i :: 0 <= i < n && given[i].key == k {
      var i :| 0 <= i < n && given[i].key == k;
      LookupAt(given, i);
      assert r[n - 1 - i] == given[i];
      LookupAt(r, n - 1 - i);
    } else {
      assert k !in FieldKeys(given);
      forall j | 0 <= j < n ensures FieldKeys(r)[j] != k {
        assert r[j] == given[n - 1 - j];
      }
      LookupMissing(given, k);
      LookupMissing(r, k);
    }
  }

  // ---------------------------------------------------------------------------
  // The printer and the children as the source states them

  /** Whether some node of the tree is an if-expression. */
  ghost predicate HasIf(n: Node)
  {
    exists m :: m in Nodes(n) && m.IfThenElse?
  }

  /** Whether some node of the tree is a comprehension. */
  ghost predicate HasGenerate(n: Node)
  {
    exists m :: m in Nodes(n) && m.Generate?
  }

  lemma {:induction false} HasIfViaChildren(n: Node)
    ensures HasIf(n) <==> n.IfThenElse? || exists i :: 0 <= i < |Children(n)| && HasIf(Children(n)[i])
  {
    var cs := Children(n);
    forall m | m in Nodes(n) ensures m == n || exists i :: 0 <= i < |cs| && m in Nodes(cs[i]) {
      NodesMember(n, m);
    }
    forall i, m | 0 <= i < |cs| && m in Nodes(cs[i]) ensures m in Nodes(n) {
      NodesMember(n, m);
    }
  }

  lemma {:induction false} HasGenerateViaChildren(n: Node)
    ensures HasGenerate(n) <==> n.Generate? || exists i :: 0 <= i < |Children(n)| && HasGenerate(Children(n)[i])
  {
    var cs := Children(n);
    forall m | m in Nodes(n) ensures m == n || exists i :: 0 <= i < |cs| && m in Nodes(cs[i]) {
      NodesMember(n, m);
    }
    forall i, m | 0 <= i < |cs| && m in Nodes(cs[i]) ensures m in Nodes(n) {
      NodesMember(n, m);
    }
  }

  predicate AllSome(ps: seq<Option<string>>)
  {
    forall i :: 0 <= i < |ps| ==> ps[i].Some?
  }

  function Values(ps: seq<Option<string>>): (r: seq<string>)
    requires AllSome(ps)
    ensures |r| == |ps| && forall i :: 0 <= i < |ps| ==> r[i] == ps[i].value
  {
    seq(|ps|, i requires 0 <= i < |ps| => ps[i].value)
  }

  /** `toString` as written: `None` where it throws. The if-expression printer
      reads `t` and `e`, which the constructor never sets (it sets `then` and
      `else`), so printing fails on reaching one. */
  function ToStringAsWritten(n: Node): Option<string>
  {
    match n
    case Literal(v, _) => Some(LitToString(v))
    case Identifier(x, _) => Some(x)
    case Binary(op, l, r, _) =>
      (match (ToStringAsWritten(l), ToStringAsWritten(r))
      case (Some(a), Some(b)) => Some("(" + a + " " + op + " " + b + ")")
      case _ => None)
    case Unary(op, a, _) =>
      (match ToStringAsWritten(a)
      case Some(x) => Some("(" + op + x + ")")
      case None => None)
    case List(es, _) =>
      var ps := seq(|es|, i requires 0 <= i < |es| => ToStringAsWritten(es[i]));
      if AllSome(ps) then Some("[" + Join(Values(ps), ", ") + "]") else None
    case Tuple(fs, _) =>
      var ps := seq(|fs|, i requires 0 <= i < |fs| => ToStringAsWritten(fs[i].value));
      if AllSome(ps) then
        Some("{" + Join(seq(|fs|, i requires 0 <= i < |fs| => fs[i].key + ":" + ps[i].value), ", ") + "}")
      else None
    case IfThenElse(_, _, _, _) => None
    case Select(l, k, _) =>
      (match ToStringAsWritten(l)
      case Some(x) => Some("(" + x + "." + KeyToString(k) + ")")
      case None => None)
    case Project(l, ks, _) =>
      (match ToStringAsWritten(l)
      case Some(x) => Some("(" + x + "{" + KeysToString(ks) + "})")
      case None => None)
    case Generate(e, ss, c, _) =>
      var ps := seq(|ss|, i requires 0 <= i < |ss| => ToStringAsWritten(ss[i].value));
      (match (ToStringAsWritten(e), ToStringAsWritten(c))
      case (Some(x), Some(y)) =>
        if AllSome(ps) then
          Some("{" + x + " for " + Join(seq(|ss|, i requires 0 <= i < |ss| => ss[i].key + " in " + ps[i].value), ", ")
            + " when " + y + "}")
        else None
      case _ => None)
    case Filter(l, f, _) =>
      (match (ToStringAsWritten(l), ToStringAsWritten(f))
      case (Some(a), Some(b)) => Some("(" + a + "[" + b + "])")
      case _ => None)
    case Call(name, xs, _) =>
      var ps := seq(|xs|, i requires 0 <= i < |xs| => ToStringAsWritten(xs[i]));
      if AllSome(ps) then Some(name + "(" + Join(Values(ps), ", ") + ")") else None
  }

  /** The claim about one tree, used as the induction hypothesis below. */
  ghost predicate PrintsUnlessIf(n: Node)
  {
    ToStringAsWritten(n) == if HasIf(n) then None else Some(ToString(n))
  }

  /** The printer as written fails exactly on trees holding an if-expression,
      and agrees with the corrected printer everywhere else. */
  lemma {:induction false} ToStringAsWrittenFailsOnIf(n: Node)
    ensures ToStringAsWritten(n) == if HasIf(n) then None else Some(ToString(n))
  {
    var cs := Children(n);
    forall i | 0 <= i < |cs| ensures PrintsUnlessIf(cs[i]) {
      assert cs[i] in cs;
      ToStringAsWrittenFailsOnIf(cs[i]);
    }
    HasIfViaChildren(n);
    if n.List? || n.Call? {
      PrintsUnlessIfSeq(n, cs);
    } else if n.Tuple? {
      PrintsUnlessIfTuple(n);
    } else if n.Generate? {
      GenerateParts(n);
      GenerateHasIf(n);
      PrintsUnlessIfGenerate(n);
    } else if n.Binary? || n.Filter? {
      assert cs == [cs[0], cs[1]];
    } else if n.Unary? || n.Select? || n.Project? {
      assert cs == [cs[0]];
    }
  }

  lemma {:induction false} PrintsUnlessIfSeq(n: Node, es: seq<Node>)
    requires n.List? || n.Call?
    requires es == Children(n)
    requires forall i :: 0 <= i < |es| ==> PrintsUnlessIf(es[i])
    requires HasIf(n) <==> exists i :: 0 <= i < |es| && HasIf(es[i])
    ensures PrintsUnlessIf(n)
  {
    var ps := seq(|es|, i requires 0 <= i < |es| => ToStringAsWritten(es[i]));
    if AllSome(ps) {
      forall i | 0 <= i < |es| ensures !HasIf(es[i]) {
        assert ps[i].Some?;
      }
      assert Values(ps) == seq(|es|, i requires 0 <= i < |es| => ToString(es[i]));
    } else {
      var i :| 0 <= i < |ps| && ps[i].None?;
      assert HasIf(es[i]);
    }
  }

  lemma {:induction false} PrintsUnlessIfTuple(n: Node)
    requires n.Tuple?
    requires forall i :: 0 <= i < |Children(n)| ==> PrintsUnlessIf(Children(n)[i])
    requires HasIf(n) <==> exists i :: 0 <= i < |Children(n)| && HasIf(Children(n)[i])
    ensures PrintsUnlessIf(n)
  {
    var fs := n.fields;
    var cs := Children(n);
    var ps := seq(|fs|, i requires 0 <= i < |fs| => ToStringAsWritten(fs[i].value));
    if AllSome(ps) {
      forall i | 0 <= i < |cs| ensures !HasIf(cs[i]) {
        assert cs[i] == fs[i].value && ps[i].Some?;
      }
      assert seq(|fs|, i requires 0 <= i < |fs| => fs[i].key + ":" + ps[i].value)
          == seq(|fs|, i requires 0 <= i < |fs| => fs[i].key + ":" + ToString(fs[i].value));
    } else {
      var i :| 0 <= i < |ps| && ps[i].None?;
      assert HasIf(cs[i]);
    }
  }

  /** The children of a comprehension: the expression, the source values in
      order, and the condition. */
  lemma GenerateChildren(n: Node)
    requires n.Generate?
    ensures Children(n) == [n.expr] + FieldValues(n.srcs) + [n.cond]
  {
  }


  /** The facts about a comprehension's children, restated on its parts. */
  lemma {:induction false} GenerateParts(n: Node)
    requires n.Generate?
    requires forall i :: 0 <= i < |Children(n)| ==> PrintsUnlessIf(Children(n)[i])
    ensures PrintsUnlessIf(n.expr) && PrintsUnlessIf(n.cond)
    ensures forall i :: 0 <= i < |n.srcs| ==> PrintsUnlessIf(n.srcs[i].value)
  {
    var cs, ss := Children(n), n.srcs;
    var vs := FieldValues(ss);
    GenerateChildren(n);
    assert cs[0] == n.expr && cs[|ss| + 1] == n.cond;
    assert PrintsUnlessIf(cs[0]) && PrintsUnlessIf(cs[|ss| + 1]);
    forall i | 0 <= i < |ss| ensures PrintsUnlessIf(ss[i].value) {
      assert cs[i + 1] == vs[i];
      assert PrintsUnlessIf(cs[i + 1]);
    }
  }

  lemma {:induction false} GenerateHasIf(n: Node)
    requires n.Generate?
    requires HasIf(n) <==> exists i :: 0 <= i < |Children(n)| && HasIf(Children(n)[i])
    ensures HasIf(n) <==> HasIf(n.expr) || HasIf(n.cond) || exists i :: 0 <= i < |n.srcs| && HasIf(n.srcs[i].value)
  {
    GenerateChildren(n);
    if HasIf(n) {
      var i :| 0 <= i < |Children(n)| && HasIf(Children(n)[i]);
      GenerateChildHasIf(n, i);
    } else {
      GenerateNoChildHasIf(n);
    }
  }

  lemma {:induction false} GenerateChildHasIf(n: Node, i: nat)
    requires n.Generate? && i < |Children(n)| && HasIf(Children(n)[i])
    requires Children(n) == [n.expr] + FieldValues(n.srcs) + [n.cond]
    ensures HasIf(n.expr) || HasIf(n.cond) || exists i :: 0 <= i < |n.srcs| && HasIf(n.srcs[i].value)
  {
    var ss := n.srcs;
    if 0 < i <= |ss| {
      assert Children(n)[i] == FieldValues(ss)[i - 1];
      assert HasIf(ss[i - 1].value);
    } else if i == 0 {
      assert Children(n)[i] == n.expr;
    } else {
      assert Children(n)[i] == n.cond;
    }
  }

  lemma {:induction false} GenerateNoChildHasIf(n: Node)
    requires n.Generate? && forall i :: 0 <= i < |Children(n)| ==> !HasIf(Children(n)[i])
    requires Children(n) == [n.expr] + FieldValues(n.srcs) + [n.cond]
    ensures !HasIf(n.expr) && !HasIf(n.cond) && forall i :: 0 <= i < |n.srcs| ==> !HasIf(n.srcs[i].value)
  {
    var cs, ss := Children(n), n.srcs;
    assert cs[0] == n.expr && cs[|ss| + 1] == n.cond;
    forall i | 0 <= i < |ss| ensures !HasIf(ss[i].value) {
      assert cs[i + 1] == FieldValues(ss)[i];
    }
  }

  lemma {:induction false} PrintsUnlessIfGenerate(n: Node)
    requires n.Generate?
    requires PrintsUnlessIf(n.expr) && PrintsUnlessIf(n.cond)
    requires forall i :: 0 <= i < |n.srcs| ==> PrintsUnlessIf(n.srcs[i].value)
    requires HasIf(n) <==> HasIf(n.expr) || HasIf(n.cond) || exists i :: 0 <= i < |n.srcs| && HasIf(n.srcs[i].value)
    ensures PrintsUnlessIf(n)
  {
    var ss := n.srcs;
    var ps := seq(|ss|, i requires 0 <= i < |ss| => ToStringAsWritten(ss[i].value));
    if HasIf(n) {
      if !HasIf(n.expr) && !HasIf(n.cond) {
        var i :| 0 <= i < |ss| && HasIf(ss[i].value);
        assert ps[i].None?;
      }
    } else {
      forall i | 0 <= i < |ss| ensures ps[i] == Some(ToString(ss[i].value)) {
        assert PrintsUnlessIf(ss[i].value);
      }
      assert seq(|ss|, i requires 0 <= i < |ss| => ss[i].key + " in " + ps[i].value)
          == seq(|ss|, i requires 0 <= i < |ss| => ss[i].key + " in " + ToString(ss[i].value));
    }
  }


  /** What `children()` hands back: a node, or (for a comprehension's sources) a
      plain dictionary that has no `visitAll`. */
  datatype Child = NodeChild(node: Node) | NonNode

  function ChildrenAsWritten(n: Node): (r: seq<Child>)
    ensures forall i :: 0 <= i < |r| && r[i].NodeChild? ==> r[i].node < n
    ensures n.Generate? ==> r == [NodeChild(n.expr), NonNode, NodeChild(n.cond)]
    ensures !n.Generate? ==> |r| == |Children(n)| && forall i :: 0 <= i < |r| ==> r[i] == NodeChild(Children(n)[i])
  {
    if n.Generate? then [NodeChild(n.expr), NonNode, NodeChild(n.cond)]
    else
      var cs := Children(n);
      seq(|cs|, i requires 0 <= i < |cs| => NodeChild(cs[i]))
  }

  /** The nodes a traversal reached, and whether it ended with a TypeError. */
  datatype Traversal = Traversal(visited: seq<Node>, failed: bool)

  /** `visitAll` over the children as written: calling `visitAll` on the
      sources dictionary throws, which stops the whole traversal. */
  function VisitAllAsWritten(n: Node, f: Node -> bool): (t: Traversal)
    ensures |t.visited| >= 1 && t.visited[0] == n
    decreases n, 1
  {
    if !f(n) then Traversal([n], false)
    else
      var t := VisitChildrenAsWritten(ChildrenAsWritten(n), f, n);
      Traversal([n] + t.visited, t.failed)
  }

  function VisitChildrenAsWritten(cs: seq<Child>, f: Node -> bool, ghost parent: Node): Traversal
    requires forall i :: 0 <= i < |cs| && cs[i].NodeChild? ==> cs[i].node < parent
    decreases parent, 0, |cs|
  {
    if |cs| == 0 then Traversal([], false)
    else if cs[0].NonNode? then Traversal([], true)
    else
      var t := VisitAllAsWritten(cs[0].node, f);
      if t.failed then t
      else
        var u := VisitChildrenAsWritten(cs[1..], f, parent);
        Traversal(t.visited + u.visited, u.failed)
  }

  lemma {:induction false} VisitChildrenNoGenerate(cs: seq<Node>, f: Node -> bool, parent: Node)
    requires forall i :: 0 <= i < |cs| ==> cs[i] < parent
    requires forall i :: 0 <= i < |cs| ==> VisitAllAsWritten(cs[i], f) == Traversal(VisitAll(cs[i], f), false)
    ensures VisitChildrenAsWritten(seq(|cs|, i requires 0 <= i < |cs| => NodeChild(cs[i])), f, parent)
         == Traversal(Flatten(seq(|cs|, i requires 0 <= i < |cs| => VisitAll(cs[i], f))), false)
  {
    var ws := seq(|cs|, i requires 0 <= i < |cs| => NodeChild(cs[i]));
    var parts := seq(|cs|, i requires 0 <= i < |cs| => VisitAll(cs[i], f));
    if |cs| > 0 {
      assert ws[1..] == seq(|cs[1..]|, i requires 0 <= i < |cs[1..]| => NodeChild(cs[1..][i]));
      assert parts[1..] == seq(|cs[1..]|, i requires 0 <= i < |cs[1..]| => VisitAll(cs[1..][i], f));
      VisitChildrenNoGenerate(cs[1..], f, parent);
    }
  }

  /** Without a comprehension in the tree the traversal as written is the
      corrected one and does not fail. */
  lemma {:induction false} VisitAllAsWrittenWithoutGenerate(n: Node, f: Node -> bool)
    requires !HasGenerate(n)
    ensures VisitAllAsWritten(n, f) == Traversal(VisitAll(n, f), false)
  {
    if f(n) {
      HasGenerateViaChildren(n);
      var cs := Children(n);
      forall i | 0 <= i < |cs| ensures VisitAllAsWritten(cs[i], f) == Traversal(VisitAll(cs[i], f), false) {
        assert cs[i] in cs;
        VisitAllAsWrittenWithoutGenerate(cs[i], f);
      }
      VisitChildrenNoGenerate(cs, f, n);
    }
  }

  /** On any comprehension it does not prune, the traversal as written visits
      the node and its expression, then fails on the sources: neither the
      source values nor the condition are reached. */
  lemma VisitAllAsWrittenOnGenerate(n: Node, f: Node -> bool)
    requires n.Generate? && f(n)
    ensures VisitAllAsWritten(n, f) == Traversal([n] + VisitAllAsWritten(n.expr, f).visited, true)
  {
    var cs := ChildrenAsWritten(n);
    assert cs[1..][0].NonNode?;
    assert VisitChildrenAsWritten(cs[1..], f, n) == Traversal([], true);
  }

  /** A child whose traversal fails makes the run over the children fail. */
  lemma {:induction false} VisitChildrenFailAt(ws: seq<Child>, f: Node -> bool, parent: Node, i: nat)
    requires forall j :: 0 <= j < |ws| && ws[j].NodeChild? ==> ws[j].node < parent
    requires i < |ws| && ws[i].NodeChild? && VisitAllAsWritten(ws[i].node, f).failed
    ensures VisitChildrenAsWritten(ws, f, parent).failed
  {
    if ws[0].NodeChild? && !VisitAllAsWritten(ws[0].node, f).failed {
      assert ws[1..][i - 1] == ws[i];
      VisitChildrenFailAt(ws[1..], f, parent, i - 1);
    }
  }

  /** A traversal that never prunes, such as the stamping of a new row, fails
      exactly on the trees that hold a comprehension somewhere. */
  lemma {:induction false} VisitAllAsWrittenFailsIff(n: Node, f: Node -> bool)
    requires forall m :: f(m)
    ensures VisitAllAsWritten(n, f).failed <==> HasGenerate(n)
  {
    if !HasGenerate(n) {
      VisitAllAsWrittenWithoutGenerate(n, f);
    } else if n.Generate? {
      VisitAllAsWrittenOnGenerate(n, f);
    } else {
      HasGenerateViaChildren(n);
      var cs := Children(n);
      var i :| 0 <= i < |cs| && HasGenerate(cs[i]);
      assert cs[i] in cs;
      VisitAllAsWrittenFailsIff(cs[i], f);
      var ws := ChildrenAsWritten(n);
      assert ws[i] == NodeChild(cs[i]);
      VisitChildrenFailAt(ws, f, n, i);
    }
  }

  /** `visit` as written: it too runs over `children()`, so calling `visit`
      on a comprehension's sources dictionary throws. `visited` lists the
      nodes handed to a handler. */
  function VisitAsWritten(n: Node, h: map<string, Node -> bool>): (t: Traversal)
    decreases n, 1
  {
    var here := if Type(n) in h then [n] else [];
    if Type(n) in h && !h[Type(n)](n) then Traversal(here, false)
    else
      var t := VisitChildrenHandled(ChildrenAsWritten(n), h, n);
      Traversal(here + t.visited, t.failed)
  }

  function VisitChildrenHandled(cs: seq<Child>, h: map<string, Node -> bool>, ghost parent: Node): Traversal
    requires forall i :: 0 <= i < |cs| && cs[i].NodeChild? ==> cs[i].node < parent
    decreases parent, 0, |cs|
  {
    if |cs| == 0 then Traversal([], false)
    else if cs[0].NonNode? then Traversal([], true)
    else
      var t := VisitAsWritten(cs[0].node, h);
      if t.failed then t
      else
        var u := VisitChildrenHandled(cs[1..], h, parent);
        Traversal(t.visited + u.visited, u.failed)
  }

  lemma {:induction false} VisitChildrenHandledNoGenerate(cs: seq<Node>, h: map<string, Node -> bool>, parent: Node)
    requires forall i :: 0 <= i < |cs| ==> cs[i] < parent
    requires forall i :: 0 <= i < |cs| ==> VisitAsWritten(cs[i], h) == Traversal(Visit(cs[i], h), false)
    ensures VisitChildrenHandled(seq(|cs|, i requires 0 <= i < |cs| => NodeChild(cs[i])), h, parent)
         == Traversal(Flatten(seq(|cs|, i requires 0 <= i < |cs| => Visit(cs[i], h))), false)
  {
    var ws := seq(|cs|, i requires 0 <= i < |cs| => NodeChild(cs[i]));
    var parts := seq(|cs|, i requires 0 <= i < |cs| => Visit(cs[i], h));
    if |cs| > 0 {
      assert ws[1..] == seq(|cs[1..]|, i requires 0 <= i < |cs[1..]| => NodeChild(cs[1..][i]));
      assert parts[1..] == seq(|cs[1..]|, i requires 0 <= i < |cs[1..]| => Visit(cs[1..][i], h));
      VisitChildrenHandledNoGenerate(cs[1..], h, parent);
    }
  }

  /** Without a comprehension in the tree `visit` as written is the corrected
      one and does not fail. */
  lemma {:induction false} VisitAsWrittenWithoutGenerate(n: Node, h: map<string, Node -> bool>)
    requires !HasGenerate(n)
    ensures VisitAsWritten(n, h) == Traversal(Visit(n, h), false)
  {
    if !(Type(n) in h && !h[Type(n)](n)) {
      HasGenerateViaChildren(n);
      var cs := Children(n);
      forall i | 0 <= i < |cs| ensures VisitAsWritten(cs[i], h) == Traversal(Visit(cs[i], h), false) {
        assert cs[i] in cs;
        VisitAsWrittenWithoutGenerate(cs[i], h);
      }
      VisitChildrenHandledNoGenerate(cs, h, n);
    }
  }

  /** On a comprehension whose handler does not answer `false`, `visit` as
      written handles the node and its expression, then fails on the sources;
      the corrected `visit` goes on to the sources and the condition. */
  lemma VisitAsWrittenOnGenerate(n: Node, h: map<string, Node -> bool>)
    requires n.Generate? && !(Type(n) in h && !h[Type(n)](n))
    ensures VisitAsWritten(n, h).failed
    ensures VisitAsWritten(n, h).visited == (if Type(n) in h then [n] else []) + VisitAsWritten(n.expr, h).visited
  {
    var cs := ChildrenAsWritten(n);
    assert cs[1..][0].NonNode?;
    assert VisitChildrenHandled(cs[1..], h, n) == Traversal([], true);
  }

  /** A comprehension over one source: the traversal as written stops with a
      TypeError after the expression, never reaching the source or the condition. */
  lemma {:induction false} VisitAllAsWrittenFailsOnGenerate()
    ensures var x := Identifier("x", NewLoc(1, 1));
      var t := Identifier("t", NewLoc(6, 6));
      var c := Literal(LBool(true), NewLoc(13, 16));
      var g := Generate(x, [Field("x", t)], c, NewLoc(0, 17));
      var f: Node -> bool := m => true;
      VisitAllAsWritten(g, f) == Traversal([g, x], true)
         && VisitAll(g, f) == [g, x, t, c]
  {
    var x := Identifier("x", NewLoc(1, 1));
    var t := Identifier("t", NewLoc(6, 6));
    var c := Literal(LBool(true), NewLoc(13, 16));
    var g := Generate(x, [Field("x", t)], c, NewLoc(0, 17));
    var f: Node -> bool := m => true;
    var cs := ChildrenAsWritten(g);
    assert cs[1..][0].NonNode?;
    assert VisitChildrenAsWritten(cs[1..], f, g) == Traversal([], true);
    assert VisitChildrenAsWritten(cs, f, g) == Traversal([x], true);
    VisitAllTotal(g, f);
    GenerateNodes(x, t, c, g);
  }

  /** The nodes of a one-source comprehension with leaf parts. */
  lemma GenerateNodes(x: Node, t: Node, c: Node, g: Node)
    requires x.Identifier? && t.Identifier? && c.Literal?
    requires g.Generate? && g.expr == x && g.srcs == [Field("x", t)] && g.cond == c
    ensures Nodes(g) == [g, x, t, c]
  {
    GenerateChildren(g);
    assert FieldValues(g.srcs) == [t];
    assert Children(g) == [x, t, c];
    NodesViaChildren(g);
    assert ChildNodes(g) == [[x], [t], [c]];
    Flatten3([x], [t], [c]);
  }

}
