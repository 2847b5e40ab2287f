/** The input side of a sheet: expression cells, the default permission
    matrix, and the input table whose rows are inserted, deleted and rewritten
    in place. The formula parser is a parameter. */
module Input {
  import opened Base
  import opened Ast

  // ---------------------------------------------------------------------------
  // Expressions

  datatype ParseOutcome = Parsed(ast: Node) | ParseError(message: string)

  /** `parseCell(src, cell)`: the formula parser, which may fail. */
  type Parser = (string, Option<string>) -> ParseOutcome

  /** A cell's formula: its source, its coordinate label, and the parse result
      (a tree, or the parser's error). */
  datatype Expr = Expr(src: string, cell: Option<string>, ast: Option<Node>, error: Option<string>)

  /** `new Expr(src, cell)` */
  function MakeExpr(src: string, cell: Option<string>, parse: Parser): (e: Expr)
    ensures e.src == src && e.cell == cell
    ensures parse(src, cell).Parsed? ==> e.ast == Some(parse(src, cell).ast) && e.error == None
    ensures parse(src, cell).ParseError? ==> e.ast == None && e.error == Some(parse(src, cell).message)
  {
    match parse(src, cell)
    case Parsed(ast) => Expr(src, cell, Some(ast), None)
    case ParseError(msg) => Expr(src, cell, None, Some(msg))
  }

  /** A row entry: a formula, or the row's owner under `_owner`. */
  datatype Entry = Formula(expr: Expr) | Owner(user: string)

  type Row = map<string, Entry>

  /** The five permission types. */
  datatype PermType = Read | Write | Init | Add | Del

  /** The name a permission type has in labels and in the table's `perms`. */
  function PermName(t: PermType): (s: string)
    ensures s in ["read", "write", "init", "add", "del"]
  {
    match t
    case Read => "read"
    case Write => "write"
    case Init => "init"
    case Add => "add"
    case Del => "del"
  }

  /** Permission formulas: permission type, then column (or `row`). */
  type Perms = map<PermType, map<string, Expr>>

  /** `a.b.c`, the form of every coordinate label. */
  function Label(a: string, b: string, c: string): string
  {
    a + "." + b + "." + c
  }

  /** A label is truthy when it is present and not empty. */
  predicate Truthy(cell: Option<string>)
  {
    cell.Some? && cell.value != ""
  }

  // ---------------------------------------------------------------------------
  // The default permission matrix

  /** `allow(tname, type, cname)`: an empty formula labelled `tname.type.cname`. */
  function Allow(tname: string, ptype: PermType, cname: string, parse: Parser): (e: Expr)
    ensures e.src == "" && e.cell == Some(Label(tname, PermName(ptype), cname))
  {
    MakeExpr("", Some(Label(tname, PermName(ptype), cname)), parse)
  }

  function ColumnPerms(tname: string, ptype: PermType, cs: seq<string>, parse: Parser): map<string, Expr>
  {
    map c | c in cs :: Allow(tname, ptype, c, parse)
  }

  /** The columns `read`, `write` and `init` cover by default. */
  function DefaultTargets(ptype: PermType, columns: seq<string>): seq<string>
  {
    if ptype == Init then columns else columns + ["row"]
  }

  /** The matrix `allowAll` builds, stated as a whole. */
  function PermsOf(tname: string, columns: seq<string>, parse: Parser): Perms
  {
    map[
      Read := ColumnPerms(tname, Read, DefaultTargets(Read, columns), parse),
      Write := ColumnPerms(tname, Write, DefaultTargets(Write, columns), parse),
      Init := ColumnPerms(tname, Init, DefaultTargets(Init, columns), parse),
      Add := map["row" := Allow(tname, Add, "row", parse)],
      Del := map["row" := Allow(tname, Del, "row", parse)]]
  }

  lemma ColumnPermsShape(tname: string, ptype: PermType, cs: seq<string>, parse: Parser)
    ensures forall c :: c in ColumnPerms(tname, ptype, cs, parse) <==> c in cs
    ensures forall c :: c in cs ==> ColumnPerms(tname, ptype, cs, parse)[c] == Allow(tname, ptype, c, parse)
  {
  }

  lemma ColumnPermsSnoc(tname: string, ptype: PermType, cs: seq<string>, c: string, parse: Parser)
    ensures ColumnPerms(tname, ptype, cs + [c], parse) == ColumnPerms(tname, ptype, cs, parse)[c := Allow(tname, ptype, c, parse)]
  {
    var m, n := ColumnPerms(tname, ptype, cs + [c], parse), ColumnPerms(tname, ptype, cs, parse)[c := Allow(tname, ptype, c, parse)];
    assert forall x :: x in cs + [c] <==> x in cs || x == c;
    assert m.Keys == n.Keys;
  }

  /** The shape of the default matrix: `read`/`write` hold every column and
      `row`, `init` only the columns, `add`/`del` only `row`. */
  lemma PermsOfShape(tname: string, columns: seq<string>, parse: Parser)
    ensures var p := PermsOf(tname, columns, parse);
      p.Keys == {Read, Write, Init, Add, Del}
      && (forall c :: c in p[Read] <==> c in columns || c == "row")
      && (forall c :: c in p[Write] <==> c in columns || c == "row")
      && (forall c :: c in p[Init] <==> c in columns)
      && p[Add].Keys == {"row"} && p[Del].Keys == {"row"}
  {
    PermsOfColumns(tname, columns, parse);
  }

  /** The columns `read`, `write` and `init` of the default matrix hold. */
  lemma PermsOfColumns(tname: string, columns: seq<string>, parse: Parser)
    ensures var p := PermsOf(tname, columns, parse);
      (forall c :: c in p[Read] <==> c in columns || c == "row")
      && (forall c :: c in p[Write] <==> c in columns || c == "row")
      && (forall c :: c in p[Init] <==> c in columns)
  {
    var p := PermsOf(tname, columns, parse);
    var rw := columns + ["row"];
    assert forall c :: c in rw <==> c in columns || c == "row";
    assert forall c :: c in p[Read] <==> c in columns || c == "row" by {
      assert p[Read] == ColumnPerms(tname, Read, rw, parse);
      ColumnPermsShape(tname, Read, rw, parse);
    }
    assert forall c :: c in p[Write] <==> c in columns || c == "row" by {
      assert p[Write] == ColumnPerms(tname, Write, rw, parse);
      ColumnPermsShape(tname, Write, rw, parse);
    }
    assert forall c :: c in p[Init] <==> c in columns by {
      assert p[Init] == ColumnPerms(tname, Init, columns, parse);
      ColumnPermsShape(tname, Init, columns, parse);
    }
  }

  /** Every entry of the default matrix is the empty formula labelled with its
      table, type and column. */
  lemma PermsOfEntries(tname: string, columns: seq<string>, parse: Parser, t: PermType, c: string)
    requires t in PermsOf(tname, columns, parse) && c in PermsOf(tname, columns, parse)[t]
    ensures PermsOf(tname, columns, parse)[t][c] == Allow(tname, t, c, parse)
    ensures PermsOf(tname, columns, parse)[t][c].src == ""
    ensures PermsOf(tname, columns, parse)[t][c].cell == Some(Label(tname, PermName(t), c))
  {
    var p := PermsOf(tname, columns, parse);
    match t
    case Read => assert p[t] == ColumnPerms(tname, Read, DefaultTargets(Read, columns), parse);
    case Write => assert p[t] == ColumnPerms(tname, Write, DefaultTargets(Write, columns), parse);
    case Init => assert p[t] == ColumnPerms(tname, Init, DefaultTargets(Init, columns), parse);
    case Add => assert p[t] == map["row" := Allow(tname, Add, "row", parse)];
    case Del => assert p[t] == map["row" := Allow(tname, Del, "row", parse)];
  }

  /** The formulas of one of `read`, `write`, `init`: one per column, then
      `row` unless the type is `init`. */
  method FillType(tname: string, p: PermType, columns: seq<string>, parse: Parser) returns (m: map<string, Expr>)
    ensures m == ColumnPerms(tname, p, DefaultTargets(p, columns), parse)
  {
    m := map[];
    for j := 0 to |columns|
      invariant m == ColumnPerms(tname, p, columns[..j], parse)
    {
      assert columns[..j + 1] == columns[..j] + [columns[j]];
      ColumnPermsSnoc(tname, p, columns[..j], columns[j], parse);
      m := m[columns[j] := Allow(tname, p, columns[j], parse)];
    }
    assert columns[..|columns|] == columns;
    if p != Init {
      ColumnPermsSnoc(tname, p, columns, "row", parse);
      m := m["row" := Allow(tname, p, "row", parse)];
    }
  }

  /** `allowAll(tname, columns)`, filling a fresh dictionary type by type. */
  method AllowAll(tname: string, columns: seq<string>, parse: Parser) returns (ret: Perms)
    ensures ret == PermsOf(tname, columns, parse)
  {
    var types := [Read, Write, Init];
    ret := map[];
    for k := 0 to 3
      invariant forall q :: q in ret <==> q in types[..k]
      invariant forall q :: q in ret ==> ret[q] == ColumnPerms(tname, q, DefaultTargets(q, columns), parse)
    {
      var m := FillType(tname, types[k], columns, parse);
      ret := ret[types[k] := m];
      assert types[..k + 1] == types[..k] + [types[k]];
    }
    assert types[..3] == types;
    assert Read in ret && Write in ret && Init in ret;
    assert ret.Keys == {Read, Write, Init};
    PermsOfFromTypes(ret, tname, columns, parse);
    ret := ret[Add := map["row" := Allow(tname, Add, "row", parse)]];
    ret := ret[Del := map["row" := Allow(tname, Del, "row", parse)]];
  }

  /** The `read`, `write` and `init` part of the matrix, completed by `add` and `del`. */
  lemma PermsOfFromTypes(ret: Perms, tname: string, columns: seq<string>, parse: Parser)
    requires ret.Keys == {Read, Write, Init}
    requires ret[Read] == ColumnPerms(tname, Read, DefaultTargets(Read, columns), parse)
    requires ret[Write] == ColumnPerms(tname, Write, DefaultTargets(Write, columns), parse)
    requires ret[Init] == ColumnPerms(tname, Init, DefaultTargets(Init, columns), parse)
    ensures ret[Add := map["row" := Allow(tname, Add, "row", parse)]][Del := map["row" := Allow(tname, Del, "row", parse)]]
      == PermsOf(tname, columns, parse)
  {
    var p := PermsOf(tname, columns, parse);
    var r := ret[Add := map["row" := Allow(tname, Add, "row", parse)]][Del := map["row" := Allow(tname, Del, "row", parse)]];
    assert r.Keys == p.Keys;
    assert r[Read] == p[Read] && r[Write] == p[Write] && r[Init] == p[Init];
    assert r[Add] == p[Add] && r[Del] == p[Del];
  }


  // ---------------------------------------------------------------------------
  // Row insertion: clone the `init` formulas and stamp them with coordinates

  datatype InputError = InvalidIndex | InvalidColumn | InvalidRow | TypeError

  datatype Status = Done | Failed(error: InputError)

  /** A cloned init formula stamped for the cell it now fills: a formula with a
      truthy label gets the new label, and so does every node of its tree. */
  function Restamp(e: Expr, stamp: string): (r: Expr)
    requires Truthy(e.cell) ==> e.ast.Some?
  {
    if Truthy(e.cell) then e.(cell := Some(stamp), ast := Some(Relabel(e.ast.value, stamp))) else e
  }

  /** The stamping callback of `addRow`: it sets the node's label and answers
      nothing, so it never prunes. */
  function StampCallback(): Node -> bool
  {
    m => true
  }

  /** An init formula with a truthy label whose stamping throws: it has no
      tree, so `visitAll` is called on nothing, or the traversal as written
      fails on its tree. */
  predicate Unstampable(e: Expr)
  {
    Truthy(e.cell) && (e.ast.None? || VisitAllAsWritten(e.ast.value, StampCallback()).failed)
  }

  /** Stamping throws exactly on a labelled formula with no tree or with a
      comprehension somewhere in its tree. */
  lemma UnstampableIff(init: map<string, Expr>)
    ensures forall k :: k in init ==>
      (Unstampable(init[k]) <==> Truthy(init[k].cell) && (init[k].ast.None? || HasGenerate(init[k].ast.value)))
  {
    forall k | k in init && Truthy(init[k].cell) && init[k].ast.Some?
      ensures VisitAllAsWritten(init[k].ast.value, StampCallback()).failed <==> HasGenerate(init[k].ast.value)
    {
      VisitAllAsWrittenFailsIff(init[k].ast.value, StampCallback());
    }
  }

  /** The row `addRow` builds at index `idx` from the `init` formulas; it
      fails with a `TypeError` when stamping some formula throws. */
  function NewRow(init: map<string, Expr>, tname: string, idx: nat, user: string): (r: Result<Row, InputError>)
    ensures r.Err? <==> exists k :: k in init && Truthy(init[k].cell) && (init[k].ast.None? || HasGenerate(init[k].ast.value))
    ensures r.Err? ==> r.error == TypeError
  {
    UnstampableIff(init);
    if exists k :: k in init && Unstampable(init[k]) then Err(TypeError)
    else
      Ok((map k | k in init :: Formula(Restamp(init[k], Label(tname, NatToString(idx), k))))["_owner" := Owner(user)])
  }

  /** The new row has exactly the init columns and `_owner`, which holds the
      acting user; every other entry keeps its source and, when labelled, is
      relabelled `name.idx.column` down to each node of its tree. */
  lemma NewRowShape(init: map<string, Expr>, tname: string, idx: nat, user: string)
    requires NewRow(init, tname, idx, user).Ok?
    ensures var row := NewRow(init, tname, idx, user).value;
      row.Keys == init.Keys + {"_owner"}
      && row["_owner"] == Owner(user)
      && forall k :: k in init && k != "_owner" ==>
           row[k].Formula? && row[k].expr.src == init[k].src
           && (!Truthy(init[k].cell) ==> row[k].expr == init[k])
           && (Truthy(init[k].cell) ==>
                 row[k].expr.cell == Some(Label(tname, NatToString(idx), k))
                 && row[k].expr.ast.Some?
                 && VisitAllAsWritten(init[k].ast.value, StampCallback()) == Traversal(Nodes(init[k].ast.value), false)
                 && (forall m :: m in Nodes(row[k].expr.ast.value) ==> m.loc.cell == Label(tname, NatToString(idx), k))
                 && ToString(row[k].expr.ast.value) == ToString(init[k].ast.value))
  {
    var row := NewRow(init, tname, idx, user).value;
    forall k | k in init && k != "_owner" && Truthy(init[k].cell)
      ensures VisitAllAsWritten(init[k].ast.value, StampCallback()) == Traversal(Nodes(init[k].ast.value), false)
      ensures forall m :: m in Nodes(row[k].expr.ast.value) ==> m.loc.cell == Label(tname, NatToString(idx), k)
      ensures ToString(row[k].expr.ast.value) == ToString(init[k].ast.value)
    {
      var stamp := Label(tname, NatToString(idx), k);
      assert !HasGenerate(init[k].ast.value);
      VisitAllAsWrittenWithoutGenerate(init[k].ast.value, StampCallback());
      VisitAllTotal(init[k].ast.value, StampCallback());
      RelabelStampsEveryNode(init[k].ast.value, stamp);
      RelabelKeepsToString(init[k].ast.value, stamp);
    }
  }

  /** Labels name distinct cells: the stamp records the row index it was made for. */
  lemma LabelsIdentifyRows(tname: string, i: nat, j: nat, k: string)
    requires i != j
    ensures Label(tname, NatToString(i), k) != Label(tname, NatToString(j), k)
  {
    var a, b := NatToString(i), NatToString(j);
    ParseNatToString(i);
    ParseNatToString(j);
    assert a != b;
    DigitsNoDot(a);
    DigitsNoDot(b);
    assert Label(tname, a, k) == (tname + ".") + a + ("." + k);
    assert Label(tname, b, k) == (tname + ".") + b + ("." + k);
    DotFreeMiddle(tname + ".", a, b, "." + k);
  }

  lemma DigitsNoDot(s: string)
    requires forall i :: 0 <= i < |s| ==> IsDigit(s[i])
    ensures '.' !in s
  {
    forall i | 0 <= i < |s| ensures s[i] != '.' {
      assert IsDigit(s[i]);
    }
  }

  /** Two different dot-free middles followed by a dot give different strings. */
  lemma DotFreeMiddle(p: string, a: string, b: string, q: string)
    requires '.' !in a && '.' !in b && |q| > 0 && q[0] == '.' && a != b
    ensures p + a + q != p + b + q
  {
    var s, t := p + a + q, p + b + q;
    if |a| < |b| {
      assert s[|p| + |a|] == '.';
      assert t[|p| + |a|] == b[|a|];
    } else if |b| < |a| {
      assert t[|p| + |b|] == '.';
      assert s[|p| + |b|] == a[|b|];
    } else {
      var d :| 0 <= d < |a| && a[d] != b[d];
      assert s[|p| + d] == a[d];
      assert t[|p| + d] == b[d];
    }
  }

  // ---------------------------------------------------------------------------
  // Cell rewrite

  /** The label a cell rewrite keeps: an owner entry is a plain string, whose
      `cell` is undefined. */
  function LabelOf(e: Entry): Option<string>
  {
    if e.Formula? then e.expr.cell else None
  }

  // ---------------------------------------------------------------------------
  // Export: the table without parse trees

  datatype ExportedExpr = ExportedExpr(src: string, cell: Option<string>, error: Option<string>)

  datatype ExportedEntry = ExportedFormula(expr: ExportedExpr) | ExportedOwner(user: string)

  datatype Exported = Exported(
    name: string, description: string, owner: string, columns: seq<string>,
    perms: map<PermType, map<string, ExportedExpr>>,
    cells: map<string, map<string, ExportedEntry>>)

  function StripExpr(e: Expr): (r: ExportedExpr)
    ensures r.src == e.src && r.cell == e.cell && r.error == e.error
  {
    ExportedExpr(e.src, e.cell, e.error)
  }

  function StripEntry(e: Entry): (r: ExportedEntry)
    ensures e.Owner? <==> r.ExportedOwner?
    ensures e.Owner? ==> r.user == e.user
    ensures e.Formula? ==> r.expr == StripExpr(e.expr)
  {
    match e
    case Formula(x) => ExportedFormula(StripExpr(x))
    case Owner(u) => ExportedOwner(u)
  }

  function StripRow(r: Row): map<string, ExportedEntry>
  {
    map k | k in r :: StripEntry(r[k])
  }

  function StripPerms(p: Perms): map<PermType, map<string, ExportedExpr>>
  {
    map t | t in p :: map c | c in p[t] :: StripExpr(p[t][c])
  }

  /** Rows indexed by their position as a decimal key, as `_.mapObject` does to an array. */
  function IndexKeyed<T>(rows: seq<T>): map<string, T>
  {
    if |rows| == 0 then map[]
    else IndexKeyed(rows[..|rows| - 1])[NatToString(|rows| - 1) := rows[|rows| - 1]]
  }

  lemma {:induction false} IndexKeyedAt<T>(rows: seq<T>, i: nat)
    requires i < |rows|
    ensures NatToString(i) in IndexKeyed(rows) && IndexKeyed(rows)[NatToString(i)] == rows[i]
    decreases |rows|
  {
    var n := |rows| - 1;
    if i < n {
      IndexKeyedAt(rows[..n], i);
      NatToStringDistinct(i, n);
    }
  }

  lemma {:induction false} IndexKeyedKey<T>(rows: seq<T>, k: string)
    requires k in IndexKeyed(rows)
    ensures exists i :: 0 <= i < |rows| && k == NatToString(i)
    decreases |rows|
  {
    var n := |rows| - 1;
    if k != NatToString(n) {
      IndexKeyedKey(rows[..n], k);
    }
  }

  /** `k` is the decimal key of a position below `n`. */
  predicate PositionKey(k: string, n: nat)
  {
    exists i :: 0 <= i < n && k == NatToString(i)
  }

  /** Row `i` sits under key `NatToString(i)`, and there are no other keys. */
  lemma IndexKeyedSpec<T>(rows: seq<T>)
    ensures forall i :: 0 <= i < |rows| ==> NatToString(i) in IndexKeyed(rows) && IndexKeyed(rows)[NatToString(i)] == rows[i]
    ensures forall k :: k in IndexKeyed(rows) ==> PositionKey(k, |rows|)
  {
    forall i | 0 <= i < |rows| ensures NatToString(i) in IndexKeyed(rows) && IndexKeyed(rows)[NatToString(i)] == rows[i] {
      IndexKeyedAt(rows, i);
    }
    forall k | k in IndexKeyed(rows) ensures PositionKey(k, |rows|) {
      IndexKeyedKey(rows, k);
    }
  }

  // ---------------------------------------------------------------------------
  // The input table

  class InputTable {
    const name: string
    const description: string
    const owner: string
    const columns: seq<string>
    const parse: Parser
    var perms: Perms
    var cells: seq<Row>

    /** A table starts with no rows and the default permission matrix. */
    constructor (name: string, description: string, owner: string, columns: seq<string>, parse: Parser)
      ensures this.name == name && this.description == description && this.owner == owner
      ensures this.columns == columns && this.parse == parse
      ensures perms == PermsOf(name, columns, parse) && cells == []
    {
      this.name := name;
      this.description := description;
      this.owner := owner;
      this.columns := columns;
      this.parse := parse;
      var p := AllowAll(name, columns, parse);
      perms := p;
      cells := [];
    }

    /** `addRow(user, i)`: without an index the row is appended; an index
        outside `0..|cells|` is refused; otherwise the stamped clone of the
        `init` formulas is inserted at the index and later rows shift up,
        keeping the labels they had. Stamping throws a `TypeError` on a
        labelled init formula with no tree or with a comprehension in its
        tree. A failure changes nothing. */
    method AddRow(user: string, i: Option<int>) returns (s: Status)
      modifies this
      ensures perms == old(perms)
      ensures var n := |old(cells)|;
        var idx := if i.None? then n else i.value;
        (s == Failed(InvalidIndex) <==> idx < 0 || idx > n)
        && (s.Failed? ==> cells == old(cells))
        && (s.Failed? && s.error != InvalidIndex ==> s.error == TypeError)
        && (0 <= idx <= n ==>
              (s.Done? <==> Init in perms && NewRow(perms[Init], name, idx, user).Ok?))
        && (0 <= idx <= n && Init in perms ==>
              (s == Failed(TypeError) <==>
                 exists k :: k in perms[Init] && Truthy(perms[Init][k].cell)
                   && (perms[Init][k].ast.None? || HasGenerate(perms[Init][k].ast.value))))
        && (s.Done? ==>
              0 <= idx <= n && Init in perms && NewRow(perms[Init], name, idx, user).Ok?
              && cells == old(cells)[..idx] + [NewRow(perms[Init], name, idx, user).value] + old(cells)[idx..])
    {
      var idx := if i.None? then |cells| else i.value;
      if idx < 0 || idx > |cells| {
        return Failed(InvalidIndex);
      }
      if Init !in perms {
        return Failed(TypeError);
      }
      var row := NewRow(perms[Init], name, idx, user);
      if row.Err? {
        return Failed(row.error);
      }
      cells := cells[..idx] + [row.value] + cells[idx..];
      s := Done;
    }

    /** `deleteRow(i)`: removes exactly row `i`, keeping the others in order;
        an index outside `0..|cells|-1` is refused and changes nothing. */
    method DeleteRow(i: int) returns (s: Status)
      modifies this
      ensures perms == old(perms)
      ensures s.Failed? <==> i < 0 || i >= |old(cells)|
      ensures s.Failed? ==> s.error == InvalidIndex && cells == old(cells)
      ensures s.Done? ==> cells == old(cells)[..i] + old(cells)[i + 1..]
    {
      if i < 0 || i >= |cells| {
        return Failed(InvalidIndex);
      }
      cells := cells[..i] + cells[i + 1..];
      s := Done;
    }

    /** `writeCell(row, col, src)`: an unknown column and then an out-of-range
        row are refused; a column the row lacks fails reading the old cell;
        otherwise only that cell changes, to the parse of `src` under the old
        cell's label. */
    method WriteCell(row: int, col: string, src: string) returns (s: Status)
      modifies this
      ensures perms == old(perms)
      ensures s == Failed(InvalidColumn) <==> col !in columns
      ensures s == Failed(InvalidRow) <==> col in columns && (row < 0 || row >= |old(cells)|)
      ensures s == Failed(TypeError) <==> col in columns && 0 <= row < |old(cells)| && col !in old(cells)[row]
      ensures s.Failed? ==> cells == old(cells)
      ensures s.Done? ==>
        0 <= row < |old(cells)| && col in old(cells)[row]
        && cells == old(cells)[row := old(cells)[row][col := Formula(MakeExpr(src, LabelOf(old(cells)[row][col]), parse))]]
    {
      if col !in columns {
        return Failed(InvalidColumn);
      }
      if row < 0 || row >= |cells| {
        return Failed(InvalidRow);
      }
      if col !in cells[row] {
        return Failed(TypeError);
      }
      var oldCell := cells[row][col];
      cells := cells[row := cells[row][col := Formula(MakeExpr(src, LabelOf(oldCell), parse))]];
      s := Done;
    }

    /** `export()`: the table with every parse tree dropped and the rows keyed
        by their index. */
    function Export(): (e: Exported)
      reads this
      ensures e.name == name && e.description == description && e.owner == owner && e.columns == columns
      ensures e.perms.Keys == perms.Keys
      ensures forall t :: t in perms ==> e.perms[t].Keys == perms[t].Keys
      ensures forall t, c :: t in perms && c in perms[t] ==> e.perms[t][c] == StripExpr(perms[t][c])
      ensures forall i :: 0 <= i < |cells| ==> NatToString(i) in e.cells && e.cells[NatToString(i)] == StripRow(cells[i])
      ensures forall k :: k in e.cells ==> PositionKey(k, |cells|)
    {
      var rows := cells;
      var stripped := seq(|rows|, i requires 0 <= i < |rows| => StripRow(rows[i]));
      IndexKeyedSpec(stripped);
      Exported(name, description, owner, columns, StripPerms(perms), IndexKeyed(stripped))
    }
  }

}
