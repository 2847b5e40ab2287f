/** Importing a table from a spreadsheet exported as CSV (`app/import.js`).
    The sheet holds the table name in A1, its description in A2, a header
    row at row 4 (index 3) followed by the data rows, and, two columns to
    the right of the header, a second square of the same width whose rows
    are the `read`, `write`, `init`, `add` and `del` permission formulas. */
module Importer {
  import opened Base
  import opened Input

  /** The parsed CSV: a sequence of rows of cell texts. */
  type Csv = seq<seq<string>>

  /** The ways `csvToTable` throws. `ReadUndefined` stands for the JavaScript
      `TypeError` raised by reading a property of a missing row, column or
      permission type. */
  datatype ImportError = ReadUndefined | NotAMatrix | FormatError | NoInitColumn | NoAddDelForColumns

  /** Every row is as long as the first. */
  predicate IsMatrix(csv: Csv)
  {
    |csv| > 0 && forall r :: 0 <= r < |csv| ==> |csv[r]| == |csv[0]|
  }

  // ---------------------------------------------------------------------------
  // getSquare
  // ---------------------------------------------------------------------------

  /** The first column at or after `c` whose cell is empty or missing. */
  function HeaderEnd(row: seq<string>, c: nat): (e: nat)
    ensures c <= e && (e == c || e <= |row|)
    ensures forall k :: c <= k < e ==> row[k] != ""
    ensures e < |row| ==> row[e] == ""
    decreases |row| - c
  {
    if c >= |row| || row[c] == "" then c else HeaderEnd(row, c + 1)
  }

  /** `findLastIndex` on column `c` among the first `n` rows: the last row
      whose cell in that column is not empty, or -1. */
  function LastFilled(csv: Csv, c: nat, n: nat): (r: int)
    requires n <= |csv|
    requires forall i :: 0 <= i < |csv| ==> c < |csv[i]|
    ensures -1 <= r < n
    ensures r >= 0 ==> csv[r][c] != ""
  {
    if n == 0 then -1
    else if csv[n - 1][c] != "" then n - 1
    else LastFilled(csv, c, n - 1)
  }

  /** Every row after the last filled one is empty in that column. */
  lemma {:induction false} LastFilledBelow(csv: Csv, c: nat, n: nat)
    requires n <= |csv|
    requires forall i :: 0 <= i < |csv| ==> c < |csv[i]|
    ensures forall i :: LastFilled(csv, c, n) < i < n ==> csv[i][c] == ""
  {
    if n > 0 && csv[n - 1][c] == "" {
      LastFilledBelow(csv, c, n - 1);
    }
  }

  lemma LastFilledAtLeast(csv: Csv, c: nat, n: nat, i: nat)
    requires i < n <= |csv|
    requires forall i :: 0 <= i < |csv| ==> c < |csv[i]|
    requires csv[i][c] != ""
    ensures LastFilled(csv, c, n) >= i
  {
    LastFilledBelow(csv, c, n);
  }

  /** The largest `LastFilled` over the columns `cs .. e-1` (at least one). */
  function MaxLastFilled(csv: Csv, cs: nat, e: nat): (r: int)
    requires cs < e
    requires forall i :: 0 <= i < |csv| ==> e <= |csv[i]|
    ensures -1 <= r < |csv|
    decreases e
  {
    if e == cs + 1 then LastFilled(csv, cs, |csv|)
    else
      var m := MaxLastFilled(csv, cs, e - 1);
      var l := LastFilled(csv, e - 1, |csv|);
      if l > m then l else m
  }

  /** No column of the run is filled further down than the maximum. */
  lemma {:induction false} MaxLastFilledAbove(csv: Csv, cs: nat, e: nat)
    requires cs < e
    requires forall i :: 0 <= i < |csv| ==> e <= |csv[i]|
    ensures forall c :: cs <= c < e ==> LastFilled(csv, c, |csv|) <= MaxLastFilled(csv, cs, e)
    decreases e
  {
    if e > cs + 1 {
      MaxLastFilledAbove(csv, cs, e - 1);
    }
  }

  /** Some column of the run is filled down to the maximum. */
  lemma {:induction false} MaxLastFilledWitness(csv: Csv, cs: nat, e: nat) returns (c: nat)
    requires cs < e
    requires forall i :: 0 <= i < |csv| ==> e <= |csv[i]|
    ensures cs <= c < e && LastFilled(csv, c, |csv|) == MaxLastFilled(csv, cs, e)
    decreases e
  {
    if e == cs + 1 {
      c := cs;
    } else if LastFilled(csv, e - 1, |csv|) > MaxLastFilled(csv, cs, e - 1) {
      c := e - 1;
    } else {
      c := MaxLastFilledWitness(csv, cs, e - 1);
    }
  }

  /** Some cell of the row in the columns `from .. to-1` is not empty. */
  predicate Filled(row: seq<string>, from: nat, to: nat)
    requires to <= |row|
  {
    exists k :: from <= k < to && row[k] != ""
  }

  /** `getSquare(csv, rowStart, colStart)`: the block that starts at the
      given cell, as wide as the run of non-empty cells there, and as tall as
      the last row holding a non-empty cell in one of its columns. */
  function Square(csv: Csv, rs: nat, cs: nat): Result<Csv, ImportError>
    requires IsMatrix(csv)
  {
    if rs >= |csv| then Err(ReadUndefined)
    else
      var e := HeaderEnd(csv[rs], cs);
      if e == cs then Ok([])
      else
        var re := MaxLastFilled(csv, cs, e);
        LastFilledAtLeast(csv, cs, |csv|, rs);
        MaxLastFilledAbove(csv, cs, e);
        Ok(seq(re + 1 - rs, i requires 0 <= i < re + 1 - rs => csv[rs + i][cs..e]))
  }

  /** What the square is: its first row is the header run, every row is a
      slice of the matching sheet row over the header's columns, no later
      row has anything in those columns, and the last row has something. */
  lemma SquareSpec(csv: Csv, rs: nat, cs: nat)
    requires IsMatrix(csv) && rs < |csv|
    ensures Square(csv, rs, cs).Ok?
    ensures Square(csv, rs, cs).value == [] <==> cs >= |csv[0]| || csv[rs][cs] == ""
    ensures Square(csv, rs, cs).value != [] ==>
      (var sq := Square(csv, rs, cs).value;
       var w := |sq[0]|;
       cs + w <= |csv[0]|
       && rs + |sq| <= |csv|
       && (forall k :: cs <= k < cs + w ==> csv[rs][k] != "")
       && (cs + w < |csv[0]| ==> csv[rs][cs + w] == "")
       && (forall i :: 0 <= i < |sq| ==> sq[i] == csv[rs + i][cs..cs + w])
       && (forall i, k :: rs + |sq| <= i < |csv| && cs <= k < cs + w ==> csv[i][k] == "")
       && Filled(csv[rs + |sq| - 1], cs, cs + w))
  {
    var e := HeaderEnd(csv[rs], cs);
    if e != cs {
      var re := MaxLastFilled(csv, cs, e);
      LastFilledAtLeast(csv, cs, |csv|, rs);
      MaxLastFilledAbove(csv, cs, e);
      BelowLastFilled(csv, cs, e);
      LastRowFilled(csv, cs, e, re);
    }
  }

  /** Below the last filled row of a run of columns, those columns are empty. */
  lemma BelowLastFilled(csv: Csv, cs: nat, e: nat)
    requires cs < e && forall i :: 0 <= i < |csv| ==> e <= |csv[i]|
    ensures forall i, k :: MaxLastFilled(csv, cs, e) < i < |csv| && cs <= k < e ==> csv[i][k] == ""
  {
    var re := MaxLastFilled(csv, cs, e);
    MaxLastFilledAbove(csv, cs, e);
    forall i, k | re < i < |csv| && cs <= k < e ensures csv[i][k] == "" {
      LastFilledBelow(csv, k, |csv|);
    }
  }

  /** The last filled row of a run of columns has something in them. */
  lemma LastRowFilled(csv: Csv, cs: nat, e: nat, re: int)
    requires cs < e && forall i :: 0 <= i < |csv| ==> e <= |csv[i]|
    requires re == MaxLastFilled(csv, cs, e) && 0 <= re
    ensures Filled(csv[re], cs, e)
  {
    var c := MaxLastFilledWitness(csv, cs, e);
    assert csv[re][c] != "";
  }

  /** A square is empty exactly when its first cell is empty or missing. */
  lemma SquareEmpty(csv: Csv, rs: nat, cs: nat)
    requires IsMatrix(csv) && rs < |csv|
    ensures Square(csv, rs, cs).Ok?
    ensures Square(csv, rs, cs).value == [] <==> HeaderEnd(csv[rs], cs) == cs
    ensures Square(csv, rs, cs).value == [] <==> cs >= |csv[0]| || csv[rs][cs] == ""
  {
    var e := HeaderEnd(csv[rs], cs);
    if e != cs {
      LastFilledAtLeast(csv, cs, |csv|, rs);
      MaxLastFilledAbove(csv, cs, e);
    }
  }

  /** Row `i` of a non-empty square is a slice of sheet row `rs + i`. */
  lemma SquareAt(csv: Csv, rs: nat, cs: nat, i: nat)
    requires IsMatrix(csv) && rs < |csv|
    requires Square(csv, rs, cs).Ok? && i < |Square(csv, rs, cs).value|
    ensures var sq := Square(csv, rs, cs).value;
      rs + i < |csv| && cs + |sq[0]| <= |csv[rs + i]| && sq[i] == csv[rs + i][cs..cs + |sq[0]|]
  {
    SquareSpec(csv, rs, cs);
  }

  /** The square's rows all have the header's width, which is positive. */
  lemma SquareWidth(csv: Csv, rs: nat, cs: nat)
    requires IsMatrix(csv) && rs < |csv|
    ensures Square(csv, rs, cs).Ok?
    ensures var sq := Square(csv, rs, cs).value;
      sq != [] ==>
        (0 < |sq[0]| && cs + |sq[0]| == HeaderEnd(csv[rs], cs) <= |csv[0]|
         && forall i :: 0 <= i < |sq| ==> |sq[i]| == |sq[0]|)
  {
    SquareSpec(csv, rs, cs);
  }

  /** `getSquare` with its scanning loop. */
  method GetSquare(csv: Csv, rowStart: nat, colStart: nat) returns (r: Result<Csv, ImportError>)
    requires IsMatrix(csv)
    ensures r == Square(csv, rowStart, colStart)
  {
    if rowStart >= |csv| {
      return Err(ReadUndefined);
    }
    var col := colStart;
    while col < |csv[rowStart]| && csv[rowStart][col] != ""
      invariant colStart <= col
      invariant HeaderEnd(csv[rowStart], col) == HeaderEnd(csv[rowStart], colStart)
      decreases |csv[rowStart]| - col
    {
      col := col + 1;
    }
    if col == colStart {
      return Ok([]);
    }
    var rowEnd := MaxLastFilled(csv, colStart, col);
    LastFilledAtLeast(csv, colStart, |csv|, rowStart);
    MaxLastFilledAbove(csv, colStart, col);
    r := Ok(seq(rowEnd + 1 - rowStart, i requires 0 <= i < rowEnd + 1 - rowStart => csv[rowStart + i][colStart..col]));
  }

  // ---------------------------------------------------------------------------
  // The permission square
  // ---------------------------------------------------------------------------

  /** The permission type of each row of the permission square, in order. */
  const PermRows: seq<PermType> := [Read, Write, Init, Add, Del]

  /** The formula an imported permission cell becomes. */
  function PermExpr(tname: string, p: PermType, col: string, c: string, parse: Parser): (e: Expr)
    ensures e.src == c && e.cell == Some(Label(tname, PermName(p), col))
  {
    MakeExpr(c, Some(Label(tname, PermName(p), col)), parse)
  }

  /** A non-empty formula the importer refuses: `init` for `row`, or `add`
      or `del` for a column. */
  predicate Refused(p: PermType, col: string, c: string)
  {
    c != "" && ((p == Init && col == "row") || ((p == Add || p == Del) && col != "row"))
  }

  /** The error a refused formula of the given type raises. */
  function RefusalOf(p: PermType): ImportError
  {
    if p == Init then NoInitColumn else NoAddDelForColumns
  }

  /** Column `k` is the last of the first `m` headers to carry its name. */
  predicate LastAt(cols: seq<string>, k: nat, m: nat)
    requires k < m <= |cols|
  {
    forall j :: k < j < m ==> cols[j] != cols[k]
  }

  /** The inner loop over one permission row of type `p`: the first `m`
      cells, in order, each stored under its column's header unless refused.
      Later cells overwrite earlier ones under the same header. */
  function FillCells(inner: map<string, Expr>, tname: string, p: PermType, prow: seq<string>,
                     cols: seq<string>, parse: Parser, m: nat): (r: Result<map<string, Expr>, ImportError>)
    requires m <= |prow| <= |cols|
    ensures r.Err? ==> r.error == RefusalOf(p)
  {
    if m == 0 then Ok(inner)
    else
      match FillCells(inner, tname, p, prow, cols, parse, m - 1)
      case Err(e) => Err(e)
      case Ok(a) =>
        if Refused(p, cols[m - 1], prow[m - 1]) then Err(RefusalOf(p))
        else Ok(a[cols[m - 1] := PermExpr(tname, p, cols[m - 1], prow[m - 1], parse)])
  }

  /** A permission row goes through exactly when none of its first `m` cells
      is refused. */
  lemma {:induction false} FillCellsOk(inner: map<string, Expr>, tname: string, p: PermType, prow: seq<string>,
                                       cols: seq<string>, parse: Parser, m: nat)
    requires m <= |prow| <= |cols|
    ensures FillCells(inner, tname, p, prow, cols, parse, m).Ok? <==> forall k :: 0 <= k < m ==> !Refused(p, cols[k], prow[k])
  {
    if m > 0 {
      FillCellsOk(inner, tname, p, prow, cols, parse, m - 1);
    }
  }

  /** The headers a row fills are added to the permissions of its type. */
  lemma {:induction false} FillCellsKeys(inner: map<string, Expr>, tname: string, p: PermType, prow: seq<string>,
                                         cols: seq<string>, parse: Parser, m: nat, col: string)
    requires m <= |prow| <= |cols|
    requires FillCells(inner, tname, p, prow, cols, parse, m).Ok?
    ensures col in FillCells(inner, tname, p, prow, cols, parse, m).value <==> col in inner || col in cols[..m]
  {
    if m > 0 {
      assert cols[..m] == cols[..m - 1] + [cols[m - 1]];
      FillCellsKeys(inner, tname, p, prow, cols, parse, m - 1, col);
    }
  }

  /** Under each header stands the formula of the last cell below it. */
  lemma {:induction false} FillCellsLast(inner: map<string, Expr>, tname: string, p: PermType, prow: seq<string>,
                                         cols: seq<string>, parse: Parser, m: nat, k: nat)
    requires m <= |prow| <= |cols| && k < m && LastAt(cols, k, m)
    requires FillCells(inner, tname, p, prow, cols, parse, m).Ok?
    ensures cols[k] in FillCells(inner, tname, p, prow, cols, parse, m).value
    ensures FillCells(inner, tname, p, prow, cols, parse, m).value[cols[k]] == PermExpr(tname, p, cols[k], prow[k], parse)
  {
    if k < m - 1 {
      assert cols[m - 1] != cols[k];
      FillCellsLast(inner, tname, p, prow, cols, parse, m - 1, k);
    }
  }

  /** Permissions under headers the row does not mention keep their formula. */
  lemma {:induction false} FillCellsUntouched(inner: map<string, Expr>, tname: string, p: PermType, prow: seq<string>,
                                              cols: seq<string>, parse: Parser, m: nat, col: string)
    requires m <= |prow| <= |cols|
    requires FillCells(inner, tname, p, prow, cols, parse, m).Ok?
    requires col in inner && col !in cols[..m]
    ensures col in FillCells(inner, tname, p, prow, cols, parse, m).value
    ensures FillCells(inner, tname, p, prow, cols, parse, m).value[col] == inner[col]
  {
    if m > 0 {
      assert cols[..m] == cols[..m - 1] + [cols[m - 1]];
      FillCellsUntouched(inner, tname, p, prow, cols, parse, m - 1, col);
    }
  }

  /** A permission row the outer loop gets through: an empty row, or a row
      of one of the five types with no refused formula. */
  predicate RowAccepted(pix: nat, prow: seq<string>, cols: seq<string>)
    requires |prow| <= |cols|
  {
    |prow| == 0 || (pix < |PermRows| && forall k :: 0 <= k < |prow| ==> !Refused(PermRows[pix], cols[k], prow[k]))
  }

  /** Row `i` is rejected and every row before it accepted. */
  predicate FirstRejected(prows: seq<seq<string>>, cols: seq<string>, i: nat)
    requires i < |prows|
    requires forall j :: 0 <= j < |prows| ==> |prows[j]| <= |cols|
  {
    !RowAccepted(i, prows[i], cols) && forall j :: 0 <= j < i ==> RowAccepted(j, prows[j], cols)
  }

  /** The error the first rejected row raises: reading the permissions of a
      sixth row fails, otherwise the refusal of its type. */
  function RowError(pix: nat): ImportError
  {
    if pix < |PermRows| then RefusalOf(PermRows[pix]) else ReadUndefined
  }

  /** The outer loop over the first `n` permission rows. Row `pix` fills the
      permissions of type `PermRows[pix]`; the other types are untouched. */
  function FillRows(acc: Perms, tname: string, prows: seq<seq<string>>, cols: seq<string>,
                    parse: Parser, n: nat): (r: Result<Perms, ImportError>)
    requires n <= |prows|
    requires forall i :: 0 <= i < |prows| ==> |prows[i]| <= |cols|
    requires forall t: PermType :: t in acc
    ensures r.Ok? ==> r.value.Keys == acc.Keys
  {
    if n == 0 then Ok(acc)
    else
      match FillRows(acc, tname, prows, cols, parse, n - 1)
      case Err(e) => Err(e)
      case Ok(a) => FillRowAt(a, tname, prows[n - 1], cols, parse, n - 1)
  }

  /** One pass of the outer loop: an empty row is skipped, a row past the
      fifth fails, any other row runs the inner loop on its type. */
  function FillRowAt(a: Perms, tname: string, prow: seq<string>, cols: seq<string>,
                     parse: Parser, pix: nat): (r: Result<Perms, ImportError>)
    requires |prow| <= |cols|
    requires forall t: PermType :: t in a
    ensures r.Ok? ==> r.value.Keys == a.Keys
  {
    if |prow| == 0 then Ok(a)
    else if pix >= |PermRows| then Err(ReadUndefined)
    else
      var p := PermRows[pix];
      match FillCells(a[p], tname, p, prow, cols, parse, |prow|)
      case Err(e) => Err(e)
      case Ok(inner) => Ok(a[p := inner])
  }

  /** The loop gets through exactly when every row is accepted. */
  lemma {:induction false} FillRowsOk(acc: Perms, tname: string, prows: seq<seq<string>>, cols: seq<string>,
                                      parse: Parser, n: nat)
    requires n <= |prows|
    requires forall i :: 0 <= i < |prows| ==> |prows[i]| <= |cols|
    requires forall t: PermType :: t in acc
    ensures FillRows(acc, tname, prows, cols, parse, n).Ok? <==> forall i :: 0 <= i < n ==> RowAccepted(i, prows[i], cols)
  {
    if n > 0 {
      FillRowsOk(acc, tname, prows, cols, parse, n - 1);
      var prev := FillRows(acc, tname, prows, cols, parse, n - 1);
      if prev.Ok? && n - 1 < |PermRows| {
        var p := PermRows[n - 1];
        FillCellsOk(prev.value[p], tname, p, prows[n - 1], cols, parse, |prows[n - 1]|);
      }
    }
  }

  /** A failing loop fails on its first rejected row, with that row's error. */
  lemma {:induction false} FillRowsErr(acc: Perms, tname: string, prows: seq<seq<string>>, cols: seq<string>,
                                       parse: Parser, n: nat) returns (i: nat)
    requires n <= |prows|
    requires forall i :: 0 <= i < |prows| ==> |prows[i]| <= |cols|
    requires forall t: PermType :: t in acc
    requires FillRows(acc, tname, prows, cols, parse, n).Err?
    ensures i < n && FirstRejected(prows, cols, i)
    ensures FillRows(acc, tname, prows, cols, parse, n).error == RowError(i)
  {
    var prev := FillRows(acc, tname, prows, cols, parse, n - 1);
    if prev.Err? {
      i := FillRowsErr(acc, tname, prows, cols, parse, n - 1);
    } else {
      FillRowsOk(acc, tname, prows, cols, parse, n - 1);
      if n - 1 < |PermRows| {
        var p := PermRows[n - 1];
        FillCellsOk(prev.value[p], tname, p, prows[n - 1], cols, parse, |prows[n - 1]|);
      }
      i := n - 1;
    }
  }

  /** Row `i` fills the permissions of type `PermRows[i]` from what the
      default matrix held; types with no row keep their defaults. */
  lemma FillRowsTypes(acc: Perms, tname: string, prows: seq<seq<string>>, cols: seq<string>,
                      parse: Parser, n: nat, i: nat)
    requires n <= |prows|
    requires forall i :: 0 <= i < |prows| ==> |prows[i]| <= |cols|
    requires forall t: PermType :: t in acc
    requires FillRows(acc, tname, prows, cols, parse, n).Ok?
    requires i < |PermRows|
    ensures var r := FillRows(acc, tname, prows, cols, parse, n).value;
      if i < n then FillCells(acc[PermRows[i]], tname, PermRows[i], prows[i], cols, parse, |prows[i]|) == Ok(r[PermRows[i]])
      else r[PermRows[i]] == acc[PermRows[i]]
  {
    if i < n {
      FillRowsTypeFilled(acc, tname, prows, cols, parse, n, i);
    } else {
      forall j | 0 <= j < n && j < |PermRows| ensures PermRows[j] != PermRows[i] {
        PermRowsDistinct(i, j);
      }
      FillRowsTypeKept(acc, tname, prows, cols, parse, n, PermRows[i]);
    }
  }

  lemma {:induction false} FillRowsTypeKept(acc: Perms, tname: string, prows: seq<seq<string>>, cols: seq<string>,
                                            parse: Parser, n: nat, p: PermType)
    requires n <= |prows|
    requires forall i :: 0 <= i < |prows| ==> |prows[i]| <= |cols|
    requires forall t: PermType :: t in acc
    requires FillRows(acc, tname, prows, cols, parse, n).Ok?
    requires forall j :: 0 <= j < n && j < |PermRows| ==> PermRows[j] != p
    ensures FillRows(acc, tname, prows, cols, parse, n).value[p] == acc[p]
  {
    if n > 0 {
      FillRowsPrev(acc, tname, prows, cols, parse, n);
      FillRowsTypeKept(acc, tname, prows, cols, parse, n - 1, p);
      FillRowsOtherStep(acc, tname, prows, cols, parse, n - 1, p);
    } else {
      assert FillRows(acc, tname, prows, cols, parse, n) == Ok(acc);
    }
  }

  /** Reading row `n` keeps the permissions of every type other than its own. */
  lemma FillRowsOtherStep(acc: Perms, tname: string, prows: seq<seq<string>>, cols: seq<string>,
                          parse: Parser, n: nat, p: PermType)
    requires n < |prows|
    requires forall i :: 0 <= i < |prows| ==> |prows[i]| <= |cols|
    requires forall t: PermType :: t in acc
    requires FillRows(acc, tname, prows, cols, parse, n + 1).Ok?
    requires n < |PermRows| ==> PermRows[n] != p
    ensures FillRows(acc, tname, prows, cols, parse, n).Ok?
    ensures FillRows(acc, tname, prows, cols, parse, n + 1).value[p] == FillRows(acc, tname, prows, cols, parse, n).value[p]
  {
    FillRowsPrev(acc, tname, prows, cols, parse, n + 1);
    var a := FillRows(acc, tname, prows, cols, parse, n).value;
    var b := FillRows(acc, tname, prows, cols, parse, n + 1).value;
    if |prows[n]| > 0 {
      FillRowsNext(acc, tname, prows, cols, parse, n);
      var q := PermRows[n];
      var f := FillCells(a[q], tname, q, prows[n], cols, parse, |prows[n]|);
      assert f.Ok? && b == a[q := f.value];
      PermsUpdateOther(a, q, f.value, p);
    } else {
      FillRowsSkip(acc, tname, prows, cols, parse, n);
    }
  }

  /** Overwriting the permissions of one type keeps those of every other. */
  lemma PermsUpdateOther(a: Perms, q: PermType, v: map<string, Expr>, p: PermType)
    requires q != p && p in a
    ensures a[q := v][p] == a[p]
  {
  }

  lemma {:induction false} FillRowsTypeFilled(acc: Perms, tname: string, prows: seq<seq<string>>, cols: seq<string>,
                                              parse: Parser, n: nat, i: nat)
    requires n <= |prows|
    requires forall i :: 0 <= i < |prows| ==> |prows[i]| <= |cols|
    requires forall t: PermType :: t in acc
    requires FillRows(acc, tname, prows, cols, parse, n).Ok?
    requires i < n && i < |PermRows|
    ensures FillCells(acc[PermRows[i]], tname, PermRows[i], prows[i], cols, parse, |prows[i]|)
      == Ok(FillRows(acc, tname, prows, cols, parse, n).value[PermRows[i]])
  {
    if i == n - 1 {
      FillRowsTypeFilledLast(acc, tname, prows, cols, parse, n);
    } else {
      FillRowsTypeStays(acc, tname, prows, cols, parse, n, i);
      FillRowsTypeFilled(acc, tname, prows, cols, parse, n - 1, i);
    }
  }

  /** Reading row `n - 1` keeps the permissions filled by an earlier row. */
  lemma FillRowsTypeStays(acc: Perms, tname: string, prows: seq<seq<string>>, cols: seq<string>,
                          parse: Parser, n: nat, i: nat)
    requires n <= |prows|
    requires forall i :: 0 <= i < |prows| ==> |prows[i]| <= |cols|
    requires forall t: PermType :: t in acc
    requires FillRows(acc, tname, prows, cols, parse, n).Ok?
    requires i < n - 1 && i < |PermRows|
    ensures FillRows(acc, tname, prows, cols, parse, n - 1).Ok?
    ensures FillRows(acc, tname, prows, cols, parse, n).value[PermRows[i]]
      == FillRows(acc, tname, prows, cols, parse, n - 1).value[PermRows[i]]
  {
    if n - 1 < |PermRows| {
      PermRowsDistinct(i, n - 1);
    }
    FillRowsOtherStep(acc, tname, prows, cols, parse, n - 1, PermRows[i]);
  }

  /** Row `n - 1` is the last one read: its type held the default until then. */
  lemma FillRowsTypeFilledLast(acc: Perms, tname: string, prows: seq<seq<string>>, cols: seq<string>,
                               parse: Parser, n: nat)
    requires 0 < n <= |prows| && n - 1 < |PermRows|
    requires forall i :: 0 <= i < |prows| ==> |prows[i]| <= |cols|
    requires forall t: PermType :: t in acc
    requires FillRows(acc, tname, prows, cols, parse, n).Ok?
    ensures FillCells(acc[PermRows[n - 1]], tname, PermRows[n - 1], prows[n - 1], cols, parse, |prows[n - 1]|)
      == Ok(FillRows(acc, tname, prows, cols, parse, n).value[PermRows[n - 1]])
  {
    var p := PermRows[n - 1];
    FillRowsOwnStep(acc, tname, prows, cols, parse, n - 1);
    forall j | 0 <= j < n - 1 && j < |PermRows| ensures PermRows[j] != p {
      PermRowsDistinct(n - 1, j);
    }
    FillRowsTypeKept(acc, tname, prows, cols, parse, n - 1, p);
  }

  /** After row `n` is read, its type holds what the inner loop made of the
      permissions before it. */
  lemma FillRowsOwnStep(acc: Perms, tname: string, prows: seq<seq<string>>, cols: seq<string>,
                        parse: Parser, n: nat)
    requires n < |prows| && n < |PermRows|
    requires forall i :: 0 <= i < |prows| ==> |prows[i]| <= |cols|
    requires forall t: PermType :: t in acc
    requires FillRows(acc, tname, prows, cols, parse, n + 1).Ok?
    ensures FillRows(acc, tname, prows, cols, parse, n).Ok?
    ensures var a := FillRows(acc, tname, prows, cols, parse, n).value;
      FillCells(a[PermRows[n]], tname, PermRows[n], prows[n], cols, parse, |prows[n]|)
      == Ok(FillRows(acc, tname, prows, cols, parse, n + 1).value[PermRows[n]])
  {
    FillRowsPrev(acc, tname, prows, cols, parse, n + 1);
    if |prows[n]| > 0 {
      FillRowsNext(acc, tname, prows, cols, parse, n);
    } else {
      FillRowsSkip(acc, tname, prows, cols, parse, n);
    }
  }

  /** The five permission rows have five different types. */
  lemma PermRowsDistinct(i: nat, j: nat)
    requires i < |PermRows| && j < |PermRows|
    ensures PermRows[i] == PermRows[j] <==> i == j
  {
  }

  /** An error in the first `n` rows stays the outcome of the whole loop. */
  lemma {:induction false} FillRowsErrStays(acc: Perms, tname: string, prows: seq<seq<string>>, cols: seq<string>,
                                            parse: Parser, n: nat, n': nat)
    requires n <= n' <= |prows|
    requires forall i :: 0 <= i < |prows| ==> |prows[i]| <= |cols|
    requires forall t: PermType :: t in acc
    requires FillRows(acc, tname, prows, cols, parse, n).Err?
    ensures FillRows(acc, tname, prows, cols, parse, n') == FillRows(acc, tname, prows, cols, parse, n)
    decreases n' - n
  {
    if n < n' {
      FillRowsErrStays(acc, tname, prows, cols, parse, n, n' - 1);
    }
  }

  /** An error in the first `m` cells stays the outcome of the row. */
  lemma {:induction false} FillCellsErrStays(inner: map<string, Expr>, tname: string, p: PermType, prow: seq<string>,
                                             cols: seq<string>, parse: Parser, m: nat, m': nat)
    requires m <= m' <= |prow| <= |cols|
    requires FillCells(inner, tname, p, prow, cols, parse, m).Err?
    ensures FillCells(inner, tname, p, prow, cols, parse, m') == FillCells(inner, tname, p, prow, cols, parse, m)
    decreases m' - m
  {
    if m < m' {
      FillCellsErrStays(inner, tname, p, prow, cols, parse, m, m' - 1);
    }
  }

  // ---------------------------------------------------------------------------
  // csvToTable
  // ---------------------------------------------------------------------------

  /** The table a sheet describes, before it becomes an `InputTable`. */
  datatype ImportedTable = ImportedTable(name: string, description: string, owner: string,
                                         columns: seq<string>, perms: Perms, cells: seq<Row>)

  /** Data row `ix` as the importer stores it: an array of formulas, reached
      by the decimal position of each cell, each labelled with the table,
      the row index and the column name. */
  function ImportedRow(tname: string, ix: nat, cols: seq<string>, r: seq<string>, parse: Parser): Row
    requires |r| <= |cols|
  {
    IndexKeyed(seq(|r|, cx requires 0 <= cx < |r| => Formula(MakeExpr(r[cx], Some(Label(tname, NatToString(ix), cols[cx])), parse))))
  }

  /** Cell `cx` of an imported row holds the formula of the sheet cell,
      labelled with its table, row and column; there are no other keys. */
  lemma ImportedRowAt(tname: string, ix: nat, cols: seq<string>, r: seq<string>, parse: Parser)
    requires |r| <= |cols|
    ensures forall cx :: 0 <= cx < |r| ==>
      (NatToString(cx) in ImportedRow(tname, ix, cols, r, parse)
       && ImportedRow(tname, ix, cols, r, parse)[NatToString(cx)] == Formula(MakeExpr(r[cx], Some(Label(tname, NatToString(ix), cols[cx])), parse)))
    ensures forall k :: k in ImportedRow(tname, ix, cols, r, parse) ==> PositionKey(k, |r|)
  {
    var xs := seq(|r|, cx requires 0 <= cx < |r| => Formula(MakeExpr(r[cx], Some(Label(tname, NatToString(ix), cols[cx])), parse)));
    assert ImportedRow(tname, ix, cols, r, parse) == IndexKeyed(xs);
    IndexKeyedSpec(xs);
  }

  /** The default matrix has all five types. */
  lemma PermsOfTotal(tname: string, columns: seq<string>, parse: Parser)
    ensures forall t: PermType :: t in PermsOf(tname, columns, parse)
  {
    PermsOfShape(tname, columns, parse);
    forall t: PermType ensures t in PermsOf(tname, columns, parse) {
      match t
      case Read =>
      case Write =>
      case Init =>
      case Add =>
      case Del =>
    }
  }

  /** What `csvToTable` reads off the sheet before it builds the table: the
      name, the description, both header runs and the rows below each. */
  datatype Layout = Layout(tname: string, tdesc: string, columns: seq<string>, data: seq<seq<string>>,
                           columns2: seq<string>, prows: seq<seq<string>>)

  /** Both header runs have the same positive width, and so do their rows. */
  predicate LayoutValid(l: Layout)
  {
    0 < |l.columns| == |l.columns2|
    && (forall i :: 0 <= i < |l.data| ==> |l.data[i]| == |l.columns|)
    && (forall i :: 0 <= i < |l.prows| ==> |l.prows[i]| == |l.columns2|)
  }

  /** The first half of `csvToTable`: the checks on the sheet's shape and
      the two `getSquare` calls. */
  function ReadLayout(csv: Csv): (r: Result<Layout, ImportError>)
    ensures r.Ok? ==> LayoutValid(r.value)
  {
    if |csv| == 0 then Err(ReadUndefined)
    else if !IsMatrix(csv) then Err(NotAMatrix)
    else if |csv| < 4 then Err(ReadUndefined)
    else
      SquareWidth(csv, 3, 0);
      var s1 := Square(csv, 3, 0).value;
      if s1 == [] then Err(ReadUndefined)
      else
        SquareWidth(csv, 3, |s1[0]| + 2);
        var s2 := Square(csv, 3, |s1[0]| + 2).value;
        if s2 == [] then Err(ReadUndefined)
        else if |s1[0]| != |s2[0]| then Err(FormatError)
        else Ok(Layout(csv[0][0], csv[1][0], s1[0], s1[1..], s2[0], s2[1..]))
  }

  /** The table's columns: the first header renamed `_owner`. */
  function OwnerColumns(l: Layout): (c: seq<string>)
    requires LayoutValid(l)
    ensures |c| == |l.columns| && c[0] == "_owner"
  {
    l.columns[0 := "_owner"]
  }

  /** The permission headers: the last one renamed `row`. */
  function PermColumns(l: Layout): (c: seq<string>)
    requires LayoutValid(l)
    ensures |c| == |l.columns2| && c[|c| - 1] == "row"
  {
    l.columns2[|l.columns2| - 1 := "row"]
  }

  /** The data rows of the table a layout describes, one per sheet row. */
  function DataRows(l: Layout, parse: Parser): (rows: seq<Row>)
    requires LayoutValid(l)
  {
    seq(|l.data|, ix requires 0 <= ix < |l.data| => ImportedRow(l.tname, ix, OwnerColumns(l), l.data[ix], parse))
  }

  /** The second half of `csvToTable`: the data rows become formulas and the
      permission rows fill the default matrix. */
  function Assemble(l: Layout, owner: string, parse: Parser): Result<ImportedTable, ImportError>
    requires LayoutValid(l)
  {
    var cols := OwnerColumns(l);
    PermsOfTotal(l.tname, cols, parse);
    match FillRows(PermsOf(l.tname, cols, parse), l.tname, l.prows, PermColumns(l), parse, |l.prows|)
    case Err(e) => Err(e)
    case Ok(perms) => Ok(ImportedTable(l.tname, l.tdesc, owner, cols, perms, DataRows(l, parse)))
  }

  /** `csvToTable(csv, owner)`, stated as a whole. */
  function CsvTable(csv: Csv, owner: string, parse: Parser): Result<ImportedTable, ImportError>
  {
    match ReadLayout(csv)
    case Err(e) => Err(e)
    case Ok(l) => Assemble(l, owner, parse)
  }

  /** The inner permission loop of `csvToTable` over one row of type
      `PermRows[pix]`: each formula overwrites the permission under its
      header; the first refused formula stops the import. */
  method FillRow(t: InputTable, pix: nat, prow: seq<string>, cols: seq<string>) returns (err: Option<ImportError>)
    requires pix < |PermRows| && |prow| <= |cols|
    requires forall q: PermType :: q in t.perms
    modifies t
    ensures t.cells == old(t.cells)
    ensures var spec := FillCells(old(t.perms)[PermRows[pix]], t.name, PermRows[pix], prow, cols, t.parse, |prow|);
      (err.None? <==> spec.Ok?) && (err.Some? ==> err.value == spec.error)
      && (spec.Ok? ==> t.perms == old(t.perms)[PermRows[pix] := spec.value])
  {
    var p := PermRows[pix];
    ghost var before := t.perms;
    var inner := t.perms[p];
    for cix := 0 to |prow|
      invariant t.cells == old(t.cells)
      invariant FillCells(before[p], t.name, p, prow, cols, t.parse, cix) == Ok(inner)
      invariant t.perms == before[p := inner]
    {
      var col := cols[cix];
      var c := prow[cix];
      FillCellsNext(before[p], t.name, p, prow, cols, t.parse, cix);
      if p == Init && col == "row" && c != "" {
        assert Refused(p, col, c) && RefusalOf(p) == NoInitColumn;
        FillCellsErrStays(before[p], t.name, p, prow, cols, t.parse, cix + 1, |prow|);
        return Some(NoInitColumn);
      }
      if (p == Add || p == Del) && col != "row" && c != "" {
        assert Refused(p, col, c) && RefusalOf(p) == NoAddDelForColumns;
        FillCellsErrStays(before[p], t.name, p, prow, cols, t.parse, cix + 1, |prow|);
        return Some(NoAddDelForColumns);
      }
      assert !Refused(p, col, c);
      ghost var prev := inner;
      inner := inner[col := PermExpr(t.name, p, col, c, t.parse)];
      t.perms := t.perms[p := inner];
      PermsUpdateTwice(before, p, prev, inner);
    }
    err := None;
  }

  /** Overwriting the permissions of one type twice keeps the second. */
  lemma PermsUpdateTwice(m: Perms, p: PermType, a: map<string, Expr>, b: map<string, Expr>)
    ensures m[p := a][p := b] == m[p := b]
  {
  }

  /** One more cell: a refused formula fails, any other is stored under its
      header. */
  lemma FillCellsNext(inner: map<string, Expr>, tname: string, p: PermType, prow: seq<string>,
                      cols: seq<string>, parse: Parser, m: nat)
    requires m < |prow| <= |cols|
    requires FillCells(inner, tname, p, prow, cols, parse, m).Ok?
    ensures Refused(p, cols[m], prow[m]) ==> FillCells(inner, tname, p, prow, cols, parse, m + 1) == Err(RefusalOf(p))
    ensures !Refused(p, cols[m], prow[m]) ==>
      FillCells(inner, tname, p, prow, cols, parse, m + 1)
      == Ok(FillCells(inner, tname, p, prow, cols, parse, m).value[cols[m] := PermExpr(tname, p, cols[m], prow[m], parse)])
  {
  }

  /** The outer permission loop of `csvToTable`: row `pix` fills the
      permissions of type `PermRows[pix]`; a non-empty sixth row has no
      type and fails. */
  method FillPerms(t: InputTable, prows: seq<seq<string>>, cols: seq<string>) returns (err: Option<ImportError>)
    requires forall i :: 0 <= i < |prows| ==> |prows[i]| <= |cols|
    requires forall q: PermType :: q in t.perms
    modifies t
    ensures t.cells == old(t.cells)
    ensures var spec := FillRows(old(t.perms), t.name, prows, cols, t.parse, |prows|);
      (err.None? <==> spec.Ok?) && (err.Some? ==> err.value == spec.error) && (spec.Ok? ==> t.perms == spec.value)
  {
    ghost var start := t.perms;
    for pix := 0 to |prows|
      invariant t.cells == old(t.cells)
      invariant FillRows(start, t.name, prows, cols, t.parse, pix) == Ok(t.perms)
    {
      if |prows[pix]| == 0 {
        FillRowsSkip(start, t.name, prows, cols, t.parse, pix);
      } else if pix >= |PermRows| {
        FillRowsErrStays(start, t.name, prows, cols, t.parse, pix + 1, |prows|);
        return Some(ReadUndefined);
      } else {
        FillRowsNext(start, t.name, prows, cols, t.parse, pix);
        err := FillRow(t, pix, prows[pix], cols);
        if err.Some? {
          FillRowsErrStays(start, t.name, prows, cols, t.parse, pix + 1, |prows|);
          return;
        }
      }
    }
    err := None;
  }

  /** A loop that gets through the first `n` rows got through the first `n - 1`;
      row `n - 1` is empty or of one of the five types. */
  lemma FillRowsPrev(acc: Perms, tname: string, prows: seq<seq<string>>, cols: seq<string>, parse: Parser, n: nat)
    requires 0 < n <= |prows|
    requires forall i :: 0 <= i < |prows| ==> |prows[i]| <= |cols|
    requires forall t: PermType :: t in acc
    requires FillRows(acc, tname, prows, cols, parse, n).Ok?
    ensures FillRows(acc, tname, prows, cols, parse, n - 1).Ok?
    ensures |prows[n - 1]| == 0 || n - 1 < |PermRows|
  {
  }

  /** An empty permission row changes nothing. */
  lemma FillRowsSkip(acc: Perms, tname: string, prows: seq<seq<string>>, cols: seq<string>, parse: Parser, n: nat)
    requires n < |prows|
    requires forall i :: 0 <= i < |prows| ==> |prows[i]| <= |cols|
    requires forall t: PermType :: t in acc
    requires FillRows(acc, tname, prows, cols, parse, n).Ok? && |prows[n]| == 0
    ensures FillRows(acc, tname, prows, cols, parse, n + 1) == FillRows(acc, tname, prows, cols, parse, n)
  {
  }

  /** A non-empty row of one of the five types runs the inner loop on the
      permissions of its type. */
  lemma FillRowsNext(acc: Perms, tname: string, prows: seq<seq<string>>, cols: seq<string>, parse: Parser, n: nat)
    requires n < |prows|
    requires forall i :: 0 <= i < |prows| ==> |prows[i]| <= |cols|
    requires forall t: PermType :: t in acc
    requires FillRows(acc, tname, prows, cols, parse, n).Ok? && |prows[n]| > 0 && n < |PermRows|
    ensures var a := FillRows(acc, tname, prows, cols, parse, n).value;
      var f := FillCells(a[PermRows[n]], tname, PermRows[n], prows[n], cols, parse, |prows[n]|);
      (forall t: PermType :: t in a)
      && (f.Err? ==> FillRows(acc, tname, prows, cols, parse, n + 1) == Err(f.error))
      && (f.Ok? ==> FillRows(acc, tname, prows, cols, parse, n + 1) == Ok(a[PermRows[n] := f.value]))
  {
  }


  /** The input table holds what the sheet describes. */
  predicate Describes(t: InputTable, d: ImportedTable)
    reads t
  {
    t.name == d.name && t.description == d.description && t.owner == d.owner
    && t.columns == d.columns && t.perms == d.perms && t.cells == d.cells
  }

  /** The first half of `csvToTable`, reading the two squares with
      `getSquare`. */
  method ReadSheet(csv: Csv) returns (r: Result<Layout, ImportError>)
    ensures r == ReadLayout(csv)
  {
    if |csv| == 0 {
      return Err(ReadUndefined);
    }
    var rowLen := |csv[0]|;
    if exists k :: 0 <= k < |csv| && |csv[k]| != rowLen {
      return Err(NotAMatrix);
    }
    if |csv| < 4 {
      return Err(ReadUndefined);
    }
    var square := GetSquare(csv, 3, 0);
    SquareWidth(csv, 3, 0);
    if square.value == [] {
      return Err(ReadUndefined);
    }
    var columns := square.value[0];
    var col := |columns| + 2;
    var square2 := GetSquare(csv, 3, col);
    SquareWidth(csv, 3, col);
    if square2.value == [] {
      return Err(ReadUndefined);
    }
    var columns2 := square2.value[0];
    if |columns| != |columns2| {
      return Err(FormatError);
    }
    r := Ok(Layout(csv[0][0], csv[1][0], columns, square.value[1..], columns2, square2.value[1..]));
  }

  /** `csvToTable(csv, owner)`: a new input table, or the error the sheet's
      layout raises. */
  method CsvToTable(csv: Csv, owner: string, parse: Parser) returns (r: Result<InputTable, ImportError>)
    ensures var spec := CsvTable(csv, owner, parse);
      (r.Ok? <==> spec.Ok?) && (r.Err? ==> r.error == spec.error)
      && (r.Ok? ==> fresh(r.value) && r.value.parse == parse && Describes(r.value, spec.value))
  {
    var layout := ReadSheet(csv);
    if layout.Err? {
      return Err(layout.error);
    }
    var l := layout.value;
    var columns := l.columns[0 := "_owner"];
    var columns2 := l.columns2[|l.columns2| - 1 := "row"];
    var t := new InputTable(l.tname, l.tdesc, owner, columns, parse);
    t.cells := DataRows(l, parse);
    PermsOfTotal(l.tname, columns, parse);
    ghost var cells := t.cells;
    ghost var fill := FillRows(t.perms, l.tname, l.prows, columns2, parse, |l.prows|);
    assert CsvTable(csv, owner, parse) == Assemble(l, owner, parse);
    assert columns == OwnerColumns(l) && columns2 == PermColumns(l);
    var err := FillPerms(t, l.prows, columns2);
    if err.Some? {
      assert fill.Err? && Assemble(l, owner, parse) == Err(fill.error);
      return Err(err.value);
    }
    assert Assemble(l, owner, parse) == Ok(ImportedTable(l.tname, l.tdesc, owner, columns, t.perms, cells));
    return Ok(t);
  }

  // ---------------------------------------------------------------------------
  // What an import reads from the sheet
  // ---------------------------------------------------------------------------

  /** The layout is made of the two squares. */
  lemma ReadLayoutSquares(csv: Csv)
    requires ReadLayout(csv).Ok?
    ensures IsMatrix(csv) && 4 <= |csv|
    ensures Square(csv, 3, 0).Ok? && Square(csv, 3, 0).value != []
    ensures var s1 := Square(csv, 3, 0).value; var w := |s1[0]|;
      Square(csv, 3, w + 2).Ok? && Square(csv, 3, w + 2).value != []
      && ReadLayout(csv).value.columns == s1[0] && ReadLayout(csv).value.data == s1[1..]
      && ReadLayout(csv).value.tname == csv[0][0] && ReadLayout(csv).value.tdesc == csv[1][0]
      && ReadLayout(csv).value.columns2 == Square(csv, 3, w + 2).value[0]
      && ReadLayout(csv).value.prows == Square(csv, 3, w + 2).value[1..]
  {
  }

  /** The table half of the layout: the name is A1, the description A2, the
      header run starts at A4, data row `i` is sheet row `4 + i` over the
      header's columns, the last data row has something in them and every
      row below has nothing. */
  lemma ReadLayoutTable(csv: Csv)
    requires ReadLayout(csv).Ok?
    ensures IsMatrix(csv) && 4 <= |csv|
    ensures var l := ReadLayout(csv).value; var w := |l.columns|;
      0 < w <= |csv[0]| && w == HeaderEnd(csv[3], 0)
      && l.tname == csv[0][0] && l.tdesc == csv[1][0]
      && l.columns == csv[3][..w]
      && 4 + |l.data| <= |csv|
      && (forall i :: 0 <= i < |l.data| ==> l.data[i] == csv[4 + i][..w])
      && Filled(csv[3 + |l.data|], 0, w)
      && (forall i, k :: 4 + |l.data| <= i < |csv| && 0 <= k < w ==> csv[i][k] == "")
  {
    ReadLayoutSquares(csv);
    var s1 := Square(csv, 3, 0).value;
    SquareSpec(csv, 3, 0);
    forall i | 0 <= i < |s1| - 1 ensures s1[1..][i] == csv[4 + i][..|s1[0]|] {
      assert s1[1..][i] == s1[i + 1];
    }
  }

  /** The permission half of the layout: its header run starts two columns
      right of the table's and is as wide; permission row `i` is sheet row
      `4 + i` over those columns, the last one has something in them and
      every row below has nothing. */
  lemma ReadLayoutPerms(csv: Csv)
    requires ReadLayout(csv).Ok?
    ensures IsMatrix(csv) && 4 <= |csv|
    ensures var l := ReadLayout(csv).value; var w := |l.columns|;
      w == HeaderEnd(csv[3], 0) && 2 * w + 2 <= |csv[0]| && HeaderEnd(csv[3], w + 2) == 2 * w + 2
      && l.columns2 == csv[3][w + 2..2 * w + 2]
      && 4 + |l.prows| <= |csv|
      && (forall i :: 0 <= i < |l.prows| ==> l.prows[i] == csv[4 + i][w + 2..2 * w + 2])
      && Filled(csv[3 + |l.prows|], w + 2, 2 * w + 2)
      && (forall i, k :: 4 + |l.prows| <= i < |csv| && w + 2 <= k < 2 * w + 2 ==> csv[i][k] == "")
  {
    ReadLayoutSquares(csv);
    SquareWidth(csv, 3, 0);
    var w := |Square(csv, 3, 0).value[0]|;
    SquareWidth(csv, 3, w + 2);
    var s2 := Square(csv, 3, w + 2).value;
    SquareSpec(csv, 3, w + 2);
    forall i | 0 <= i < |s2| - 1 ensures s2[1..][i] == csv[4 + i][w + 2..2 * w + 2] {
      assert s2[1..][i] == s2[i + 1];
    }
  }

  /** A sheet whose squares `csvToTable` can read: a matrix of at least four
      rows whose fourth row starts with a non-empty header run and, two
      columns after it, a second run exactly as wide. */
  predicate SheetShaped(csv: Csv)
  {
    IsMatrix(csv) && 4 <= |csv| && 0 < |csv[0]| && csv[3][0] != ""
    && var w := HeaderEnd(csv[3], 0);
    2 * w + 2 <= |csv[0]| && HeaderEnd(csv[3], w + 2) == 2 * w + 2
  }

  /** The first half succeeds exactly on sheets of that shape. */
  lemma ReadLayoutIff(csv: Csv)
    ensures ReadLayout(csv).Ok? <==> SheetShaped(csv)
  {
    if IsMatrix(csv) && 4 <= |csv| {
      SquareWidth(csv, 3, 0);
      SquareEmpty(csv, 3, 0);
      var s1 := Square(csv, 3, 0).value;
      if s1 != [] {
        var w := |s1[0]|;
        SquareWidth(csv, 3, w + 2);
        SquareEmpty(csv, 3, w + 2);
      }
    }
  }

  /** The table built from a layout: name, description and owner as given,
      the columns with the first renamed `_owner`, one row per data row. */
  lemma AssembleTable(l: Layout, owner: string, parse: Parser)
    requires LayoutValid(l) && Assemble(l, owner, parse).Ok?
    ensures var t := Assemble(l, owner, parse).value;
      t.name == l.tname && t.description == l.tdesc && t.owner == owner
      && t.columns == l.columns[0 := "_owner"] && |t.cells| == |l.data|
  {
  }

  /** Data cell `cx` of row `ix` becomes a formula reached by its position
      and labelled with the table, the row index and its column's name. */
  lemma AssembleCells(l: Layout, owner: string, parse: Parser, ix: nat)
    requires LayoutValid(l) && Assemble(l, owner, parse).Ok? && ix < |l.data|
    ensures var t := Assemble(l, owner, parse).value;
      ix < |t.cells|
      && (forall cx :: 0 <= cx < |t.columns| ==>
            (NatToString(cx) in t.cells[ix]
             && t.cells[ix][NatToString(cx)] == Formula(MakeExpr(l.data[ix][cx], Some(Label(l.tname, NatToString(ix), t.columns[cx])), parse))))
      && (forall k :: k in t.cells[ix] ==> PositionKey(k, |t.columns|))
  {
    AssembleRow(l, owner, parse, ix);
    TableRowCells(Assemble(l, owner, parse).value, l.tname, ix, l.data[ix], parse);
  }

  /** The cells of a table's row `ix` when it is the imported data row `r`. */
  lemma TableRowCells(t: ImportedTable, tname: string, ix: nat, r: seq<string>, parse: Parser)
    requires |r| == |t.columns| && ix < |t.cells|
    requires t.cells[ix] == ImportedRow(tname, ix, t.columns, r, parse)
    ensures forall cx :: 0 <= cx < |t.columns| ==>
      (NatToString(cx) in t.cells[ix]
       && t.cells[ix][NatToString(cx)] == Formula(MakeExpr(r[cx], Some(Label(tname, NatToString(ix), t.columns[cx])), parse)))
    ensures forall k :: k in t.cells[ix] ==> PositionKey(k, |t.columns|)
  {
    ImportedRowAt(tname, ix, t.columns, r, parse);
  }

  /** Row `ix` of the assembled table is the imported data row `ix`. */
  lemma AssembleRow(l: Layout, owner: string, parse: Parser, ix: nat)
    requires LayoutValid(l) && Assemble(l, owner, parse).Ok? && ix < |l.data|
    ensures var t := Assemble(l, owner, parse).value;
      t.columns == OwnerColumns(l) && |l.data[ix]| == |t.columns| && ix < |t.cells|
      && t.cells[ix] == ImportedRow(l.tname, ix, t.columns, l.data[ix], parse)
  {
  }

  /** The second half succeeds exactly when every permission row is accepted. */
  lemma AssembleOk(l: Layout, owner: string, parse: Parser)
    requires LayoutValid(l)
    ensures Assemble(l, owner, parse).Ok? <==>
      forall i :: 0 <= i < |l.prows| ==> RowAccepted(i, l.prows[i], PermColumns(l))
  {
    PermsOfTotal(l.tname, OwnerColumns(l), parse);
    FillRowsOk(PermsOf(l.tname, OwnerColumns(l), parse), l.tname, l.prows, PermColumns(l), parse, |l.prows|);
  }

  /** The permission of the type of row `pix` under header `k` is that
      row's formula under the header (the rightmost one when headers
      repeat), labelled with the table, the type and the header. */
  lemma AssemblePermAt(l: Layout, owner: string, parse: Parser, pix: nat, k: nat)
    requires LayoutValid(l) && Assemble(l, owner, parse).Ok?
    requires pix < |l.prows| && k < |l.columns2| && LastAt(PermColumns(l), k, |l.columns2|)
    ensures pix < |PermRows|
    ensures var t := Assemble(l, owner, parse).value; var p := PermRows[pix]; var h := PermColumns(l);
      p in t.perms && h[k] in t.perms[p] && t.perms[p][h[k]] == PermExpr(l.tname, p, h[k], l.prows[pix][k], parse)
  {
    var cols := OwnerColumns(l);
    var acc := PermsOf(l.tname, cols, parse);
    PermsOfTotal(l.tname, cols, parse);
    FillRowsOk(acc, l.tname, l.prows, PermColumns(l), parse, |l.prows|);
    assert RowAccepted(pix, l.prows[pix], PermColumns(l));
    FillRowsTypes(acc, l.tname, l.prows, PermColumns(l), parse, |l.prows|, pix);
    var p := PermRows[pix];
    FillCellsLast(acc[p], l.tname, p, l.prows[pix], PermColumns(l), parse, |l.prows[pix]|, k);
  }

  /** Which headers a permission type ends up with: its defaults, plus the
      permission headers when the sheet has a row for it. */
  lemma AssemblePermKeys(l: Layout, owner: string, parse: Parser, pix: nat, c: string)
    requires LayoutValid(l) && Assemble(l, owner, parse).Ok? && pix < |PermRows|
    ensures var t := Assemble(l, owner, parse).value; var p := PermRows[pix];
      p in t.perms
      && (c in t.perms[p] <==> c in PermsOf(l.tname, t.columns, parse)[p] || (pix < |l.prows| && c in PermColumns(l)))
  {
    var cols := OwnerColumns(l);
    var acc := PermsOf(l.tname, cols, parse);
    PermsOfTotal(l.tname, cols, parse);
    FillRowsTypes(acc, l.tname, l.prows, PermColumns(l), parse, |l.prows|, pix);
    if pix < |l.prows| {
      var p := PermRows[pix];
      FillCellsKeys(acc[p], l.tname, p, l.prows[pix], PermColumns(l), parse, |l.prows[pix]|, c);
      assert PermColumns(l)[..|l.prows[pix]|] == PermColumns(l);
    }
  }

  /** A default permission the sheet does not overwrite stays the empty
      formula labelled with its table, type and column. */
  lemma AssemblePermKept(l: Layout, owner: string, parse: Parser, pix: nat, c: string)
    requires LayoutValid(l) && Assemble(l, owner, parse).Ok? && pix < |PermRows|
    requires c in PermsOf(l.tname, OwnerColumns(l), parse)[PermRows[pix]]
    requires pix >= |l.prows| || c !in PermColumns(l)
    ensures var t := Assemble(l, owner, parse).value; var p := PermRows[pix];
      p in t.perms && c in t.perms[p] && t.perms[p][c] == Allow(l.tname, p, c, parse)
  {
    var cols := OwnerColumns(l);
    var acc := PermsOf(l.tname, cols, parse);
    PermsOfTotal(l.tname, cols, parse);
    PermsOfEntries(l.tname, cols, parse, PermRows[pix], c);
    FillRowsTypes(acc, l.tname, l.prows, PermColumns(l), parse, |l.prows|, pix);
    if pix < |l.prows| {
      var p := PermRows[pix];
      assert PermColumns(l)[..|l.prows[pix]|] == PermColumns(l);
      FillCellsUntouched(acc[p], l.tname, p, l.prows[pix], PermColumns(l), parse, |l.prows[pix]|, c);
    }
  }

  // ---------------------------------------------------------------------------
  // The whole import, in terms of the sheet
  // ---------------------------------------------------------------------------

  /** The permission headers of a table with `w` columns: the run two
      columns right of the table's header, the last one renamed `row`. */
  function PermHeaders(csv: Csv, w: nat): (h: seq<string>)
    requires 4 <= |csv| && 0 < w && 2 * w + 2 <= |csv[3]|
    ensures |h| == w && h[w - 1] == "row"
  {
    csv[3][w + 2..2 * w + 2][w - 1 := "row"]
  }

  /** No formula in the five permission rows is refused. */
  predicate PermsAccepted(csv: Csv, w: nat)
    requires IsMatrix(csv) && 4 <= |csv| && 0 < w && 2 * w + 2 <= |csv[0]|
  {
    forall pix, k :: 0 <= pix < |PermRows| && 4 + pix < |csv| && 0 <= k < w ==>
      !Refused(PermRows[pix], PermHeaders(csv, w)[k], csv[4 + pix][w + 2 + k])
  }

  /** A sheet `csvToTable` accepts: its squares can be read, nothing stands
      in the permission columns below the fifth permission row, and no
      permission formula is refused. */
  predicate WellLaidOut(csv: Csv)
  {
    SheetShaped(csv)
    && var w := HeaderEnd(csv[3], 0);
    (forall i, k :: 4 + |PermRows| <= i < |csv| && w + 2 <= k < 2 * w + 2 ==> csv[i][k] == "")
    && PermsAccepted(csv, w)
  }

  /** The facts `ReadLayoutPerms` gives about the permission rows. */
  predicate PermRowsOf(csv: Csv, w: nat, prows: seq<seq<string>>)
    requires IsMatrix(csv) && 4 <= |csv| && 0 < w && 2 * w + 2 <= |csv[0]|
  {
    4 + |prows| <= |csv|
    && (forall i :: 0 <= i < |prows| ==> prows[i] == csv[4 + i][w + 2..2 * w + 2])
    && Filled(csv[3 + |prows|], w + 2, 2 * w + 2)
    && (forall i, k :: 4 + |prows| <= i < |csv| && w + 2 <= k < 2 * w + 2 ==> csv[i][k] == "")
  }

  /** Accepted permission rows leave nothing below the fifth and refuse no formula. */
  lemma RowsAcceptedOnly(csv: Csv, w: nat, prows: seq<seq<string>>)
    requires IsMatrix(csv) && 4 <= |csv| && 0 < w && 2 * w + 2 <= |csv[0]|
    requires PermRowsOf(csv, w, prows)
    requires forall i :: 0 <= i < |prows| ==> RowAccepted(i, prows[i], PermHeaders(csv, w))
    ensures forall i, k :: 4 + |PermRows| <= i < |csv| && w + 2 <= k < 2 * w + 2 ==> csv[i][k] == ""
    ensures PermsAccepted(csv, w)
  {
    var h := PermHeaders(csv, w);
    if |prows| > 0 {
      assert RowAccepted(|prows| - 1, prows[|prows| - 1], h);
      assert |prows[|prows| - 1]| == w;
    }
    forall pix, k | 0 <= pix < |PermRows| && 4 + pix < |csv| && 0 <= k < w
      ensures !Refused(PermRows[pix], h[k], csv[4 + pix][w + 2 + k])
    {
      if pix < |prows| {
        assert RowAccepted(pix, prows[pix], h);
        assert prows[pix][k] == csv[4 + pix][w + 2 + k];
      } else {
        assert csv[4 + pix][w + 2 + k] == "";
      }
    }
  }

  /** Conversely, a sheet with nothing below the fifth permission row and no
      refused formula has every permission row accepted. */
  lemma RowsAcceptedAll(csv: Csv, w: nat, prows: seq<seq<string>>)
    requires IsMatrix(csv) && 4 <= |csv| && 0 < w && 2 * w + 2 <= |csv[0]|
    requires PermRowsOf(csv, w, prows)
    requires forall i, k :: 4 + |PermRows| <= i < |csv| && w + 2 <= k < 2 * w + 2 ==> csv[i][k] == ""
    requires PermsAccepted(csv, w)
    ensures forall i :: 0 <= i < |prows| ==> |prows[i]| <= w && RowAccepted(i, prows[i], PermHeaders(csv, w))
  {
    var h := PermHeaders(csv, w);
    var k :| w + 2 <= k < 2 * w + 2 && csv[3 + |prows|][k] != "";
    assert 3 + |prows| < 4 + |PermRows|;
    forall i | 0 <= i < |prows| ensures |prows[i]| <= w && RowAccepted(i, prows[i], h) {
      assert forall k :: 0 <= k < w ==> prows[i][k] == csv[4 + i][w + 2 + k];
    }
  }

  /** The permission rows of a layout are all accepted exactly when the
      sheet has at most five of them and none holds a refused formula. */
  lemma LayoutRowsAccepted(csv: Csv)
    requires ReadLayout(csv).Ok?
    ensures IsMatrix(csv) && 4 <= |csv|
    ensures var l := ReadLayout(csv).value; var w := |l.columns|;
      2 * w + 2 <= |csv[0]|
      && ((forall i :: 0 <= i < |l.prows| ==> RowAccepted(i, l.prows[i], PermColumns(l)))
          <==> (forall i, k :: 4 + |PermRows| <= i < |csv| && w + 2 <= k < 2 * w + 2 ==> csv[i][k] == "")
               && PermsAccepted(csv, w))
  {
    ReadLayoutPerms(csv);
    var l := ReadLayout(csv).value;
    var w := |l.columns|;
    assert PermColumns(l) == PermHeaders(csv, w);
    assert PermRowsOf(csv, w, l.prows);
    if forall i :: 0 <= i < |l.prows| ==> RowAccepted(i, l.prows[i], PermColumns(l)) {
      RowsAcceptedOnly(csv, w, l.prows);
    }
    if (forall i, k :: 4 + |PermRows| <= i < |csv| && w + 2 <= k < 2 * w + 2 ==> csv[i][k] == "") && PermsAccepted(csv, w) {
      RowsAcceptedAll(csv, w, l.prows);
    }
  }

  /** `csvToTable` succeeds exactly on the sheets laid out as it expects. */
  lemma ImportSucceedsIff(csv: Csv, owner: string, parse: Parser)
    ensures CsvTable(csv, owner, parse).Ok? <==> WellLaidOut(csv)
  {
    ReadLayoutIff(csv);
    if ReadLayout(csv).Ok? {
      var l := ReadLayout(csv).value;
      ReadLayoutTable(csv);
      AssembleOk(l, owner, parse);
      LayoutRowsAccepted(csv);
    }
  }

  /** A successful import takes the name from A1, the description from A2
      and the columns from the header run at A4, the first renamed
      `_owner`; it has one row per sheet row below the header down to the
      last one with something in the header's columns. */
  lemma ImportTable(csv: Csv, owner: string, parse: Parser)
    requires CsvTable(csv, owner, parse).Ok?
    ensures SheetShaped(csv)
    ensures var t := CsvTable(csv, owner, parse).value; var w := HeaderEnd(csv[3], 0);
      t.name == csv[0][0] && t.description == csv[1][0] && t.owner == owner
      && t.columns == csv[3][..w][0 := "_owner"]
      && 4 + |t.cells| <= |csv|
      && Filled(csv[3 + |t.cells|], 0, w)
      && (forall i, k :: 4 + |t.cells| <= i < |csv| && 0 <= k < w ==> csv[i][k] == "")
  {
    ReadLayoutIff(csv);
    ReadLayoutTable(csv);
    AssembleTable(ReadLayout(csv).value, owner, parse);
  }

  /** Every cell of a data row becomes the formula of the sheet cell,
      reached by its column position and labelled with the table, the row
      index and the column name. */
  lemma ImportedCells(csv: Csv, owner: string, parse: Parser, ix: nat)
    requires CsvTable(csv, owner, parse).Ok?
    requires ix < |CsvTable(csv, owner, parse).value.cells|
    ensures var t := CsvTable(csv, owner, parse).value;
      4 + ix < |csv| && |t.columns| <= |csv[4 + ix]|
      && (forall cx :: 0 <= cx < |t.columns| ==>
            (NatToString(cx) in t.cells[ix]
             && t.cells[ix][NatToString(cx)] == Formula(MakeExpr(csv[4 + ix][cx], Some(Label(csv[0][0], NatToString(ix), t.columns[cx])), parse))))
      && (forall k :: k in t.cells[ix] ==> PositionKey(k, |t.columns|))
  {
    var l := ReadLayout(csv).value;
    var t := CsvTable(csv, owner, parse).value;
    assert t == Assemble(l, owner, parse).value;
    assert l.tname == csv[0][0] && 4 + ix < |csv| && l.data[ix] == csv[4 + ix][..|l.columns|]
      && |l.columns| <= |csv[4 + ix]| && |t.columns| == |l.columns| by {
      ReadLayoutTable(csv);
      AssembleTable(l, owner, parse);
    }
    AssembleCells(l, owner, parse, ix);
  }

  /** "Not a matrix" is raised exactly for a non-empty sheet with a row
      whose length differs from the first row's. */
  lemma ImportNotAMatrix(csv: Csv, owner: string, parse: Parser)
    ensures CsvTable(csv, owner, parse) == Err(NotAMatrix) <==>
      |csv| > 0 && exists r :: 0 <= r < |csv| && |csv[r]| != |csv[0]|
  {
    if ReadLayout(csv).Ok? {
      ReadLayoutSquares(csv);
      var l := ReadLayout(csv).value;
      PermsOfTotal(l.tname, OwnerColumns(l), parse);
      if Assemble(l, owner, parse).Err? {
        var i := FillRowsErr(PermsOf(l.tname, OwnerColumns(l), parse), l.tname, l.prows, PermColumns(l), parse, |l.prows|);
      }
    }
  }

  /** "Format error" is raised exactly when both header runs can be read
      but the permission run is not as wide as the table's. */
  lemma ImportFormatError(csv: Csv, owner: string, parse: Parser)
    ensures CsvTable(csv, owner, parse) == Err(FormatError) <==>
      IsMatrix(csv) && 4 <= |csv| && 0 < |csv[0]| && csv[3][0] != ""
      && (var w := HeaderEnd(csv[3], 0);
          w + 2 < |csv[0]| && csv[3][w + 2] != "" && HeaderEnd(csv[3], w + 2) != 2 * w + 2)
  {
    if IsMatrix(csv) && 4 <= |csv| {
      SquareWidth(csv, 3, 0);
      SquareEmpty(csv, 3, 0);
      var s1 := Square(csv, 3, 0).value;
      if s1 != [] {
        var w := |s1[0]|;
        SquareWidth(csv, 3, w + 2);
        SquareEmpty(csv, 3, w + 2);
      }
    }
    if ReadLayout(csv).Ok? {
      var l := ReadLayout(csv).value;
      PermsOfTotal(l.tname, OwnerColumns(l), parse);
      if Assemble(l, owner, parse).Err? {
        var i := FillRowsErr(PermsOf(l.tname, OwnerColumns(l), parse), l.tname, l.prows, PermColumns(l), parse, |l.prows|);
      }
    }
  }

  /** When the permission loop fails, it fails on the first rejected row:
      "No init column" or "No add/del for columns" for a refused formula
      of that row's type, a `TypeError` for a sixth row. */
  lemma AssembleErr(l: Layout, owner: string, parse: Parser) returns (i: nat)
    requires LayoutValid(l) && Assemble(l, owner, parse).Err?
    ensures i < |l.prows| && FirstRejected(l.prows, PermColumns(l), i)
    ensures Assemble(l, owner, parse).error == RowError(i)
  {
    PermsOfTotal(l.tname, OwnerColumns(l), parse);
    i := FillRowsErr(PermsOf(l.tname, OwnerColumns(l), parse), l.tname, l.prows, PermColumns(l), parse, |l.prows|);
  }
}
