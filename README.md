# Websheets input-side data layer, in Dafny

Websheets is a spreadsheet-like web application. Tables have named columns.
Every cell holds a formula. Each table also carries a matrix of permission
formulas (`read`, `write`, `init`, `add`, `del`, per column and for whole
rows). This project models the input side of an early snapshot of the
system and proves properties of that model:

- **input tables** (`Input`): cells hold parsed formulas. Rows are inserted,
  deleted and rewritten in place, with bounds checks. A new row is cloned
  from the `init` formulas and stamped with a coordinate label
  `table.row.column`. The default permission matrix is built type by type.
- **the spreadsheet importer** (`Importer`): it reads a table from a CSV
  grid. It finds the header block and the permission block, checks the
  grid's shape, renames headers, and fills the permission matrix row by
  row, refusing misplaced formulas.
- **the formula syntax tree** (`Ast`): the node kinds and their children,
  the pre-order traversals `visitAll` and `visit`, and the canonical
  printing. It also covers the `Tuple` key reordering, the selector kind
  `sType`, source locations, and the relabelling row insertion applies.
- **built-in functions** (`Values`, `Builtins`): `id`, `concat`, `sum`,
  `ASSERT`, `FIX`, `TRUST`, `AFTER` and `TRIGGER`. They work over a minimal
  value tree whose nodes carry shared, mutable dependency objects.
- **output tables** (`Output`): an output table is seeded from an input
  table with every cell `unevaluated`.
- **sheet registries** (`Accounts`, `Sheet`, `LegacySheet`). These are the
  user and table dictionaries of `app/websheets.js` and of the older
  root `websheets.js`. They support authenticate, create and delete.

Code that updates state in place is modelled as classes whose methods state
the whole new state:
- `InputTable`, `WebSheet` and the dependency objects `Dep`;
- the loops of `allowAll`, `getSquare`, the importer's permission filling,
  and `FIX` and `TRUST`.

Each of these methods is proved against a specification function, and the
properties are proved about that function.

Pure code is modelled as functions and lemmas: the syntax tree, the
importer's layout rules, the output seeding and the list queries.

Two things are parameters rather than code:
- the formula parser `parseCell` is the parameter `Parser`, a function that
  may fail, because its source is not part of this model;
- the reading of table references (`resolve`), the owner's `canRead` and the
  current time are also parameters.

JavaScript objects used as dictionaries keep their keys in insertion order.
They are the users and the tables of a sheet (`Base.Dict`). Rows and
permission maps are plain Dafny maps.

Output cells have a single state, `unevaluated` (app/output.js:32-36),
and `censor` returns the table unchanged (app/output.js:17-19); nothing in
this snapshot evaluates a cell or hides an unreadable value.

## Model

| member | source | states |
|---|---|---|
| Ast.NewLoc | app/ast.js:7-13 | a new location is attached to the cell `"undefined"` and keeps the parser's first and last column |
| Ast.LocRoundTrip | app/ast.js:14-16 | the printed form `cell:start-end` reads back to the same location whenever the cell label has no colon, so printing loses nothing |
| Ast.Children | app/ast.js:36-159 | every child a node kind reports is strictly smaller than the node, so every traversal through `children` ends |
| Ast.NodesMember | app/ast.js:25-28 | a node of a tree is the root or a node of one of its children (the reference pre-order node list agrees with recursion through `children`) |
| Ast.VisitAll | app/ast.js:25-28 | the callback is applied to the node first; when it answers `false` nothing below the node is visited |
| Ast.VisitAllTotal | app/ast.js:25-28 | a callback that never prunes is applied to every node of the tree, in pre-order |
| Ast.VisitAllWithin | app/ast.js:25-28 | whatever the callback, a traversal only reaches nodes of the tree |
| Ast.VisitIsVisitAll | app/ast.js:29-34 | `visit` calls exactly the handlers keyed by node type, in the order `visitAll` would; nodes without a handler are still descended into and a `false` handler prunes |
| Ast.RelabelStampsEveryNode | app/input.js:44 | after stamping a formula's tree with a cell label, every node's location carries that label |
| Ast.RelabelTwice | app/input.js:43-44 | stamping touches nothing but labels: a second stamp overrides the first |
| Ast.RelabelKeepsToString | app/ast.js:45-158 | the canonical printed form ignores locations, so stamping never changes it |
| Ast.PrintedBrackets | app/ast.js:63-158 | binary, unary, select, project and filter print in parentheses, lists in `[...]`, tuples and comprehensions in `{...}`; a call prints its name, then `(`, and ends with `)`: `name()` with no argument and `name(arg)` with one |
| Ast.SType | app/ast.js:109-126 | `sType` is `"col"` exactly when the selector is a column name (for a projection, the first selector), else `"row"` |
| Ast.ProjectSTypeIsFirstSelector | app/ast.js:120-126 | a projection has the `sType` of the selection by its first selector, and `"row"` with no selector |
| Ast.MakeTuple | app/ast.js:86-93 | the tuple constructor's loop stores the given fields in reverse order |
| Ast.ReverseKeepsFields | app/ast.js:89-92 | the reordering loses and changes no field: every key maps to the same value, keys stay distinct |
| Ast.ToStringAsWrittenFailsOnIf | app/ast.js:98-105 | the printer as written throws exactly on trees containing an if-expression, and agrees with the intended printer everywhere else |
| Ast.VisitAllAsWrittenWithoutGenerate | app/ast.js:25-28 | without a comprehension in the tree, `visitAll` as written is the intended traversal and never fails |
| Ast.VisitAllAsWrittenOnGenerate | app/ast.js:131-139 | on a comprehension the callback accepts, `visitAll` as written visits the node and then the expression's traversal, and throws on the sources object before reaching the condition |
| Ast.VisitAllAsWrittenFailsIff | app/ast.js:25-28 | with a callback that never prunes, `visitAll` as written throws exactly on trees containing a comprehension |
| Ast.VisitAllAsWrittenFailsOnGenerate | app/ast.js:131-139 | a concrete instance: on `{x for x in t when true}` the traversal as written throws after the expression, while the intended traversal also reaches the source and the condition |
| Ast.VisitAsWrittenWithoutGenerate | app/ast.js:29-34 | without a comprehension in the tree, `visit` as written is the intended handler traversal and never fails |
| Ast.VisitAsWrittenOnGenerate | app/ast.js:29-34 | on a comprehension its handler does not prune, `visit` as written calls the handler and then descends into the expression, and throws on the sources object |
| Builtins.Id | app/functions.js:20 | `id` returns its argument unchanged |
| Builtins.Concat | app/functions.js:21-31 | `concat` succeeds iff every argument is, or resolves to, a list; the result is the in-order flattening of those lists; otherwise it throws "Cannot concat" on the first argument that is not |
| Builtins.ConcatElementsFromArguments | app/functions.js:30 | an element is in the result iff it is an element of one of the argument lists |
| Builtins.ConcatAsWrittenAlwaysFails | app/functions.js:19-31 | as written (no `env` parameter), `concat` throws on every call, even when every argument is a list, on which the intended `concat` succeeds |
| Builtins.SumFrom | app/functions.js:42-47 | the reduction succeeds iff every element holds a number, the result is the start value plus the reference total, and otherwise it throws "Cannot sum" on the first non-number |
| Builtins.Sum | app/functions.js:39-49 | a single list argument is unpacked; the result is the total from 0 carrying every argument's dependencies, or the error on the first non-number |
| Builtins.SumListIsSumOfElements | app/functions.js:40-41 | summing one list equals summing its elements given separately (apart from a list holding one list) |
| Builtins.Assert | app/functions.js:65-73 | after resolving both, it throws the type error only when `cond` is not a boolean and `msg` not a string; it throws `msg`'s value when `cond` is `false`; it succeeds exactly when neither throw fires, returning `v` (or null) with both arguments' dependencies added |
| Builtins.AssertPassesNonBooleanWithStringMessage | app/functions.js:68-72 | a non-boolean condition with a string message is not an error, and the result is null carrying both arguments' dependencies |
| Builtins.Fix | app/functions.js:78-86 | the result is the resolved value, and every dependency on every node of it has `recalculate` off with `enforce` unchanged |
| Builtins.Trust | app/functions.js:87-112 | outside a cell context it fails with "Cannot use TRUST in a non-cell context"; otherwise `enforce` is switched off exactly on the cell dependencies the owner can read, and `recalculate` is never changed |
| Builtins.After | app/functions.js:113-119 | `false` with one fresh time dependency on the date while the date is later than now, else `true` with no dependency |
| Builtins.Trigger | app/functions.js:120-135 | like `AFTER`, but needs a cell context and attaches a trigger dependency for the owner and cell |
| Input.MakeExpr | app/input.js:116-128 | a formula keeps its source and label, and holds the parse tree with no error, or no tree with the parser's error |
| Input.Allow | app/input.js:112-114 | a default permission is the empty formula labelled `tname.type.cname` |
| Input.PermsOfShape | app/input.js:97-110 | the default matrix: `read`/`write` hold every column plus `row`, `init` exactly the columns, `add`/`del` only `row` |
| Input.PermsOfEntries | app/input.js:97-114 | every entry of the default matrix has source `""` and label `tname.type.cname` |
| Input.FillType | app/input.js:99-106 | the inner loop builds one formula per column, and `row` too unless the type is `init` |
| Input.AllowAll | app/input.js:97-110 | the loop over the types builds exactly the default matrix |
| Input.UnstampableIff | app/input.js:42-45 | stamping a cloned `init` formula throws exactly when it is labelled and has no tree or a tree containing a comprehension, on which `visitAll` as written throws |
| Input.NewRow | app/input.js:39-49 | building the new row fails with a `TypeError` exactly when some labelled `init` formula has no tree or a tree containing a comprehension |
| Input.NewRowShape | app/input.js:39-49 | the new row's keys are the `init` columns plus `_owner`, which holds the user; each labelled formula's tree is traversed by `visitAll` as written without failing, and is relabelled `name.i.col` on every node with the same printed form; an unlabelled one is kept as cloned |
| Input.LabelsIdentifyRows | app/input.js:41 | rows at different indices get different labels |
| Input.InputTable.constructor | app/input.js:26-33 | a new table has the given descriptive fields, the default matrix and no rows |
| Input.InputTable.AddRow | app/input.js:34-51 | a missing index appends; an index outside `0..n` fails with "Invalid index" and changes nothing; a `TypeError` exactly when stamping some labelled `init` formula throws (no tree, or a comprehension in it); otherwise the new row is inserted at the index, earlier rows stay put and later rows shift up with their labels unchanged; the permissions are untouched |
| Input.InputTable.DeleteRow | app/input.js:52-56 | fails with "Invalid index" and changes nothing unless `0 <= i < n`; otherwise removes exactly row `i`, keeping the order of the others |
| Input.InputTable.WriteCell | app/input.js:57-64 | "Invalid Column" for an unknown column, then "Invalid Row" out of range, a `TypeError` when the row lacks the column; otherwise only that cell changes, to the new source parsed under the old cell's label |
| Input.InputTable.Export | app/input.js:66-92 | the descriptive fields are copied, every permission and cell formula loses its tree only, and row `i` appears under the key `"i"`, with no other keys |
| Input.IndexKeyedSpec | app/input.js:82 | a sequence keyed by position has row `i` under the decimal key of `i` and no other keys |
| Importer.HeaderEnd | app/import.js:76-78 | the scan stops at the first empty or missing cell at or after the start; every cell it passed is non-empty |
| Importer.SquareSpec | app/import.js:72-90 | the square's first row is the header run; the square is empty iff the start cell is empty or missing; each row is the slice of the sheet row over the header's columns; the last row has something and every row below has nothing in those columns |
| Importer.SquareWidth | app/import.js:82-89 | all rows of a non-empty square have the header's width, which is positive |
| Importer.GetSquare | app/import.js:72-90 | the scanning loop computes the square; a start row past the sheet throws |
| Importer.ReadLayoutIff | app/import.js:35-48 | both squares can be read, positive and equally wide, exactly on matrices of at least four rows whose fourth row starts with a header run and, two columns after it, a second run exactly as wide |
| Importer.ReadSheet | app/import.js:33-48 | the shape checks and the two `getSquare` calls compute the specified layout |
| Importer.ReadLayoutTable | app/import.js:39-42 | name from A1, description from A2, header run from A4, data row `i` is sheet row `4 + i` over the header's columns, the last one filled, nothing below |
| Importer.ReadLayoutPerms | app/import.js:44-47 | the permission run starts two columns after the header run and is as wide; permission row `i` is sheet row `4 + i` over those columns |
| Importer.OwnerColumns | app/import.js:49 | the table's columns are the headers with the first renamed `_owner` |
| Importer.PermColumns | app/import.js:50 | the permission headers have the last renamed `row` |
| Importer.PermExpr | app/import.js:64 | a permission cell becomes the formula of its text labelled `tname.type.col` |
| Importer.FillCells | app/import.js:58-65 | a failing permission row fails with "No init column" for the `init` row and "No add/del for columns" for the `add` and `del` rows |
| Importer.FillCellsOk | app/import.js:58-65 | a permission row goes through iff none of its cells is a refused formula |
| Importer.FillCellsLast | app/import.js:64 | under each header stands the formula of the rightmost cell carrying that header |
| Importer.FillRowsOk | app/import.js:55-66 | the permission loop goes through iff every permission row is accepted (empty, or of one of the five types with no refused formula) |
| Importer.FillRowsErr | app/import.js:55-66 | a failing permission loop fails on its first rejected row with that row's error, a `TypeError` for a sixth row |
| Importer.FillRowsTypes | app/import.js:56-57 | permission row `i` fills the type `read, write, init, add, del`[i]; types without a row keep their defaults |
| Importer.FillRow | app/import.js:58-65 | the inner loop updates the table's permissions of that type as specified, stopping at the first refused formula |
| Importer.FillPerms | app/import.js:55-66 | the outer loop updates the table's permissions as specified, stopping at the first rejected row |
| Importer.CsvToTable | app/import.js:32-70 | the import fails exactly when the specification does, with the same error; on success it returns a fresh input table with the specified fields, rows and permissions |
| Importer.ImportSucceedsIff | app/import.js:32-70 | the import succeeds exactly on well laid out sheets: readable squares, nothing below the fifth permission row, and no refused permission formula |
| Importer.ImportTable | app/import.js:39-53 | a successful import takes its name from A1, its description from A2 and its columns from the header run with the first renamed `_owner`; it has one row per sheet row down to the last filled one |
| Importer.ImportedCells | app/import.js:53 | data cell `(ix, cx)` becomes the formula of the sheet cell, labelled `tname.ix.columns[cx]` and stored under position `cx` |
| Importer.AssembleCells | app/import.js:53 | the same for a read layout |
| Importer.AssemblePermAt | app/import.js:55-66 | the permission of row `pix`'s type under a header is that row's formula (the rightmost when headers repeat) |
| Importer.AssemblePermKeys | app/import.js:52-66 | a type's permissions cover its defaults plus every permission header when the sheet has a row for it |
| Importer.AssemblePermKept | app/import.js:52-66 | a default permission the sheet does not overwrite stays the empty formula labelled `tname.type.col` |
| Importer.AssembleErr | app/import.js:55-63 | a failing assembly fails on the first rejected permission row with that row's error |
| Importer.ImportNotAMatrix | app/import.js:35-37 | "Not a matrix" exactly when a non-empty sheet has a row whose length differs from the first row's |
| Importer.ImportFormatError | app/import.js:44-48 | "Format error" exactly when both header runs can be read but the permission run is not as wide as the table's |
| Output.NewCell | app/output.js:32-36 | a new output cell is `unevaluated` and holds the input cell |
| Output.FromInputRow | app/output.js:25-29 | an output row has the input row's keys, each with an unevaluated cell holding the input cell under that key |
| Output.RowRoundTrip | app/output.js:25-29 | reading the data back from a seeded row gives the input row, and nothing in it is evaluated |
| Output.SeededRowDetermined | app/output.js:25-29 | an unevaluated output row is the seeding of its own data |
| Output.FromInputTable | app/output.js:8-15 | name, description, owner and columns are copied; same number of rows, each with its input row's keys |
| Output.FromInputTableCells | app/output.js:8-36 | every output cell is unevaluated and holds the input cell at the same row and key; the input rows are recovered exactly |
| Output.FromInputTableOwner | app/output.js:14 | the `_owner` entry of an input row reappears, unevaluated, in its output row |
| Output.Censor | app/output.js:17-19 | `censor` returns the table as it is, for any sheet and user |
| Accounts.DefaultUsers | app/websheets.js:11 | the default dictionary holds only `admin` with password `pass` |
| Accounts.DefaultAuthenticates | app/websheets.js:26-28 | with the default users, exactly `admin`/`pass` logs in |
| Accounts.AddUser | app/websheets.js:32 | the added user logs in with its password and no other; other users' logins are unchanged; a new name is listed last |
| Accounts.RemoveUser | app/websheets.js:38 | the removed user can no longer log in; every other user still can, with the same password, and keeps its place |
| Accounts.AddThenRemove | app/websheets.js:29-40 | removing a user that was just added restores the dictionary |
| Sheet.NamesOwnedBy | app/websheets.js:44 | a name is listed iff some table listed under the keys has that owner and that name; at most one name per key |
| Sheet.NamesOwnedByOrder | app/websheets.js:44 | when every table is stored under its own name, the owned names are a subsequence of the table keys, in key order, each listed once when the keys are distinct |
| Sheet.WebSheet.constructor | app/websheets.js:10-15 | a new sheet has only `admin`/`pass` and one fresh table `prova`, owned by `admin`, with columns `a, bb, ab`, no rows and default permissions |
| Sheet.WebSheet.AuthUser | app/websheets.js:26-28 | login succeeds iff the record `{user, pass}` is stored |
| Sheet.WebSheet.CreateUser | app/websheets.js:29-34 | returns `false` and changes nothing when the name is taken; otherwise adds the user and returns `true`; tables are untouched |
| Sheet.WebSheet.DeleteUser | app/websheets.js:35-40 | returns `false` and changes nothing for `admin` or an unknown user; otherwise removes exactly that user and returns `true` |
| Sheet.WebSheet.CreateTable | app/websheets.js:60-63 | always `true`; stores a fresh empty table under the name, replacing any table of that name and keeping the others |
| Sheet.WebSheet.ListUsers | app/websheets.js:41-46 | one entry per user, in order, listing exactly the names of the tables that user owns, each once and in table order |
| Sheet.WebSheet.ListTables | app/websheets.js:48-51 | the name, description and owner of every table, in order |
| Sheet.WebSheet.ListKeywords | app/websheets.js:52-59 | the table names in order; the columns are every table's column list concatenated in table order, repeats kept, so a column is listed iff some table has it; no functions |
| LegacySheet.WebSheet.constructor | websheets.js:13-21 | a missing argument gets its default: no tables, only `admin`/`pass` |
| LegacySheet.WebSheet.AuthUser | websheets.js:30-32 | login succeeds iff the user exists and the password matches |
| LegacySheet.WebSheet.CreateUser | websheets.js:33-38 | returns `false` and changes nothing when the name is taken; otherwise adds the user |
| LegacySheet.WebSheet.DeleteUser | websheets.js:39-41 | removes the user whoever it is, `admin` included, with no answer |
| LegacySheet.WebSheet.ListUsers | websheets.js:42-44 | every user name exactly once |

## Left out

**I/O and unseen code**
- `exports.import` in app/import.js and its module-level call: they read a
  spreadsheet through an external Python script and a CSV parser. Only the
  grid-to-table conversion is modelled.
- `save`, `load`, `getInputTable` and the cjson serialisation in both
  registries: file I/O and reflection-based JSON.
- The `output` field of the newer registry and the `cache` field of the
  older one: nothing in this snapshot of the code uses them.
- The older registry's `listTables`: it calls `.map` on an object, which
  fails on any dictionary of tables, and is not modelled.
- `scripts/`, the HTTP server, the browser code and `app/jssandbox.js` are
  not part of this model.
- The formula parser, table-reference resolution, `canRead` and the clock
  are parameters.
- `vToDate` is not part of this model: `AFTER` and `TRIGGER` take the date
  and the current time as integers.

**Built-ins not modelled**
- `MAIL` sends mail.
- `DEBUG` only enters the debugger.
- `avg` uses float division, and calls `sum` without `env`, so its first
  element is taken as `env`.

**Values and dependencies**
- The value and dependency classes are not part of the source shown.
  - Values are a minimal tree of scalars, lists and table references.
  - Numbers are integers, not JavaScript floats.
- Values.AddDeps: appends dependencies, repeats kept. The dependency class
  is not part of this model, so no deduplication by identity is modelled.
- Builtins.Sum: the value of each argument is checked as passed. The source
  calls `arg.resolve` but reads `arg.value` of the unresolved argument.

**JavaScript semantics not modelled**
- Names inherited from `Object.prototype` (`constructor`, `__proto__`, ...)
  used as table, user or column names. They would make `this.users[user]`
  truthy without an entry.
- The ordering JavaScript gives integer-like object keys ahead of the
  others. Dictionaries are kept in plain insertion order.
- Input.InputTable.AddRow: rows after the insertion point keep their old
  labels. The source marks this as unfinished (app/input.js:48), and the
  model states it rather than renumbering.
- Aliasing between rows.
  - The rows of an input table are values here.
  - The source shares objects on two paths: `deepClone` guards the `init`
    formulas, and the importer sets `table.cells` directly. Those two paths
    are modelled as copies.
- Importer.ImportedCells: imported data rows are JavaScript arrays.
  - They are modelled as maps keyed by position `"0"`, `"1"`, ….
  - `writeCell` by column name on such a row therefore fails reading the
    old cell, as it does in the source.
- The thrown values are modelled as error constructors rather than strings.
  - `ImportError.ReadUndefined` stands for a JavaScript `TypeError` from
    reading a missing row, column or permission type.
  - `InputError.TypeError` stands for the same in `addRow`/`writeCell`.

## Findings

| source | as written | input that shows it | evidently intended | confidence | as-written member | corrected member |
|---|---|---|---|---|---|---|
| app/ast.js:105 | `IfThenElse.toString` reads `this.t` and `this.e`, which the constructor never sets (it sets `then` and `else`), so it throws | any tree containing an if-expression, e.g. `if (x) then (y) else (z)` | print the `then` and `else` branches | not executed | Ast.ToStringAsWrittenFailsOnIf | Ast.RelabelKeepsToString |
| app/ast.js:139 | `Generate.children` returns the `srcs` object itself among the children, and `visitAll` calls `visitAll` on it, which throws; `addRow` stamps new rows with this traversal (app/input.js:44), so it throws on an `init` formula containing a comprehension | the comprehension `{x for x in t when true}` with a callback that never prunes | the children are the expression, the source values and the condition | not executed | Ast.VisitAllAsWrittenFailsIff | Ast.VisitAllTotal |
| app/ast.js:33 | `visit` descends through the same `children`, so it calls `visit` on the `srcs` object, which throws | `{x for x in t when true}` with no handlers | visit the expression, the source values and the condition | not executed | Ast.VisitAsWrittenOnGenerate | Ast.VisitIsVisitAll |
| app/functions.js:21 | `concat` has no `env` parameter, so the environment becomes its first argument, which is not a list and has no `resolve` | any call, e.g. `concat([1], [2])` | skip `env` as every other built-in does | not executed | Builtins.ConcatAsWrittenAlwaysFails | Builtins.Concat |
