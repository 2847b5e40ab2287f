/** The sheet registry of app/websheets.js: the users and the input tables,
    both dictionaries kept in insertion order. */
module Sheet {
  import opened Base
  import opened Input
  import opened Accounts

  /** One entry of `listUsers()`: a user and the names of the tables it owns. */
  datatype UserTables = UserTables(user: string, tables: seq<string>)

  /** One entry of `listTables()`: the public part of a table. */
  datatype TableInfo = TableInfo(name: string, description: string, owner: string)

  /** The result of `listKeywords()`. */
  datatype Keywords = Keywords(tables: seq<string>, columns: seq<string>, functions: seq<string>)

  /** `_.chain(tables).where({owner: user}).pluck("name")`, over the tables
      listed under `keys`, in that order. */
  function {:induction false} NamesOwnedBy(keys: seq<string>, tables: map<string, InputTable>, user: string): (r: seq<string>)
    requires forall i :: 0 <= i < |keys| ==> keys[i] in tables
    ensures |r| <= |keys|
    ensures forall n :: n in r <==>
      exists i :: 0 <= i < |keys| && tables[keys[i]].owner == user && tables[keys[i]].name == n
  {
    if |keys| == 0 then []
    else
      var t := tables[keys[0]];
      var rest := NamesOwnedBy(keys[1..], tables, user);
      assert forall i :: 1 <= i < |keys| ==> keys[i] == keys[1..][i - 1];
      assert forall n :: n in rest ==>
        exists i :: 0 <= i < |keys| && tables[keys[i]].owner == user && tables[keys[i]].name == n by {
        forall n | n in rest
          ensures exists i :: 0 <= i < |keys| && tables[keys[i]].owner == user && tables[keys[i]].name == n
        {
          var j :| 0 <= j < |keys[1..]| && tables[keys[1..][j]].owner == user && tables[keys[1..][j]].name == n;
          assert keys[j + 1] == keys[1..][j];
        }
      }
      (if t.owner == user then [t.name] else []) + rest
  }

  /** `r` is `s` with some elements left out, the rest kept in order. */
  predicate Subsequence(r: seq<string>, s: seq<string>)
    decreases |s|
  {
    if |r| == 0 then true
    else if |s| == 0 then false
    else (r[0] == s[0] && Subsequence(r[1..], s[1..])) || Subsequence(r, s[1..])
  }

  /** When every table is stored under its own name, the names a user owns
      come out in the order of `keys`, each once when the keys are distinct. */
  lemma {:induction false} NamesOwnedByOrder(keys: seq<string>, tables: map<string, InputTable>, user: string)
    requires forall i :: 0 <= i < |keys| ==> keys[i] in tables && tables[keys[i]].name == keys[i]
    ensures Subsequence(NamesOwnedBy(keys, tables, user), keys)
    ensures Distinct(keys) ==> Distinct(NamesOwnedBy(keys, tables, user))
  {
    if |keys| > 0 {
      var r := NamesOwnedBy(keys, tables, user);
      var rest := NamesOwnedBy(keys[1..], tables, user);
      NamesOwnedByOrder(keys[1..], tables, user);
      if tables[keys[0]].owner == user {
        assert r == [keys[0]] + rest;
        assert r[1..] == rest;
        if Distinct(keys) {
          assert keys[0] !in rest by {
            forall j | 0 <= j < |keys[1..]| ensures tables[keys[1..][j]].name != keys[0] {
              assert keys[1..][j] == keys[j + 1];
            }
          }
          assert Distinct(keys[1..]) by {
            forall a, b | 0 <= a < b < |keys[1..]| ensures keys[1..][a] != keys[1..][b] {
              assert keys[1..][a] == keys[a + 1] && keys[1..][b] == keys[b + 1];
            }
          }
          forall a, b | 0 <= a < b < |r| ensures r[a] != r[b] {
            if a > 0 {
              assert r[a] == rest[a - 1] && r[b] == rest[b - 1];
            } else {
              assert r[b] == rest[b - 1];
            }
          }
        }
      } else {
        assert r == rest;
        assert Distinct(keys) ==> Distinct(keys[1..]) by {
          if Distinct(keys) {
            forall a, b | 0 <= a < b < |keys[1..]| ensures keys[1..][a] != keys[1..][b] {
              assert keys[1..][a] == keys[a + 1] && keys[1..][b] == keys[b + 1];
            }
          }
        }
      }
    }
  }

  /** Over a dictionary whose tables are stored under their own names, the
      names a user owns are exactly the stored tables with that owner. */
  lemma OwnedNames(d: Dict<InputTable>, user: string)
    requires DictValid(d)
    requires forall k :: k in d.entries ==> d.entries[k].name == k
    ensures forall n :: n in NamesOwnedBy(d.keys, d.entries, user) <==> n in d.entries && d.entries[n].owner == user
  {
    forall n | n in d.entries && d.entries[n].owner == user
      ensures n in NamesOwnedBy(d.keys, d.entries, user)
    {
      var j :| 0 <= j < |d.keys| && d.keys[j] == n;
      assert d.entries[d.keys[j]].owner == user && d.entries[d.keys[j]].name == n;
    }
  }

  class WebSheet {
    var users: Users
    var input: Dict<InputTable>
    /** The cell parser every table of the sheet uses. */
    const parse: Parser

    /** Both dictionaries are well formed, every user is stored under its own
        name and every table under its own name. */
    ghost predicate Valid()
      reads this
    {
      DictValid(users) && DictValid(input) && KeyedByName(users)
      && (forall k :: k in input.entries ==> input.entries[k].name == k)
    }

    /** A new sheet knows only `admin` (password `pass`) and the table `prova`
        that `admin` owns. */
    constructor (parse: Parser)
      ensures Valid() && this.parse == parse
      ensures users == DefaultUsers()
      ensures input.keys == ["prova"] && fresh(input.entries["prova"])
      ensures var t := input.entries["prova"];
        t.description == "here" && t.owner == "admin" && t.columns == ["a", "bb", "ab"]
        && t.cells == [] && t.perms == PermsOf("prova", ["a", "bb", "ab"], parse)
    {
      users := DefaultUsers();
      input := EmptyDict();
      this.parse := parse;
      new;
      var _ := CreateTable("admin", "prova", "here", ["a", "bb", "ab"]);
    }

    /** `authUser(user, pass)`: exactly the stored record `{user, pass}` logs in. */
    function AuthUser(user: string, pass: string): (b: bool)
      reads this
      requires Valid()
      ensures b <==> User(user, pass) in users.entries.Values
    {
      assert User(user, pass) in users.entries.Values ==> users.entries[user] == User(user, pass);
      Authenticates(users, user, pass)
    }

    /** `createUser(user, pass)`: refused for a name already taken, which
        changes nothing; otherwise the user is added. */
    method CreateUser(user: string, pass: string) returns (ok: bool)
      requires Valid()
      modifies this
      ensures Valid() && input == old(input)
      ensures ok <==> user !in old(users).entries
      ensures ok ==> users == AddUser(old(users), user, pass)
      ensures !ok ==> users == old(users)
    {
      if user in users.entries {
        return false;
      }
      users := AddUser(users, user, pass);
      return true;
    }

    /** `deleteUser(user)`: refused for `admin` and for an unknown user, which
        changes nothing; otherwise exactly that user is removed. */
    method DeleteUser(user: string) returns (ok: bool)
      requires Valid()
      modifies this
      ensures Valid() && input == old(input)
      ensures ok <==> user != "admin" && user in old(users).entries
      ensures ok ==> users == RemoveUser(old(users), user)
      ensures !ok ==> users == old(users)
    {
      if user == "admin" || user !in users.entries {
        return false;
      }
      users := RemoveUser(users, user);
      return true;
    }

    /** `createTable(user, name, desc, columns)`: a fresh empty table owned by
        `user` is stored under `name`, replacing any table of that name; the
        other tables stay. The answer is always `true`. */
    method CreateTable(user: string, name: string, desc: string, columns: seq<string>) returns (ok: bool)
      requires Valid()
      modifies this
      ensures Valid() && users == old(users) && ok
      ensures input.entries.Keys == old(input.entries.Keys) + {name}
      ensures input.keys == if name in old(input.entries) then old(input.keys) else old(input.keys) + [name]
      ensures forall k :: k in old(input.entries) && k != name ==> input.entries[k] == old(input.entries[k])
      ensures var t := input.entries[name];
        fresh(t) && t.description == desc && t.owner == user && t.columns == columns
        && t.cells == [] && t.perms == PermsOf(name, columns, parse)
    {
      var t := new InputTable(name, desc, user, columns, parse);
      input := DictPut(input, name, t);
      return true;
    }

    /** `listUsers()`: one entry per user, in order, with the names of the
        tables that user owns, in table order. */
    function ListUsers(): (r: seq<UserTables>)
      reads this
      requires Valid()
      ensures |r| == |users.keys|
      ensures forall i :: 0 <= i < |r| ==> r[i].user == users.keys[i]
      ensures forall i, n :: 0 <= i < |r| ==>
        (n in r[i].tables <==> n in input.entries && input.entries[n].owner == r[i].user)
      ensures forall i :: 0 <= i < |r| ==> Subsequence(r[i].tables, input.keys) && Distinct(r[i].tables)
    {
      var us := DictValues(users);
      var d := input;
      var r := seq(|us|, i requires 0 <= i < |us| =>
        UserTables(us[i].user, NamesOwnedBy(d.keys, d.entries, us[i].user)));
      forall i | 0 <= i < |r|
        ensures forall n :: n in r[i].tables <==> n in d.entries && d.entries[n].owner == r[i].user
      {
        OwnedNames(d, r[i].user);
      }
      forall i | 0 <= i < |r|
        ensures Subsequence(r[i].tables, d.keys) && Distinct(r[i].tables)
      {
        NamesOwnedByOrder(d.keys, d.entries, r[i].user);
      }
      r
    }

    /** `listTables()`: the name, description and owner of every table, in order. */
    function ListTables(): (r: seq<TableInfo>)
      reads this
      requires Valid()
      ensures |r| == |input.keys|
      ensures forall i :: 0 <= i < |r| ==>
        var t := input.entries[input.keys[i]];
        r[i].name == input.keys[i] && r[i] == TableInfo(t.name, t.description, t.owner)
    {
      var ts := DictValues(input);
      seq(|ts|, i requires 0 <= i < |ts| => TableInfo(ts[i].name, ts[i].description, ts[i].owner))
    }

    /** `listKeywords()`: the table names; the column lists of the tables one
        after the other, in table order and with repeats; no functions. */
    function ListKeywords(): (kw: Keywords)
      reads this
      requires Valid()
      ensures kw.tables == input.keys && kw.functions == []
      ensures var d := input;
        kw.columns == Flatten(seq(|d.keys|, i requires 0 <= i < |d.keys| => d.entries[d.keys[i]].columns))
      ensures forall c :: c in kw.columns <==>
        exists k :: k in input.entries && c in input.entries[k].columns
    {
      var ts := DictValues(input);
      var d := input;
      var cols := seq(|ts|, i requires 0 <= i < |ts| => ts[i].columns);
      assert cols == seq(|d.keys|, i requires 0 <= i < |d.keys| => d.entries[d.keys[i]].columns);
      forall c ensures c in Flatten(cols) <==> exists k :: k in d.entries && c in d.entries[k].columns {
        FlattenMember(cols, c);
        if exists k :: k in d.entries && c in d.entries[k].columns {
          var k :| k in d.entries && c in d.entries[k].columns;
          var j :| 0 <= j < |d.keys| && d.keys[j] == k;
          assert c in cols[j];
        }
        if c in Flatten(cols) {
          var j :| 0 <= j < |cols| && c in cols[j];
          assert d.keys[j] in d.entries && c in d.entries[d.keys[j]].columns;
        }
      }
      Keywords(input.keys, Flatten(cols), [])
    }
  }
}
