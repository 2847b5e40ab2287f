/** The older sheet registry of websheets.js: a dictionary of tables, whose
    kind is not fixed there, and the user dictionary. */
module LegacySheet {
  import opened Base
  import opened Accounts

  class WebSheet<Table> {
    var tables: Dict<Table>
    var users: Users

    ghost predicate Valid()
      reads this
    {
      DictValid(tables) && DictValid(users)
    }

    /** `new WebSheet(tables, users)`: a missing argument takes its default,
        no tables and the single user `admin` with password `pass`. With no
        arguments this is what `create()` returns. */
    constructor (tables: Option<Dict<Table>>, users: Option<Users>)
      requires tables.Some? ==> DictValid(tables.value)
      requires users.Some? ==> DictValid(users.value)
      ensures Valid()
      ensures this.tables == if tables.Some? then tables.value else EmptyDict()
      ensures this.users == if users.Some? then users.value else DefaultUsers()
    {
      this.tables := if tables.Some? then tables.value else EmptyDict();
      this.users := if users.Some? then users.value else DefaultUsers();
    }

    /** `authUser(user, pass)`: the user exists and the password matches. */
    function AuthUser(user: string, pass: string): (b: bool)
      reads this
      ensures b <==> user in users.entries && users.entries[user].pass == pass
    {
      Authenticates(users, user, pass)
    }

    /** `createUser(user, pass)`: refused for a name already taken, which
        changes nothing; otherwise the user is added. */
    method CreateUser(user: string, pass: string) returns (ok: bool)
      requires Valid()
      modifies this
      ensures Valid() && tables == old(tables)
      ensures ok <==> user !in old(users).entries
      ensures ok ==> users == AddUser(old(users), user, pass)
      ensures !ok ==> users == old(users)
    {
      if user in users.entries {
        return false;
      }
      users := AddUser(users, user, pass);
      return true;
    }

    /** `deleteUser(user)`: the user is removed whoever it is, `admin`
        included; an unknown name changes nothing. */
    method DeleteUser(user: string)
      requires Valid()
      modifies this
      ensures Valid() && tables == old(tables)
      ensures users == RemoveUser(old(users), user)
    {
      users := RemoveUser(users, user);
    }

    /** `listUsers()`: every user name exactly once, in insertion order. */
    function ListUsers(): (r: seq<string>)
      reads this
      requires Valid()
      ensures Distinct(r)
      ensures forall u :: u in r <==> u in users.entries
    {
      users.keys
    }
  }
}
