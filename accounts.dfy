/** The user dictionary both sheet registries (app/websheets.js and the older
    websheets.js) keep: user name to `{user, pass}`, in insertion order. */
module Accounts {
  import opened Base

  datatype User = User(user: string, pass: string)

  type Users = Dict<User>

  /** `{admin: {user: "admin", pass: "pass"}}` */
  function DefaultUsers(): (d: Users)
    ensures DictValid(d) && d.keys == ["admin"]
    ensures d.entries == map["admin" := User("admin", "pass")]
  {
    Dict(["admin"], map["admin" := User("admin", "pass")])
  }

  /** `users[user] && users[user].pass === pass` */
  predicate Authenticates(d: Users, user: string, pass: string)
  {
    user in d.entries && d.entries[user].pass == pass
  }

  /** Every user is stored under its own name. */
  predicate KeyedByName(d: Users)
  {
    forall k :: k in d.entries ==> d.entries[k].user == k
  }

  lemma DefaultAuthenticates(user: string, pass: string)
    ensures Authenticates(DefaultUsers(), user, pass) <==> user == "admin" && pass == "pass"
  {
  }

  /** `users[user] = {user, pass}`: the user can log in with this password
      and no other, the others are untouched; a new name is listed last, an
      existing one keeps its place. */
  function AddUser(d: Users, user: string, pass: string): (r: Users)
    requires DictValid(d)
    ensures DictValid(r)
    ensures forall p :: Authenticates(r, user, p) <==> p == pass
    ensures forall u, p :: u != user ==> (Authenticates(r, u, p) <==> Authenticates(d, u, p))
    ensures r.keys == if user in d.entries then d.keys else d.keys + [user]
    ensures KeyedByName(d) ==> KeyedByName(r)
  {
    DictPut(d, user, User(user, pass))
  }

  /** `delete users[user]`: the user can no longer log in, every other user
      still can with the same password and keeps its place. */
  function RemoveUser(d: Users, user: string): (r: Users)
    requires DictValid(d)
    ensures DictValid(r)
    ensures forall p :: !Authenticates(r, user, p)
    ensures forall u, p :: u != user ==> (Authenticates(r, u, p) <==> Authenticates(d, u, p))
    ensures forall i :: 0 <= i < |d.keys| && d.keys[i] == user ==> r.keys == d.keys[..i] + d.keys[i + 1..]
    ensures user !in d.entries ==> r == d
    ensures KeyedByName(d) ==> KeyedByName(r)
  {
    DictRemove(d, user)
  }

  /** Removing a user that was just added restores the dictionary. */
  lemma AddThenRemove(d: Users, user: string, pass: string)
    requires DictValid(d) && user !in d.entries
    ensures RemoveUser(AddUser(d, user, pass), user) == d
  {
    var a := AddUser(d, user, pass);
    assert a.keys[|d.keys|] == user;
    assert a.keys[..|d.keys|] == d.keys;
    assert a.entries - {user} == d.entries;
  }
}
