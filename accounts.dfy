/**
 * The account rules of user creation and user update (required fields, the
 * role enumeration, the default role and email uniqueness), and the
 * reference lists an account keeps of its cart item ids and order ids, with
 * the three array operators the handlers apply to them.
 */
module Accounts {
  import opened Wrappers
  import opened Errors
  import opened Schema

  type Users = map<Id, Account>

  /** Some account holds the email (`User.findOne({email})` finds one). */
  predicate EmailInUse(users: Users, email: string)
  {
    exists u :: u in users && users[u].email == email
  }

  /** An account other than `id` holds the email. */
  predicate EmailHeldByOther(users: Users, email: string, id: Id)
  {
    exists u :: u in users && u != id && users[u].email == email
  }

  /** The user schema: name and email required; emails are unique. */
  predicate AccountsValid(users: Users)
  {
    && (forall u :: u in users ==> users[u].name != "" && users[u].email != "")
    && (forall u, v :: u in users && v in users && u != v ==> users[u].email != users[v].email)
  }

  /**
   * The checks of user creation, in the handler's order: name, email and
   * password present; a role, when given, is "admin" or "user"; no account
   * has the email. The new account has the role given, "user" by default,
   * and empty cart and order lists.
   */
  function NewAccount(users: Users, name: string, email: string, password: string, role: string): (r: Result<Account, Error>)
    ensures r.Failure? <==>
      name == "" || email == "" || password == "" || (role != "" && ParseRole(role).None?) || EmailInUse(users, email)
    ensures r.Failure? ==>
              r.error == (if name == "" || email == "" || password == "" then MissingFields
                          else if role != "" && ParseRole(role).None? then InvalidRole
                          else EmailTaken)
    ensures r.Success? ==>
      r.value == Account(name, email, if role == "" then User else ParseRole(role).value, [], [])
  {
    if name == "" || email == "" || password == "" then Failure(MissingFields)
    else if role != "" && ParseRole(role).None? then Failure(InvalidRole)
    else if EmailInUse(users, email) then Failure(EmailTaken)
    else Success(Account(name, email, if role == "" then User else ParseRole(role).value, [], []))
  }

  /** Adding the account that creation returns, under an unused id, keeps the accounts valid. */
  lemma NewAccountKeepsValid(users: Users, id: Id, name: string, email: string, password: string, role: string)
    requires AccountsValid(users)
    requires id !in users
    requires NewAccount(users, name, email, password, role).Success?
    ensures AccountsValid(users[id := NewAccount(users, name, email, password, role).value])
  {
    var a := NewAccount(users, name, email, password, role).value;
    var users' := users[id := a];
    forall u, v | u in users' && v in users' && u != v
      ensures users'[u].email != users'[v].email
    {
      if u == id { assert users[v].email == users'[v].email; }
      if v == id { assert users[u].email == users'[u].email; }
    }
  }

  /**
   * The checks and assignments of a user update: an unknown id is NotFound;
   * a given name replaces the old one; a given email held by another account
   * is refused, otherwise it replaces the old one; a given role outside the
   * enumeration is refused, otherwise it replaces the old one. A field that
   * is not given keeps its value; cart and orders are not touched.
   */
  function UpdatedAccount(users: Users, id: Id, name: string, email: string, role: string): (r: Result<Account, Error>)
    ensures r.Failure? <==>
      id !in users || (email != "" && EmailHeldByOther(users, email, id)) || (role != "" && ParseRole(role).None?)
    ensures r.Failure? ==>
              r.error == (if id !in users then NotFound
                          else if email != "" && EmailHeldByOther(users, email, id) then EmailTaken
                          else InvalidRole)
    ensures r.Success? ==>
      && r.value.name == (if name != "" then name else users[id].name)
      && r.value.email == (if email != "" then email else users[id].email)
      && r.value.role == (if role != "" then ParseRole(role).value else users[id].role)
      && r.value.cart == users[id].cart
      && r.value.orders == users[id].orders
  {
    if id !in users then Failure(NotFound)
    else
      var a := users[id];
      var a := if name != "" then a.(name := name) else a;
      if email != "" && EmailHeldByOther(users, email, id) then Failure(EmailTaken)
      else
        var a := if email != "" then a.(email := email) else a;
        if role != "" && ParseRole(role).None? then Failure(InvalidRole)
        else Success(if role != "" then a.(role := ParseRole(role).value) else a)
  }

  /** A successful update keeps every name and email present and every email unique. */
  lemma UpdatedAccountKeepsValid(users: Users, id: Id, name: string, email: string, role: string)
    requires AccountsValid(users)
    requires UpdatedAccount(users, id, name, email, role).Success?
    ensures AccountsValid(users[id := UpdatedAccount(users, id, name, email, role).value])
  {
    var a := UpdatedAccount(users, id, name, email, role).value;
    var users' := users[id := a];
    forall u, v | u in users' && v in users' && u != v
      ensures users'[u].email != users'[v].email
    {
      if u == id && email != "" { assert !(v in users && v != id && users[v].email == email); }
      if v == id && email != "" { assert !(u in users && u != id && users[u].email == email); }
    }
  }

  /** Repeating an update changes nothing more: the second one returns the account the first stored. */
  lemma UpdatedAccountIdempotent(users: Users, id: Id, name: string, email: string, role: string)
    requires UpdatedAccount(users, id, name, email, role).Success?
    ensures
      var users' := users[id := UpdatedAccount(users, id, name, email, role).value];
      UpdatedAccount(users', id, name, email, role) == Success(users'[id])
  {
    var users' := users[id := UpdatedAccount(users, id, name, email, role).value];
    if email != "" {
      assert !EmailHeldByOther(users', email, id) by {
        forall u | u in users' && u != id ensures users'[u].email != email {
          assert users'[u] == users[u];
        }
      }
    }
  }

  /** `$addToSet`: x is appended unless already present. */
  function AddToSet(s: seq<Id>, x: Id): (r: seq<Id>)
    ensures x in r && forall y :: y in r <==> y in s || y == x
    ensures x in s ==> r == s
    ensures x !in s ==> r == s + [x]
  {
    if x in s then s else s + [x]
  }

  /** `$pull`: every occurrence of x is removed; the rest keep their order. */
  function Pull(s: seq<Id>, x: Id): (r: seq<Id>)
    ensures forall y :: y in r <==> y in s && y != x
    ensures |r| <= |s|
  {
    if s == [] then []
    else if s[0] == x then Pull(s[1..], x)
    else [s[0]] + Pull(s[1..], x)
  }

  /** Pulling an id that is not in the list leaves it as it is. */
  lemma {:induction false} PullAbsent(s: seq<Id>, x: Id)
    requires x !in s
    ensures Pull(s, x) == s
  {
    if s != [] {
      PullAbsent(s[1..], x);
      assert [s[0]] + s[1..] == s;
    }
  }

  /** Pull distributes over concatenation. */
  lemma {:induction false} PullAppend(a: seq<Id>, b: seq<Id>, x: Id)
    ensures Pull(a + b, x) == Pull(a, x) + Pull(b, x)
  {
    if a == [] {
      assert a + b == b;
    } else {
      assert (a + b)[0] == a[0] && (a + b)[1..] == a[1..] + b;
      PullAppend(a[1..], b, x);
    }
  }

  /** Removing a reference undoes its $addToSet whenever it was not there before. */
  lemma PullUndoesAddToSet(s: seq<Id>, x: Id)
    requires x !in s
    ensures Pull(AddToSet(s, x), x) == s
  {
    PullAppend(s, [x], x);
    PullAbsent(s, x);
    assert Pull([x][1..], x) == [];
  }

  /** `User.findByIdAndUpdate(id, {$addToSet: {cart: item}})`; a missing account is left missing. */
  function AddCartRef(users: Users, id: Id, item: Id): (r: Users)
    ensures r.Keys == users.Keys
    ensures forall u :: u in users && u != id ==> r[u] == users[u]
    ensures id in users ==> r[id] == users[id].(cart := AddToSet(users[id].cart, item))
  {
    if id in users then users[id := users[id].(cart := AddToSet(users[id].cart, item))] else users
  }

  /** `User.findByIdAndUpdate(id, {$pull: {cart: item}})`; a missing account is left missing. */
  function PullCartRef(users: Users, id: Id, item: Id): (r: Users)
    ensures r.Keys == users.Keys
    ensures forall u :: u in users && u != id ==> r[u] == users[u]
    ensures id in users ==> r[id] == users[id].(cart := Pull(users[id].cart, item))
  {
    if id in users then users[id := users[id].(cart := Pull(users[id].cart, item))] else users
  }

  /** `User.findByIdAndUpdate(id, {$push: {orders: order}})`; a missing account is left missing. */
  function PushOrder(users: Users, id: Id, order: Id): (r: Users)
    ensures r.Keys == users.Keys
    ensures forall u :: u in users && u != id ==> r[u] == users[u]
    ensures id in users ==> r[id] == users[id].(orders := users[id].orders + [order])
  {
    if id in users then users[id := users[id].(orders := users[id].orders + [order])] else users
  }

  /** Changing reference lists leaves names and emails alone, so it keeps the accounts valid. */
  lemma RefsKeepValid(users: Users, id: Id, item: Id, order: Id)
    requires AccountsValid(users)
    ensures AccountsValid(AddCartRef(users, id, item))
    ensures AccountsValid(PullCartRef(users, id, item))
    ensures AccountsValid(PushOrder(users, id, order))
  {
    SameCredentialsValid(users, AddCartRef(users, id, item));
    SameCredentialsValid(users, PullCartRef(users, id, item));
    SameCredentialsValid(users, PushOrder(users, id, order));
  }

  /** Accounts with the same ids, names and emails as valid ones are valid. */
  lemma SameCredentialsValid(users: Users, users': Users)
    requires AccountsValid(users)
    requires users'.Keys == users.Keys
    requires forall u :: u in users ==> users'[u].name == users[u].name && users'[u].email == users[u].email
    ensures AccountsValid(users')
  {
  }

  /** Removing a cart reference undoes adding it, for an account that did not hold it. */
  lemma PullCartRefUndoesAdd(users: Users, id: Id, item: Id)
    requires id in users ==> item !in users[id].cart
    ensures PullCartRef(AddCartRef(users, id, item), id, item) == users
  {
    if id in users {
      PullUndoesAddToSet(users[id].cart, item);
    }
  }
}
