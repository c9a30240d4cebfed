// Logins and logouts beside the payments of a close: they touch other fields of the
// accounts, and rename nobody, so their order does not matter.
module Commuting {
  import opened AuctionModel

  // The accounts after a login or a logout.
  function SignIn(users: seq<User>, fd: int, name: string, password: string): seq<User> {
    var l := IndexOfName(users, name);
    if l < |users| then users[l := SignedIn(users[l], fd, password)]
    else users + [User(name, password, true, 0, fd, [], [])]
  }

  function SignedIn(u: User, fd: int, password: string): User {
    if !u.loggedIn && u.password == password then u.(loggedIn := true, fd := fd) else u
  }

  function SignOut(users: seq<User>, fd: int): seq<User> {
    var k := IndexOfFd(users, fd);
    if k < |users| then users[k := users[k].(loggedIn := false)] else users
  }

  lemma LoginSignsIn(s: State, fd: int, name: string, password: string)
    ensures Login(s, fd, name, password).users == SignIn(s.users, fd, name, password)
  {
  }

  lemma LogoutSignsOut(s: State, fd: int)
    ensures Logout(s, fd).users == SignOut(s.users, fd)
  {
  }

  // What debits and credits do.
  function Paid(users: seq<User>, name: string, amount: int, ids: seq<int>): seq<User> {
    var k := IndexOfName(users, name);
    if k < |users| then users[k := users[k].(balance := users[k].balance + amount, won := users[k].won + ids)]
    else users
  }

  lemma DebitIsPaid(users: seq<User>, name: string, amount: int, id: int)
    ensures Debit(users, name, amount, id) == Paid(users, name, -amount, [id])
  {
  }

  lemma CreditIsPaid(users: seq<User>, name: string, amount: int)
    ensures Credit(users, name, amount) == Paid(users, name, amount, [])
  {
    var k := IndexOfName(users, name);
    if k < |users| {
      assert users[k].won + [] == users[k].won;
    }
  }

  // Names that keep their places are found where they were.
  lemma SamePlace(us: seq<User>, vs: seq<User>, name: string)
    requires |us| <= |vs| && forall j :: 0 <= j < |us| ==> us[j].name == vs[j].name
    requires HasUser(us, name) || |us| == |vs|
    ensures IndexOfName(vs, name) == IndexOfName(us, name)
  {
  }

  lemma SignInCommutes(users: seq<User>, fd: int, name: string, password: string, payer: string, amount: int, ids: seq<int>)
    requires HasUser(users, payer)
    ensures SignIn(Paid(users, payer, amount, ids), fd, name, password)
         == Paid(SignIn(users, fd, name, password), payer, amount, ids)
  {
    var paid, l := Paid(users, payer, amount, ids), IndexOfName(users, name);
    SamePlace(users, paid, name);
    if l < |users| {
      SamePlace(users, users[l := SignedIn(users[l], fd, password)], payer);
    } else {
      SamePlace(users, users + [User(name, password, true, 0, fd, [], [])], payer);
    }
  }

  lemma SignOutCommutes(users: seq<User>, fd: int, payer: string, amount: int, ids: seq<int>)
    ensures SignOut(Paid(users, payer, amount, ids), fd) == Paid(SignOut(users, fd), payer, amount, ids)
  {
    var paid, after := Paid(users, payer, amount, ids), SignOut(users, fd);
    assert forall j :: 0 <= j < |users| ==> paid[j].fd == users[j].fd;
    assert IndexOfFd(paid, fd) == IndexOfFd(users, fd);
    SamePlace(users, after, payer);
  }
}
