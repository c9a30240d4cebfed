// The server's data on the heap and its handlers: users and auctions are objects updated
// in place, and the auctions hang on the linked list of LinkedList.dfy. The list of users
// and the watcher list of an auction, linked lists too in the C code, are fields that hold
// a sequence. State() is the state as a value, which Valid() ties to the objects, and
// every handler is proved to take it where the function in AuctionModel says.
module Server {
  import opened Wrappers
  import opened Seqs
  import opened LinkedList
  import M = AuctionModel

  class User {
    const name: string
    const password: string
    var loggedIn: bool
    var balance: int
    var fd: int
    var owned: seq<int>
    var won: seq<int>

    ghost function Value(): M.User
      reads this
    {
      M.User(name, password, loggedIn, balance, fd, owned, won)
    }

    constructor (name: string, password: string, fd: int)
      ensures Value() == M.User(name, password, true, 0, fd, [], [])
    {
      this.name := name;
      this.password := password;
      this.fd := fd;
      loggedIn := true;
      balance := 0;
      owned := [];
      won := [];
    }
  }

  class Auction {
    const id: int
    const name: string
    var duration: int
    const binPrice: int
    const binFlag: bool
    var bid: int
    var winner: Option<string>
    const creator: string
    var watchers: seq<string>
    var numberOfWatchers: int

    ghost function Value(): M.Auction
      reads this
    {
      M.Auction(id, name, duration, binPrice, binFlag, bid, winner, creator, watchers, numberOfWatchers)
    }

    // numberOfWatchers is whatever the allocation left in it.
    constructor (id: int, name: string, duration: int, price: int, creator: string, junk: int)
      ensures Value() == M.Auction(id, name, duration, price, price != 0, 0, None, creator, [], junk)
    {
      this.id := id;
      this.name := name;
      this.duration := duration;
      this.binPrice := price;
      this.binFlag := price != 0;
      this.creator := creator;
      bid := 0;
      winner := None;
      watchers := [];
      numberOfWatchers := junk;
    }

    method AddWatcher(name: string)
      modifies this
      ensures Value() == old(Value()).(watchers := old(watchers) + [name], numberOfWatchers := old(numberOfWatchers) + 1)
    {
      numberOfWatchers := numberOfWatchers + 1;
      watchers := watchers + [name];
    }

    // findUserIndex and removeByIndex on the watcher list; a name that is not on it has
    // no meaning in the original.
    method DropWatcher(name: string)
      requires name in watchers
      modifies this
      ensures Value() == old(Value()).(
        watchers := RemoveAt(old(watchers), M.IndexOfWatcher(old(watchers), name)),
        numberOfWatchers := old(numberOfWatchers) - 1)
    {
      numberOfWatchers := numberOfWatchers - 1;
      var index := FindUserIndex(watchers, name);
      watchers := RemoveAt(watchers, index);
    }

    method PutBid(name: string, amount: int)
      modifies this
      ensures Value() == old(Value()).(bid := amount, winner := Some(name))
    {
      bid := amount;
      winner := Some(name);
    }

    method CountDown()
      modifies this
      ensures Value() == old(Value()).(duration := old(duration) - 1)
    {
      duration := duration - 1;
    }
  }

  ghost predicate Disjoint<T>(xs: seq<T>, ys: seq<T>) {
    forall i, j :: 0 <= i < |xs| && 0 <= j < |ys| ==> xs[i] != ys[j]
  }

  // usersList. `accounts` is the list as values.
  class UserTable {
    var users: seq<User>
    ghost var accounts: seq<M.User>
    ghost var repr: set<object>

    ghost predicate Ok()
      reads this, repr
    {
      var matches :=
        && this in repr
        && (forall i :: 0 <= i < |users| ==> users[i] in repr)
        && Distinct(users)
        && |accounts| == |users|
        && (forall i :: 0 <= i < |users| ==> accounts[i] == users[i].Value());
      matches
    }

    constructor ()
      ensures Ok() && accounts == [] && fresh(repr)
    {
      users := [];
      accounts := [];
      repr := {this};
    }

    method FindUsername(fd: int) returns (u: User?)
      requires Ok()
      ensures u == if M.KnownFd(accounts, fd) then users[M.IndexOfFd(accounts, fd)] else null
      ensures u != null ==> u.name == M.NameOfFd(accounts, fd)
    {
      var i := 0;
      while i < |users|
        invariant 0 <= i <= M.IndexOfFd(accounts, fd)
      {
        assert accounts[i] == users[i].Value();
        if users[i].fd == fd {
          return users[i];
        }
        i := i + 1;
      }
      return null;
    }

    method FindUserStruct(name: string) returns (u: User?)
      requires Ok()
      ensures u == if M.HasUser(accounts, name) then users[M.IndexOfName(accounts, name)] else null
    {
      var i := 0;
      while i < |users|
        invariant 0 <= i <= M.IndexOfName(accounts, name)
      {
        assert accounts[i] == users[i].Value();
        if users[i].name == name {
          return users[i];
        }
        i := i + 1;
      }
      return null;
    }

    method FindClientFd(name: string) returns (fd: int)
      requires Ok()
      ensures fd == M.FdOfName(accounts, name)
      ensures fd == var k := M.IndexOfName(accounts, name); if k < |accounts| then accounts[k].fd else -1
    {
      var i := 0;
      while i < |users|
        invariant 0 <= i <= M.IndexOfName(accounts, name)
      {
        assert accounts[i] == users[i].Value();
        if users[i].name == name {
          return users[i].fd;
        }
        i := i + 1;
      }
      return -1;
    }

    // Put the k-th account on record, after a change to that one object.
    ghost method Record(k: nat)
      requires this in repr && forall i :: 0 <= i < |users| ==> users[i] in repr
      requires k < |users| && |accounts| == |users| && Distinct(users)
      requires forall i :: 0 <= i < |users| && i != k ==> accounts[i] == users[i].Value()
      modifies `accounts
      ensures Ok()
      ensures accounts == old(accounts)[k := users[k].Value()]
    {
      accounts := accounts[k := users[k].Value()];
    }

    // The user part of login; the result is the reply it calls for.
    method Login(fd: int, name: string, password: string) returns (reply: M.Kind)
      requires Ok()
      modifies repr
      ensures Ok() && fresh(repr - old(repr))
      ensures forall s: M.State :: s.users == old(accounts) ==>
        M.Login(s, fd, name, password) == M.Reply(s.(users := accounts), fd, reply)
      ensures reply == M.EWRNGPWD <==>
        var us := old(accounts);
        var k := M.IndexOfName(us, name);
        k < |us| && !us[k].loggedIn && us[k].password != password
    {
      var i := 0;
      while i < |users|
        invariant 0 <= i <= M.IndexOfName(accounts, name)
      {
        assert accounts[i] == users[i].Value();
        if name == users[i].name {
          if users[i].loggedIn {
            return M.EUSRLGDIN;
          } else if password == users[i].password {
            Resume(i, fd);
            return M.OK;
          } else {
            return M.EWRNGPWD;
          }
        }
        i := i + 1;
      }
      Enroll(fd, name, password);
      return M.OK;
    }

    method Resume(i: nat, fd: int)
      requires Ok() && i < |users|
      modifies this, users[i]
      ensures Ok() && repr == old(repr) && users == old(users)
      ensures accounts == old(accounts)[i := old(accounts)[i].(loggedIn := true, fd := fd)]
    {
      users[i].loggedIn := true;
      users[i].fd := fd;
      Record(i);
    }

    method Enroll(fd: int, name: string, password: string)
      requires Ok()
      modifies this
      ensures Ok() && fresh(repr - old(repr))
      ensures accounts == old(accounts) + [M.User(name, password, true, 0, fd, [], [])]
    {
      var u := new User(name, password, fd);
      users := users + [u];
      repr := repr + {u};
      accounts := accounts + [u.Value()];
    }

    // The user part of logout.
    method Logout(fd: int) returns (known: bool)
      requires Ok()
      modifies repr
      ensures Ok() && repr == old(repr)
      ensures known == M.KnownFd(old(accounts), fd)
      ensures accounts == if known
        then var k := M.IndexOfFd(old(accounts), fd); old(accounts)[k := old(accounts)[k].(loggedIn := false)]
        else old(accounts)
    {
      var u := FindUsername(fd);
      known := u != null;
      if u != null {
        u.loggedIn := false;
        Record(M.IndexOfFd(accounts, fd));
      }
    }

    // The loop of createAuction that records the new auction with its owner.
    method MarkOwners(fd: int, id: int) returns (creator: string)
      requires Ok()
      modifies repr
      ensures Ok() && repr == old(repr)
      ensures accounts == M.MarkOwned(old(accounts), fd, id)
      ensures creator == M.LastNameOfFd(old(accounts), fd)
    {
      ghost var before := accounts;
      creator := "";
      var i := 0;
      while i < |users|
        invariant 0 <= i <= |users| && Ok() && repr == old(repr)
        invariant |accounts| == |before|
        invariant forall j :: 0 <= j < |before| ==>
          accounts[j] == if j < i && before[j].fd == fd then before[j].(owned := before[j].owned + [id]) else before[j]
        invariant creator == M.LastNameOfFd(before[..i], fd)
      {
        assert before[..i + 1][..i] == before[..i];
        var mine := TakeOwnership(i, fd, id);
        if mine {
          creator := users[i].name;
        }
        i := i + 1;
      }
      assert before[..i] == before;
      assert accounts == M.MarkOwned(before, fd, id);
    }

    method TakeOwnership(i: nat, fd: int, id: int) returns (mine: bool)
      requires Ok() && i < |users|
      modifies repr
      ensures Ok() && repr == old(repr) && users == old(users)
      ensures var u := old(accounts)[i];
              && mine == (u.fd == fd) && users[i].name == u.name
              && accounts == old(accounts)[i := if mine then u.(owned := u.owned + [id]) else u]
    {
      assert accounts[i] == users[i].Value();
      mine := users[i].fd == fd;
      if mine {
        users[i].owned := users[i].owned + [id];
        Record(i);
      }
    }

    // The first usersMutex section of closeAuction.
    method DebitWinner(name: string, amount: int, id: int)
      requires Ok() && M.HasUser(accounts, name)
      modifies repr
      ensures Ok() && repr == old(repr)
      ensures accounts == M.Debit(old(accounts), name, amount, id)
      ensures forall other :: M.HasUser(old(accounts), other) ==> M.HasUser(accounts, other)
    {
      ghost var k := M.IndexOfName(accounts, name);
      var u := FindUserStruct(name);
      assert accounts[k] == u.Value();
      u.balance := u.balance - amount;
      u.won := u.won + [id];
      Record(k);
      SameUsers(old(accounts), accounts);
    }

    // The second one.
    method CreditCreator(name: string, amount: int)
      requires Ok() && M.HasUser(accounts, name)
      modifies repr
      ensures Ok() && repr == old(repr)
      ensures accounts == M.Credit(old(accounts), name, amount)
    {
      ghost var k := M.IndexOfName(accounts, name);
      var u := FindUserStruct(name);
      assert accounts[k] == u.Value();
      u.balance := u.balance + amount;
      Record(k);
    }

    static lemma SameUsers(us: seq<M.User>, vs: seq<M.User>)
      requires |us| == |vs| && forall j :: 0 <= j < |us| ==> us[j].name == vs[j].name
      ensures forall name :: M.HasUser(us, name) ==> M.HasUser(vs, name)
    {
      forall name | M.HasUser(us, name) ensures M.HasUser(vs, name) {
        assert vs[M.IndexOfName(us, name)].name == name;
      }
    }
  }

  method FindUserIndex(watchers: seq<string>, name: string) returns (index: int)
    ensures index == if name in watchers then M.IndexOfWatcher(watchers, name) else -1
  {
    index := 0;
    while index < |watchers|
      invariant 0 <= index <= M.IndexOfWatcher(watchers, name)
    {
      if watchers[index] == name {
        return;
      }
      index := index + 1;
    }
    return -1;
  }

  // auctionsList. `listed` is the list as values; `retired` are the auctions taken off
  // it, which their owners still point at, and `closed` those as values.
  class AuctionTable {
    const list: List<Auction>
    ghost var retired: seq<Auction>
    ghost var listed: seq<M.Auction>
    ghost var closed: seq<M.Auction>

    ghost var repr: set<object>

    ghost predicate Apart()
      reads this, repr
    {
      && this in repr && list in repr
      && (forall n :: n in list.nodes ==> n in repr)
      && (forall i :: 0 <= i < |list.contents| ==> list.contents[i] in repr)
      && (forall i :: 0 <= i < |retired| ==> retired[i] in repr)
      && list.Valid()
      && Distinct(list.contents)
      && Disjoint(retired, list.contents)
      && |listed| == |list.contents|
      && |closed| == |retired|
    }

    ghost predicate Ok()
      reads this, repr
    {
      var matches :=
        && Apart()
        && (forall i :: 0 <= i < |listed| ==> listed[i] == list.contents[i].Value())
        && (forall i :: 0 <= i < |closed| ==> closed[i] == retired[i].Value());
      matches
    }

    constructor ()
      ensures Ok() && listed == [] && closed == [] && fresh(repr)
    {
      list := new List<Auction>(None);
      retired := [];
      listed := [];
      closed := [];
      new;
      repr := {this, list};
    }

    // The node holding the first auction with an id, or null: the scan all handlers start with.
    method FindNode(id: int) returns (node: Node?<Auction>)
      requires Ok()
      ensures node == list.NodeAt(M.IndexOfId(listed, id))
    {
      node := list.head;
      ghost var i := 0;
      while node != null
        invariant 0 <= i <= M.IndexOfId(listed, id)
        invariant node == list.NodeAt(i)
        decreases |list.nodes| - i
      {
        assert listed[i] == list.contents[i].Value();
        if node.Data().id == id {
          return;
        }
        node := node.Next();
        i := i + 1;
      }
    }

    method FindAuctionIndex(auction: Auction) returns (index: int)
      requires Ok()
      ensures index == if M.IndexOfId(listed, auction.id) < |listed| then M.IndexOfId(listed, auction.id) else -1
    {
      index := -1;
      var current := list.head;
      while current != null
        invariant -1 <= index < M.IndexOfId(listed, auction.id)
        invariant index < |list.nodes| && current == list.NodeAt(index + 1)
        decreases |list.nodes| - index
      {
        index := index + 1;
        assert listed[index] == list.contents[index].Value();
        if auction.id == current.Data().id {
          return;
        }
        current := current.Next();
      }
      return -1;
    }

    // The i-th auction is no other auction.
    lemma OnlyHere(i: nat)
      requires Distinct(list.contents) && i < |list.contents|
      requires Disjoint(retired, list.contents)
      ensures forall k :: 0 <= k < |list.contents| && k != i ==> list.contents[k] != list.contents[i]
      ensures forall k :: 0 <= k < |retired| ==> retired[k] != list.contents[i]
    {
    }

    method Create(id: int, item: string, duration: int, price: int, creator: string, junk: int)
      requires Ok()
      modifies repr
      ensures Ok() && fresh(repr - old(repr)) && closed == old(closed)
      ensures listed == old(listed) + [M.Auction(id, item, duration, price, price != 0, 0, None, creator, [], junk)]
    {
      var auction := new Auction(id, item, duration, price, creator, junk);
      Add(auction);
    }

    method Add(auction: Auction)
      requires Ok() && auction !in list.contents && Disjoint(retired, [auction])
      modifies this, list, list.nodes
      ensures Ok() && repr == old(repr) + {auction} + (set n | n in list.nodes) && closed == old(closed)
      ensures forall n :: n in list.nodes ==> n in old(repr) || fresh(n)
      ensures listed == old(listed) + [auction.Value()]
    {
      ghost var before := list.contents;
      list.InsertAtTail(Some(auction));
      repr := repr + {auction} + set n | n in list.nodes;
      Enlist(auction, before);
    }

    // Put a linked-in auction on record.
    ghost method Enlist(auction: Auction, before: seq<Auction>)
      requires this in repr && list in repr && auction in repr && (forall n :: n in list.nodes ==> n in repr)
      requires (forall k :: 0 <= k < |before| ==> before[k] in repr) && (forall k :: 0 <= k < |retired| ==> retired[k] in repr)
      requires list.Valid() && |before| == |listed| && |closed| == |retired|
      requires list.contents == before + [auction] && Distinct(before) && auction !in before
      requires Disjoint(retired, before) && Disjoint(retired, [auction])
      requires forall k :: 0 <= k < |before| ==> listed[k] == before[k].Value()
      requires forall k :: 0 <= k < |closed| ==> closed[k] == retired[k].Value()
      modifies `listed
      ensures Ok() && listed == old(listed) + [auction.Value()]
    {
      NewAtEnd(retired, before, auction);
      listed := listed + [auction.Value()];
    }

    method AddWatcher(name: string, a: Auction, ghost i: nat)
      requires Ok() && i < |listed| && a == list.contents[i]
      modifies this, a
      ensures Ok() && repr == old(repr) && retired == old(retired) && closed == old(closed)
      ensures var was := old(listed)[i];
              listed == old(listed)[i := was.(watchers := was.watchers + [name], numberOfWatchers := was.numberOfWatchers + 1)]
    {
      ghost var was := listed[i];
      OnlyHere(i);
      a.AddWatcher(name);
      listed := listed[i := was.(watchers := was.watchers + [name], numberOfWatchers := was.numberOfWatchers + 1)];
    }

    method DropWatcher(name: string, a: Auction, ghost i: nat)
      requires Ok() && i < |listed| && a == list.contents[i]
      requires name in listed[i].watchers
      modifies this, a
      ensures Ok() && repr == old(repr) && retired == old(retired) && closed == old(closed)
      ensures var was := old(listed)[i];
              listed == old(listed)[i := was.(
                watchers := RemoveAt(was.watchers, M.IndexOfWatcher(was.watchers, name)),
                numberOfWatchers := was.numberOfWatchers - 1)]
    {
      ghost var was := listed[i];
      OnlyHere(i);
      a.DropWatcher(name);
      listed := listed[i := was.(watchers := RemoveAt(was.watchers, M.IndexOfWatcher(was.watchers, name)),
                     numberOfWatchers := was.numberOfWatchers - 1)];
    }

    method PutBid(name: string, amount: int, a: Auction, ghost i: nat)
      requires Ok() && i < |listed| && a == list.contents[i]
      modifies this, a
      ensures Ok() && repr == old(repr) && retired == old(retired) && closed == old(closed)
      ensures listed == old(listed)[i := old(listed)[i].(bid := amount, winner := Some(name))]
    {
      ghost var was := listed[i];
      OnlyHere(i);
      a.PutBid(name, amount);
      listed := listed[i := was.(bid := amount, winner := Some(name))];
    }

    method CountDown(a: Auction, ghost i: nat)
      requires Ok() && i < |listed| && a == list.contents[i]
      modifies this, a
      ensures Ok() && repr == old(repr) && retired == old(retired) && closed == old(closed)
      ensures listed == old(listed)[i := old(listed)[i].(duration := old(listed)[i].duration - 1)]
    {
      ghost var was := listed[i];
      OnlyHere(i);
      a.CountDown();
      listed := listed[i := was.(duration := was.duration - 1)];
    }

    method Unlist(i: int, a: Auction)
      requires Ok() && 0 <= i < |listed| && a == list.contents[i]
      modifies repr
      ensures Ok() && repr == old(repr)
      ensures listed == RemoveAt(old(listed), i) && closed == old(closed) + [old(listed)[i]]
      ensures list.contents == RemoveAt(old(list.contents), i)
      ensures list.nodes == RemoveAt(old(list.nodes), i)
      ensures retired == old(retired) + [a]
    {
      ghost var before := list.contents;
      var removed := list.RemoveByIndex(i);
      Retire(i, before);
    }

    // Move the record of the auction just taken off the list.
    ghost method Retire(i: nat, before: seq<Auction>)
      requires this in repr && list in repr && (forall n :: n in list.nodes ==> n in repr)
      requires (forall k :: 0 <= k < |before| ==> before[k] in repr) && (forall k :: 0 <= k < |retired| ==> retired[k] in repr)
      requires list.Valid() && i < |before| == |listed| && |closed| == |retired|
      requires list.contents == RemoveAt(before, i) && Distinct(before)
      requires Disjoint(retired, before)
      requires forall k :: 0 <= k < |before| ==> listed[k] == before[k].Value()
      requires forall k :: 0 <= k < |closed| ==> closed[k] == retired[k].Value()
      modifies `listed, `closed, `retired
      ensures Ok()
      ensures listed == RemoveAt(old(listed), i) && closed == old(closed) + [old(listed)[i]]
      ensures retired == old(retired) + [before[i]]
    {
      DistinctRemoveAt(before, i);
      OnlyOnce(retired, before, i);
      retired := retired + [before[i]];
      closed := closed + [listed[i]];
      listed := RemoveAt(listed, i);
    }

    static lemma NewAtEnd<T>(xs: seq<T>, ys: seq<T>, y: T)
      requires Distinct(ys) && y !in ys && Disjoint(xs, ys) && Disjoint(xs, [y])
      ensures Distinct(ys + [y]) && Disjoint(xs, ys + [y])
    {
    }

    static lemma OnlyOnce<T>(xs: seq<T>, ys: seq<T>, i: nat)
      requires i < |ys| && Distinct(ys) && Disjoint(xs, ys)
      ensures Disjoint(xs + [ys[i]], RemoveAt(ys, i))
    {
      var zs := RemoveAt(ys, i);
      forall j | 0 <= j < |zs| ensures zs[j] != ys[i] && forall k :: 0 <= k < |xs| ==> xs[k] != zs[j] {
        assert zs[j] == ys[if j < i then j else j + 1];
      }
    }
  }

  // What a close relies on: the accounts it settles exist, and an id names one auction.
  ghost predicate Consistent(s: M.State) {
    forall i :: 0 <= i < |s.listed| ==>
      && M.HasUser(s.users, s.listed[i].creator)
      && (s.listed[i].winner.Some? ==> M.HasUser(s.users, s.listed[i].winner.value))
      && M.IndexOfId(s.listed, s.listed[i].id) == i
  }

  class Server {
    const users: UserTable
    const auctions: AuctionTable
    var auctionID: int
    var log: seq<M.Msg>                  // everything sent

    ghost predicate Valid()
      reads users, auctions, users.repr, auctions.repr
    {
      var tables :=
        && this !in users.repr && this !in auctions.repr
        && users.repr !! auctions.repr
        && users.Ok() && auctions.Ok();
      tables
    }

    ghost function State(): M.State
      reads this, users, auctions
    {
      M.State(users.accounts, auctions.listed, auctions.closed, auctionID, log)
    }

    constructor ()
      ensures Valid() && State() == M.EMPTY
      ensures fresh(users.repr) && fresh(auctions.repr)
    {
      users := new UserTable();
      auctions := new AuctionTable();
      auctionID := 0;
      log := [];
    }

    method WrMsg(fd: int, kind: M.Kind, text: string)
      requires Valid()
      modifies `log
      ensures Valid() && State() == old(State()).(log := old(log) + [M.Msg(fd, kind, text)])
    {
      log := log + [M.Msg(fd, kind, text)];
    }

    method Login(fd: int, name: string, password: string) returns (result: int)
      requires Valid()
      modifies `log, users.repr
      ensures Valid() && fresh(users.repr - old(users.repr))
      ensures State() == M.Login(old(State()), fd, name, password)
      ensures var us := old(users.accounts);
              var k := M.IndexOfName(us, name);
              result == if k < |us| && !us[k].loggedIn && us[k].password != password then -1 else 0
    {
      var reply := users.Login(fd, name, password);
      WrMsg(fd, reply, "");
      result := if reply == M.EWRNGPWD then -1 else 0;
    }

    method Logout(fd: int)
      requires Valid()
      modifies `log, users.repr
      ensures Valid() && users.repr == old(users.repr)
      ensures State() == M.Logout(old(State()), fd)
    {
      var known := users.Logout(fd);
      if known {
        WrMsg(fd, M.OK, "");
      }
    }

    method CreateAuction(fd: int, item: string, duration: int, price: int, junk: int)
      requires Valid()
      requires M.BadArguments(item, duration, price) || M.KnownFd(users.accounts, fd)
      modifies `auctionID, `log, users.repr, auctions.repr
      ensures Valid() && users.repr == old(users.repr) && fresh(auctions.repr - old(auctions.repr))
      ensures State() == M.Create(old(State()), fd, item, duration, price, junk)
    {
      if item == "" || duration < 1 || price < 0 {
        WrMsg(fd, M.EINVALIDARG, "");
        return;
      }
      Register(fd, item, duration, price, junk);
      WrMsg(fd, M.ANCREATE, M.Dec(auctionID));
    }

    // A new auction: its id, its owner, and its place at the end of the list.
    method Register(fd: int, item: string, duration: int, price: int, junk: int)
      requires Valid()
      modifies `auctionID, users.repr, auctions.repr
      ensures Valid() && users.repr == old(users.repr) && fresh(auctions.repr - old(auctions.repr))
      ensures State() == Registered(old(State()).(lastId := old(auctionID) + 1), fd, item, duration, price, junk)
    {
      NextId();
      Enter(fd, item, duration, price, junk);
    }

    method Enter(fd: int, item: string, duration: int, price: int, junk: int)
      requires Valid()
      modifies users.repr, auctions.repr
      ensures Valid() && users.repr == old(users.repr) && fresh(auctions.repr - old(auctions.repr))
      ensures State() == Registered(old(State()), fd, item, duration, price, junk)
    {
      var creator := Own(fd, auctionID);
      Append(auctionID, item, duration, price, creator, junk);
    }

    static ghost function Registered(s: M.State, fd: int, item: string, duration: int, price: int, junk: int): M.State {
      s.(users := M.MarkOwned(s.users, fd, s.lastId),
         listed := s.listed + [M.Auction(s.lastId, item, duration, price, price != 0,
                                         0, None, M.LastNameOfFd(s.users, fd), [], junk)])
    }

    method NextId()
      requires Valid()
      modifies `auctionID
      ensures Valid() && State() == old(State()).(lastId := old(auctionID) + 1)
    {
      auctionID := auctionID + 1;
    }

    method Own(fd: int, id: int) returns (creator: string)
      requires Valid()
      modifies users.repr
      ensures Valid() && users.repr == old(users.repr) && creator == M.LastNameOfFd(old(users.accounts), fd)
      ensures State() == old(State()).(users := M.MarkOwned(old(users.accounts), fd, id))
    {
      creator := users.MarkOwners(fd, id);
    }

    method Append(id: int, item: string, duration: int, price: int, creator: string, junk: int)
      requires Valid()
      modifies auctions.repr
      ensures Valid() && fresh(auctions.repr - old(auctions.repr))
      ensures var s := old(State());
              State() == s.(listed := s.listed + [M.Auction(id, item, duration, price, price != 0, 0, None, creator, [], junk)])
    {
      auctions.Create(id, item, duration, price, creator, junk);
    }

    method WatchAuction(fd: int, id: int)
      requires Valid()
      requires M.IndexOfId(auctions.listed, id) < |auctions.listed| ==> M.KnownFd(users.accounts, fd)
      modifies `log, auctions.repr
      ensures Valid() && auctions.repr == old(auctions.repr)
      ensures State() == M.Watch(old(State()), fd, id)
    {
      var node := auctions.FindNode(id);
      if node == null {
        WrMsg(fd, M.EANNOTFOUND, "");
        return;
      }
      ghost var i := M.IndexOfId(auctions.listed, id);
      WatchIs(State(), fd, id, i);
      WatchFound(fd, node.Data(), i);
    }

    // The part of watchAuction for an auction that is listed.
    method WatchFound(fd: int, a: Auction, ghost i: nat)
      requires Valid() && i < |auctions.listed| && a == auctions.list.contents[i] && M.KnownFd(users.accounts, fd)
      modifies `log, auctions.repr
      ensures Valid() && auctions.repr == old(auctions.repr)
      ensures State() == Watched(old(State()), fd, i)
    {
      assert auctions.listed[i] == a.Value();
      var user := users.FindUsername(fd);
      Join(user.name, a, i);
      WrMsg(fd, M.ANWATCH, a.name + "\r\n" + M.Dec(a.binPrice));
    }

    static ghost function Watched(s: M.State, fd: int, i: nat): M.State
      requires i < |s.listed| && M.KnownFd(s.users, fd)
    {
      var a := s.listed[i];
      s.(listed := s.listed[i := a.(watchers := a.watchers + [M.NameOfFd(s.users, fd)],
                                    numberOfWatchers := a.numberOfWatchers + 1)],
         log := s.log + [M.Msg(fd, M.ANWATCH, a.name + "\r\n" + M.Dec(a.binPrice))])
    }

    static lemma WatchIs(s: M.State, fd: int, id: int, i: nat)
      requires i == M.IndexOfId(s.listed, id) < |s.listed| && M.KnownFd(s.users, fd)
      ensures M.Watch(s, fd, id) == Watched(s, fd, i)
    {
    }

    method Join(name: string, a: Auction, ghost i: nat)
      requires Valid() && i < |auctions.listed| && a == auctions.list.contents[i]
      modifies auctions.repr
      ensures Valid() && auctions.repr == old(auctions.repr)
      ensures var s, was := old(State()), old(auctions.listed)[i];
              State() == s.(listed := s.listed[i := was.(
                watchers := was.watchers + [name], numberOfWatchers := was.numberOfWatchers + 1)])
    {
      auctions.AddWatcher(name, a, i);
    }

    method LeaveAuction(fd: int, id: int)
      requires Valid() && M.CanLeave(State(), fd, id)
      modifies `log, auctions.repr
      ensures Valid() && auctions.repr == old(auctions.repr)
      ensures State() == M.Leave(old(State()), fd, id)
    {
      var user := users.FindUsername(fd);
      var node := auctions.FindNode(id);
      if node == null {
        WrMsg(fd, M.EANNOTFOUND, "");
        return;
      }
      ghost var i := M.IndexOfId(auctions.listed, id);
      LeaveIs(State(), fd, id, i);
      LeaveFound(fd, user.name, node.Data(), i);
    }

    method LeaveFound(fd: int, name: string, a: Auction, ghost i: nat)
      requires Valid() && i < |auctions.listed| && a == auctions.list.contents[i]
      requires name in auctions.listed[i].watchers
      modifies `log, auctions.repr
      ensures Valid() && auctions.repr == old(auctions.repr)
      ensures State() == M.Reply(Left(old(State()), name, i), fd, M.OK)
    {
      Part(name, a, i);
      WrMsg(fd, M.OK, "");
    }

    static ghost function Left(s: M.State, name: string, i: nat): M.State
      requires i < |s.listed| && name in s.listed[i].watchers
    {
      var a := s.listed[i];
      s.(listed := s.listed[i := a.(watchers := RemoveAt(a.watchers, M.IndexOfWatcher(a.watchers, name)),
                                    numberOfWatchers := a.numberOfWatchers - 1)])
    }

    static lemma LeaveIs(s: M.State, fd: int, id: int, i: nat)
      requires M.CanLeave(s, fd, id) && i == M.IndexOfId(s.listed, id) < |s.listed|
      ensures M.Leave(s, fd, id) == M.Reply(Left(s, M.NameOfFd(s.users, fd), i), fd, M.OK)
    {
    }

    method Part(name: string, a: Auction, ghost i: nat)
      requires Valid() && i < |auctions.listed| && a == auctions.list.contents[i]
      requires name in auctions.listed[i].watchers
      modifies auctions.repr
      ensures Valid() && auctions.repr == old(auctions.repr)
      ensures State() == Left(old(State()), name, i)
    {
      auctions.DropWatcher(name, a, i);
    }

    method CloseAuction(a: Auction)
      requires Valid() && a !in users.repr
      requires M.HasUser(users.accounts, a.creator)
      requires a.winner.Some? ==> M.HasUser(users.accounts, a.winner.value)
      modifies `log, users.repr
      ensures Valid() && users.repr == old(users.repr)
      ensures State() == old(State()).(
        users := M.Settle(old(users.accounts), a.Value()),
        log := old(log) + M.Broadcast(users.accounts, a.watchers, M.ANCLOSED, M.ClosedText(a.Value())))
    {
      ghost var v := a.Value();
      var text := M.Dec(a.id) + "\r\n";
      if a.winner == None {
        text := text + "\r\n\r\n";
      } else {
        text := text + (a.winner.value + "\r\n" + M.Dec(a.bid));
        users.DebitWinner(a.winner.value, a.bid, a.id);
      }
      assert text == M.ClosedText(v);
      assert a.Value() == v;
      users.CreditCreator(a.creator, a.bid);
      assert a.Value() == v;
      SendToWatchers(a.watchers, M.ANCLOSED, text);
    }

    method SendToWatchers(watchers: seq<string>, kind: M.Kind, text: string)
      requires Valid()
      modifies `log
      ensures Valid() && State() == old(State()).(
        log := old(log) + M.Broadcast(users.accounts, watchers, kind, text))
    {
      var i := 0;
      while i < |watchers|
        invariant 0 <= i <= |watchers|
        invariant Valid() && State() == old(State()).(log := log)
        invariant log == old(log) + M.Broadcast(users.accounts, watchers[..i], kind, text)
      {
        M.NextWatcher(old(log), users.accounts, watchers, i, kind, text);
        Send(watchers[i], kind, text);
        i := i + 1;
      }
      assert watchers[..i] == watchers;
    }

    method Send(name: string, kind: M.Kind, text: string)
      requires Valid()
      modifies `log
      ensures Valid() && State() == old(State()).(
        log := old(log) + [M.Msg(M.FdOfName(users.accounts, name), kind, text)])
    {
      var fd := users.FindClientFd(name);
      WrMsg(fd, kind, text);
    }

    method UpdateAuction(a: Auction, from: string)
      requires Valid()
      modifies `log
      ensures Valid() && State() == old(State()).(
        log := old(log) + M.BroadcastToKnown(users.accounts, a.watchers, M.ANUPDATE, M.UpdateText(a.Value(), from)))
    {
      var text := M.Dec(a.id) + "\r\n" + a.name + "\r\n" + from + "\r\n" + M.Dec(a.bid);
      SendToKnown(a.watchers, M.ANUPDATE, text);
    }

    method SendToKnown(watchers: seq<string>, kind: M.Kind, text: string)
      requires Valid()
      modifies `log
      ensures Valid() && State() == old(State()).(
        log := old(log) + M.BroadcastToKnown(users.accounts, watchers, kind, text))
    {
      var i := 0;
      while i < |watchers|
        invariant 0 <= i <= |watchers|
        invariant Valid() && State() == old(State()).(log := log)
        invariant log == old(log) + M.BroadcastToKnown(users.accounts, watchers[..i], kind, text)
      {
        M.NextWatcher(old(log), users.accounts, watchers, i, kind, text);
        SendIfKnown(watchers[i], kind, text);
        i := i + 1;
      }
      assert watchers[..i] == watchers;
    }

    method SendIfKnown(name: string, kind: M.Kind, text: string)
      requires Valid()
      modifies `log
      ensures Valid() && State() == old(State()).(
        log := old(log) + var fd := M.FdOfName(users.accounts, name); if fd != -1 then [M.Msg(fd, kind, text)] else [])
    {
      var fd := users.FindClientFd(name);
      if fd != -1 {
        WrMsg(fd, kind, text);
      }
    }

    // closeAuction, findAuctionIndex and removeByIndex, as bid and tick call them.
    method CloseAndRemove(a: Auction, ghost i: nat)
      requires Valid() && i < |auctions.listed| && a == auctions.list.contents[i]
      requires Consistent(State())
      modifies `log, users.repr, auctions.repr
      ensures Valid() && users.repr == old(users.repr) && auctions.repr == old(auctions.repr)
      ensures State() == M.Close(old(State()), i)
      ensures auctions.list.nodes == RemoveAt(old(auctions.list.nodes), i)
    {
      assert auctions.listed[i] == a.Value();
      CloseAuction(a);
      var index := auctions.FindAuctionIndex(a);
      auctions.Unlist(index, a);
    }

    method BidAuction(fd: int, id: int, amount: int)
      requires Valid() && M.KnownFd(users.accounts, fd) && Consistent(State())
      modifies `log, users.repr, auctions.repr
      ensures Valid() && users.repr == old(users.repr) && auctions.repr == old(auctions.repr)
      ensures State() == M.Bid(old(State()), fd, id, amount)
    {
      var user := users.FindUsername(fd);
      var name := user.name;
      if auctions.list.head == null {
        WrMsg(fd, M.EANNOTFOUND, "");
        return;
      }
      var node := auctions.FindNode(id);
      if node == null {
        return;
      }
      ghost var i := M.IndexOfId(auctions.listed, id);
      var a := node.Data();
      assert auctions.listed[i] == a.Value();
      if a.creator == name {
        WrMsg(fd, M.EANDENIED, "");
        return;
      }
      var watching := Watching(a, name);
      if watching {
        PlaceBid(fd, name, amount, a, i);
      } else {
        WrMsg(fd, M.EANDENIED, "");
      }
    }

    method Watching(a: Auction, name: string) returns (yes: bool)
      ensures yes == (name in a.watchers)
    {
      var k := 0;
      while k < |a.watchers|
        invariant 0 <= k <= |a.watchers| && name !in a.watchers[..k]
      {
        if a.watchers[k] == name {
          return true;
        }
        k := k + 1;
      }
      assert a.watchers[..k] == a.watchers;
      return false;
    }

    // The part of bidAuction for a bidder who is watching.
    method PlaceBid(fd: int, name: string, amount: int, a: Auction, ghost i: nat)
      requires Valid() && i < |auctions.listed| && a == auctions.list.contents[i]
      requires M.KnownFd(users.accounts, fd) && name == M.NameOfFd(users.accounts, fd)
      requires name in a.watchers && a.creator != name
      requires Consistent(State())
      modifies `log, users.repr, auctions.repr
      ensures Valid() && users.repr == old(users.repr) && auctions.repr == old(auctions.repr)
      ensures State() == M.Bid(old(State()), fd, a.id, amount)
    {
      ghost var s := State();
      assert s.listed[i] == a.Value();
      BidIs(s, fd, i, amount);
      if a.binFlag && amount > a.binPrice {
        PutBid(name, amount, a, i);
        CloseAndRemove(a, i);
      } else if amount > a.bid {
        RaiseBid(fd, name, amount, a, i);
      } else {
        WrMsg(fd, M.EBIDLOW, "");
      }
    }

    method RaiseBid(fd: int, name: string, amount: int, a: Auction, ghost i: nat)
      requires Valid() && i < |auctions.listed| && a == auctions.list.contents[i]
      requires Consistent(State()) && M.HasUser(users.accounts, name)
      modifies `log, auctions.repr
      ensures Valid() && auctions.repr == old(auctions.repr)
      ensures State() == RaisedState(old(State()), fd, name, amount, i)
    {
      PutBid(name, amount, a, i);
      UpdateAuction(a, name);
      WrMsg(fd, M.OK, "");
    }

    static ghost function RaisedState(s: M.State, fd: int, name: string, amount: int, i: nat): M.State
      requires i < |s.listed|
    {
      var b := s.listed[i].(bid := amount, winner := Some(name));
      s.(listed := s.listed[i := b],
         log := s.log + M.BroadcastToKnown(s.users, b.watchers, M.ANUPDATE, M.UpdateText(b, name)) + [M.Msg(fd, M.OK, "")])
    }

    static lemma BidIs(s: M.State, fd: int, i: nat, amount: int)
      requires i < |s.listed| && M.IndexOfId(s.listed, s.listed[i].id) == i && M.KnownFd(s.users, fd)
      requires M.NameOfFd(s.users, fd) in s.listed[i].watchers && s.listed[i].creator != M.NameOfFd(s.users, fd)
      ensures var a, name := s.listed[i], M.NameOfFd(s.users, fd);
              M.Bid(s, fd, a.id, amount) ==
                if a.binFlag && amount > a.binPrice
                then M.Close(s.(listed := s.listed[i := a.(bid := amount, winner := Some(name))]), i)
                else if amount > a.bid then RaisedState(s, fd, name, amount, i)
                else M.Reply(s, fd, M.EBIDLOW)
    {
    }

    method PutBid(name: string, amount: int, a: Auction, ghost i: nat)
      requires Valid() && i < |auctions.listed| && a == auctions.list.contents[i]
      requires Consistent(State()) && M.HasUser(users.accounts, name)
      modifies auctions.repr
      ensures Valid() && auctions.repr == old(auctions.repr) && Consistent(State())
      ensures auctions.list.contents == old(auctions.list.contents)
      ensures var s := old(State());
              State() == s.(listed := s.listed[i := s.listed[i].(bid := amount, winner := Some(name))])
      ensures a.Value() == auctions.listed[i]
    {
      auctions.PutBid(name, amount, a, i);
      StillConsistent(old(State()), i, auctions.listed[i]);
    }

    static lemma StillConsistent(s: M.State, i: nat, b: M.Auction)
      requires Consistent(s) && i < |s.listed|
      requires b.id == s.listed[i].id && b.creator == s.listed[i].creator
      requires b.winner.Some? ==> M.HasUser(s.users, b.winner.value)
      ensures Consistent(s.(listed := s.listed[i := b]))
    {
      var t := s.(listed := s.listed[i := b]);
      forall k | 0 <= k < |t.listed| ensures M.IndexOfId(t.listed, t.listed[k].id) == k {
        assert M.IndexOfId(s.listed, s.listed[k].id) == k;
        assert forall j :: 0 <= j < |t.listed| ==> t.listed[j].id == s.listed[j].id;
      }
    }

    // The scan of a tick at the i-th node: all auctions before it counted down, none closed.
    ghost predicate Scanning(s: M.State, current: Node?<Auction>, i: nat)
      reads this, users, auctions, users.repr, auctions.repr, auctions.list
    {
      var scanning :=
        && Valid() && Consistent(s)
        && i <= M.Expiring(s.listed) && State() == s.(listed := M.CountDown(s.listed, i))
        && current == auctions.list.NodeAt(i);
      scanning
    }

    // One tick of run_tick: the scan never follows the node it has freed.
    method Tick()
      requires Valid() && Consistent(State())
      modifies `log, users.repr, auctions.repr
      ensures Valid() && users.repr == old(users.repr) && auctions.repr == old(auctions.repr)
      ensures State() == M.Tick(old(State()))
    {
      ghost var s := State();
      var current := auctions.list.head;
      ghost var i := 0;
      ScanBegins();
      while current != null
        invariant Scanning(s, current, i)
        invariant users.repr == old(users.repr) && auctions.repr == old(auctions.repr)
        decreases |s.listed| - i
      {
        var closed, next := CountDownNext(s, current, i);
        if closed {
          return;
        }
        current := next;
        i := i + 1;
      }
      ScanEnds(s, i);
    }

    lemma ScanBegins()
      requires Valid() && Consistent(State())
      ensures Scanning(State(), auctions.list.head, 0)
    {
      assert M.CountDown(auctions.listed, 0) == auctions.listed;
    }

    lemma ScanEnds(s: M.State, i: nat)
      requires Scanning(s, null, i)
      ensures Valid() && State() == M.Tick(s)
    {
      TickStopsAt(s, i);
    }

    method CountDownNext(ghost s: M.State, current: Node<Auction>, ghost i: nat) returns (closed: bool, next: Node?<Auction>)
      requires Scanning(s, current, i)
      modifies `log, users.repr, auctions.repr
      ensures users.repr == old(users.repr) && auctions.repr == old(auctions.repr)
      ensures closed ==> Valid() && State() == M.Tick(s)
      ensures !closed ==> Scanning(s, next, i + 1) && i < |s.listed|
    {
      closed := CountDownAndClose(s, current.Data(), i);
      next := if closed then null else current.Next();
    }

    method CountDownAndClose(ghost s: M.State, a: Auction, ghost i: nat) returns (closed: bool)
      requires Valid() && i < |auctions.listed| && a == auctions.list.contents[i]
      requires Consistent(s) && |s.listed| == |auctions.listed| && i <= M.Expiring(s.listed)
      requires State() == s.(listed := M.CountDown(s.listed, i))
      modifies `log, users.repr, auctions.repr
      ensures Valid() && users.repr == old(users.repr) && auctions.repr == old(auctions.repr)
      ensures closed ==> State() == M.Tick(s)
      ensures !closed ==>
        && State() == s.(listed := M.CountDown(s.listed, i + 1)) && i < M.Expiring(s.listed)
        && auctions.list.nodes == old(auctions.list.nodes)
    {
      CountDown(s, a, i);
      closed := a.duration == 0;
      if closed {
        CountedDownConsistent(s, i + 1);
        CloseAndRemove(a, i);
        TickStopsAt(s, i);
      }
    }

    static lemma TickStopsAt(s: M.State, i: nat)
      requires i <= |s.listed| && i <= M.Expiring(s.listed)
      requires i < |s.listed| ==> s.listed[i].duration == 1
      ensures M.Tick(s) == if i < |s.listed|
        then M.Close(s.(listed := M.CountDown(s.listed, i + 1)), i)
        else s.(listed := M.CountDown(s.listed, i))
    {
      assert M.Expiring(s.listed) == i;
    }

    method CountDown(ghost s: M.State, a: Auction, ghost i: nat)
      requires Valid() && i < |auctions.listed| && a == auctions.list.contents[i]
      requires |s.listed| == |auctions.listed| && State() == s.(listed := M.CountDown(s.listed, i))
      modifies auctions.repr
      ensures Valid() && auctions.repr == old(auctions.repr)
      ensures auctions.list.nodes == old(auctions.list.nodes) && auctions.list.contents == old(auctions.list.contents)
      ensures State() == s.(listed := M.CountDown(s.listed, i + 1))
      ensures a.Value() == auctions.listed[i]
    {
      auctions.CountDown(a, i);
      assert auctions.listed == M.CountDown(s.listed, i + 1);
    }

    static lemma CountedDownConsistent(s: M.State, k: nat)
      requires Consistent(s) && k <= |s.listed|
      ensures Consistent(s.(listed := M.CountDown(s.listed, k)))
    {
      var t := M.CountDown(s.listed, k);
      forall j | 0 <= j < |t| ensures M.IndexOfId(t, t[j].id) == j {
        assert M.IndexOfId(s.listed, s.listed[j].id) == j;
        assert forall i :: 0 <= i < |t| ==> t[i].id == s.listed[i].id;
      }
    }

    method ListAuctions(fd: int)
      requires Valid()
      modifies `log
      ensures Valid()
      ensures State() == M.ListAll(old(State()), fd)
    {
      var text := "";
      var current := auctions.list.head;
      ghost var i := 0;
      while current != null
        invariant 0 <= i <= |auctions.listed|
        invariant current == auctions.list.NodeAt(i)
        invariant text == M.Listing(auctions.listed[..i])
        decreases |auctions.listed| - i
      {
        assert auctions.listed[..i + 1][..i] == auctions.listed[..i];
        var a := current.Data();
        assert auctions.listed[i] == a.Value();
        text := text + AuctionInfo(a);
        current := current.Next();
        i := i + 1;
      }
      assert auctions.listed[..i] == auctions.listed;
      WrMsg(fd, M.ANLIST, text);
    }

    function AuctionInfo(a: Auction): (line: string)
      reads a
      ensures line == M.Line(a.Value())
    {
      M.Dec(a.id) + ";" + a.name + ";" + M.Dec(a.binPrice) + ";" + M.Dec(a.numberOfWatchers) + ";"
      + M.Dec(a.bid) + ";" + M.Dec(a.duration) + "\n"
    }
  }
}
