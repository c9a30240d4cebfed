// What every step of the server keeps, and hence what holds in every reachable state.
module Invariants {
  import opened Wrappers
  import opened Seqs
  import opened AuctionModel

  // ---- accounts and sessions ----

  ghost predicate Sessions(users: seq<User>) {
    && (forall i, j :: 0 <= i < j < |users| ==> users[i].name != users[j].name)
    && (forall i, j :: 0 <= i < j < |users| ==> users[i].fd != users[j].fd)
    && (forall i :: 0 <= i < |users| ==> users[i].fd >= 0)
  }

  // Accounts are only ever added, and keep their place, name and password.
  ghost predicate AccountsPersist(us: seq<User>, vs: seq<User>) {
    && |us| <= |vs|
    && forall i :: 0 <= i < |us| ==> vs[i].name == us[i].name && vs[i].password == us[i].password
  }

  lemma HasUserPersists(us: seq<User>, vs: seq<User>, name: string)
    requires AccountsPersist(us, vs) && HasUser(us, name)
    ensures HasUser(vs, name)
  {
    assert vs[IndexOfName(us, name)].name == name;
  }

  lemma IndexOfNameIs(users: seq<User>, k: nat)
    requires Sessions(users) && k < |users|
    ensures IndexOfName(users, users[k].name) == k
    ensures IndexOfFd(users, users[k].fd) == k
  {
  }

  // What a close does to one account.
  function Settled(u: User, a: Auction): User {
    u.(balance := u.balance + (if a.creator == u.name then a.bid else 0)
                            - (if a.winner == Some(u.name) then a.bid else 0),
       won := u.won + if a.winner == Some(u.name) then [a.id] else [])
  }

  lemma DebitEffect(users: seq<User>, name: string, amount: int, id: int, j: nat)
    requires Sessions(users) && j < |users|
    ensures Sessions(Debit(users, name, amount, id)) && |Debit(users, name, amount, id)| == |users|
    ensures Debit(users, name, amount, id)[j] ==
      if users[j].name == name
      then users[j].(balance := users[j].balance - amount, won := users[j].won + [id]) else users[j]
  {
    IndexOfNameIs(users, j);
  }

  lemma CreditEffect(users: seq<User>, name: string, amount: int, j: nat)
    requires Sessions(users) && j < |users|
    ensures |Credit(users, name, amount)| == |users|
    ensures Credit(users, name, amount)[j] ==
      if users[j].name == name then users[j].(balance := users[j].balance + amount) else users[j]
  {
    IndexOfNameIs(users, j);
  }

  lemma SettleEffect(users: seq<User>, a: Auction)
    requires Sessions(users)
    ensures |Settle(users, a)| == |users|
    ensures forall j :: 0 <= j < |users| ==> Settle(users, a)[j] == Settled(users[j], a)
  {
    forall j | 0 <= j < |users| ensures Settle(users, a)[j] == Settled(users[j], a) {
      var us := users;
      if a.winner.Some? {
        DebitEffect(users, a.winner.value, a.bid, a.id, j);
        us := Debit(users, a.winner.value, a.bid, a.id);
      }
      CreditEffect(us, a.creator, a.bid, j);
      assert users[j].won + [] == users[j].won;
    }
  }

  lemma OneOwner(users: seq<User>, fd: int)
    requires Sessions(users) && KnownFd(users, fd)
    ensures LastNameOfFd(users, fd) == NameOfFd(users, fd)
  {
    LastNameIs(users, fd, IndexOfFd(users, fd));
  }

  lemma {:induction false} LastNameIs(users: seq<User>, fd: int, k: nat)
    requires k < |users| && users[k].fd == fd
    requires forall j :: k < j < |users| ==> users[j].fd != fd
    ensures LastNameOfFd(users, fd) == users[k].name
  {
    if k < |users| - 1 {
      LastNameIs(users[..|users| - 1], fd, k);
    }
  }

  lemma SettleKeepsSessions(users: seq<User>, a: Auction)
    requires Sessions(users)
    ensures Sessions(Settle(users, a)) && AccountsPersist(users, Settle(users, a))
  {
    SettleEffect(users, a);
  }

  lemma ResumeKeepsSessions(users: seq<User>, k: nat, fd: int)
    requires Sessions(users) && k < |users| && fd >= 0 && !KnownFd(users, fd)
    ensures var vs := users[k := users[k].(loggedIn := true, fd := fd)];
            Sessions(vs) && AccountsPersist(users, vs)
  {
  }

  lemma EnrollKeepsSessions(users: seq<User>, u: User)
    requires Sessions(users) && u.fd >= 0 && !KnownFd(users, u.fd) && !HasUser(users, u.name)
    ensures Sessions(users + [u]) && AccountsPersist(users, users + [u])
  {
  }

  lemma LoginKeepsSessions(s: State, fd: int, name: string, password: string)
    requires Sessions(s.users) && fd >= 0 && !KnownFd(s.users, fd)
    ensures Sessions(Login(s, fd, name, password).users)
    ensures AccountsPersist(s.users, Login(s, fd, name, password).users)
  {
    var k := IndexOfName(s.users, name);
    if k < |s.users| {
      ResumeKeepsSessions(s.users, k, fd);
    } else {
      EnrollKeepsSessions(s.users, User(name, password, true, 0, fd, [], []));
    }
  }

  lemma SameSessions(us: seq<User>, vs: seq<User>)
    requires Sessions(us) && |us| == |vs|
    requires forall i :: 0 <= i < |us| ==>
      vs[i].name == us[i].name && vs[i].password == us[i].password && vs[i].fd == us[i].fd
    ensures Sessions(vs) && AccountsPersist(us, vs)
  {
  }

  // Every step keeps names and descriptors pairwise distinct, and keeps the accounts.
  lemma StepKeepsSessions(s: State, e: Event)
    requires Sessions(s.users) && Enabled(s, e)
    ensures Sessions(Step(s, e).users)
    ensures AccountsPersist(s.users, Step(s, e).users)
  {
    match e {
      case LoginEv(fd, name, password) => LoginKeepsSessions(s, fd, name, password);
      case BidEv(_, _, _) => StepSettles(s, e);
      case TickEv => StepSettles(s, e);
      case _ => SameSessions(s.users, Step(s, e).users);
    }
  }

  lemma StepSettles(s: State, e: Event)
    requires Sessions(s.users) && Enabled(s, e) && (e.BidEv? || e.TickEv?)
    ensures Sessions(Step(s, e).users)
    ensures AccountsPersist(s.users, Step(s, e).users)
  {
    StepShape(s, e);
    if ClosesAt(s, e) < |s.listed| {
      SettleKeepsSessions(s.users, BeforeClose(s, e).listed[ClosesAt(s, e)]);
    }
  }

  // ---- the list of auctions and its ids ----

  predicate Listed(s: State, id: int) { IndexOfId(s.listed, id) < |s.listed| }

  predicate Closed(s: State, id: int) { IndexOfId(s.closed, id) < |s.closed| }

  predicate Recorded(s: State, id: int) { Listed(s, id) || Closed(s, id) }

  function Record(s: State, id: int): Auction
    requires Recorded(s, id)
  {
    if Listed(s, id) then s.listed[IndexOfId(s.listed, id)] else s.closed[IndexOfId(s.closed, id)]
  }

  // Ids rise along the list; 1..lastId is the disjoint union of listed and closed ids.
  ghost predicate Ids(s: State) {
    && s.lastId >= 0
    && Increasing(s.listed)
    && Unrepeated(s.closed)
    && (forall id :: Listed(s, id) ==> !Closed(s, id))
    && (forall id :: Recorded(s, id) <==> 1 <= id <= s.lastId)
  }

  ghost predicate Increasing(auctions: seq<Auction>) {
    forall i, j :: 0 <= i < j < |auctions| ==> auctions[i].id < auctions[j].id
  }

  ghost predicate Unrepeated(auctions: seq<Auction>) {
    forall i, j :: 0 <= i < j < |auctions| ==> auctions[i].id != auctions[j].id
  }

  lemma IndexOfIdIs(auctions: seq<Auction>, k: nat)
    requires k < |auctions|
    requires forall j :: 0 <= j < k ==> auctions[j].id != auctions[k].id
    ensures IndexOfId(auctions, auctions[k].id) == k
  {
  }

  lemma ListedAt(s: State, k: nat)
    requires Ids(s) && k < |s.listed|
    ensures IndexOfId(s.listed, s.listed[k].id) == k
    ensures Listed(s, s.listed[k].id) && Record(s, s.listed[k].id) == s.listed[k]
    ensures !Closed(s, s.listed[k].id) && 1 <= s.listed[k].id <= s.lastId
  {
    IndexOfIdIs(s.listed, k);
    assert Recorded(s, s.listed[k].id);
  }

  lemma ClosedAt(s: State, k: nat)
    requires Ids(s) && k < |s.closed|
    ensures IndexOfId(s.closed, s.closed[k].id) == k
    ensures Closed(s, s.closed[k].id) && Record(s, s.closed[k].id) == s.closed[k]
    ensures !Listed(s, s.closed[k].id) && 1 <= s.closed[k].id <= s.lastId
  {
    IndexOfIdIs(s.closed, k);
    assert Recorded(s, s.closed[k].id);
  }

  // The list rewritten in place: same ids at the same places, nothing closed.
  ghost predicate Rewritten(s: State, t: State) {
    && t.closed == s.closed && t.lastId == s.lastId
    && |t.listed| == |s.listed|
    && forall i :: 0 <= i < |s.listed| ==> t.listed[i].id == s.listed[i].id
  }

  lemma SameIndex(xs: seq<Auction>, ys: seq<Auction>, id: int)
    requires |xs| == |ys| && forall i :: 0 <= i < |xs| ==> xs[i].id == ys[i].id
    ensures IndexOfId(xs, id) == IndexOfId(ys, id)
  {
  }

  lemma RewrittenKeepsIds(s: State, t: State)
    requires Ids(s) && Rewritten(s, t)
    ensures Ids(t)
    ensures forall id :: Listed(t, id) == Listed(s, id) && Closed(t, id) == Closed(s, id)
    ensures forall id :: IndexOfId(t.listed, id) == IndexOfId(s.listed, id)
  {
    forall id ensures IndexOfId(t.listed, id) == IndexOfId(s.listed, id) {
      SameIndex(s.listed, t.listed, id);
    }
    forall id ensures Listed(t, id) == Listed(s, id) && Closed(t, id) == Closed(s, id)
      ensures Recorded(t, id) == Recorded(s, id) {
    }
    assert Increasing(t.listed);
  }

  // Closing the i-th auction moves its record, as it is, and touches no other.
  lemma CloseKeepsRecords(s: State, i: nat)
    requires Ids(s) && i < |s.listed|
    ensures Close(s, i).listed == RemoveAt(s.listed, i)
    ensures Ids(Close(s, i))
    ensures forall id :: Recorded(Close(s, i), id) == Recorded(s, id)
    ensures forall id :: Recorded(s, id) ==> Record(Close(s, i), id) == Record(s, id)
    ensures forall id :: Listed(Close(s, i), id) <==> Listed(s, id) && id != s.listed[i].id
  {
    var t := Close(s, i);
    var a := s.listed[i];
    ListedAt(s, i);
    assert t.listed == RemoveAt(s.listed, i);
    forall id
      ensures Listed(t, id) <==> Listed(s, id) && id != a.id
      ensures Listed(t, id) ==> !Closed(t, id)
      ensures Recorded(t, id) == Recorded(s, id)
      ensures Recorded(s, id) ==> Record(t, id) == Record(s, id)
    {
      CloseRecord(s, i, id);
    }
    CloseKeepsOrder(s, i);
  }

  lemma CloseKeepsOrder(s: State, i: nat)
    requires Ids(s) && i < |s.listed|
    ensures Increasing(RemoveAt(s.listed, i)) && Unrepeated(s.closed + [s.listed[i]])
  {
    ListedAt(s, i);
    forall j | 0 <= j < |s.closed| ensures s.closed[j].id != s.listed[i].id {
      ClosedAt(s, j);
    }
    var r := RemoveAt(s.listed, i);
    forall j, k | 0 <= j < k < |r| ensures r[j].id < r[k].id {
      var a, b := if j < i then j else j + 1, if k < i then k else k + 1;
      assert s.listed[a].id < s.listed[b].id;
    }
  }

  lemma CloseListed(s: State, i: nat, id: int)
    requires Ids(s) && i < |s.listed|
    ensures var t, a := Close(s, i), s.listed[i];
            && (Listed(t, id) <==> Listed(s, id) && id != a.id)
            && (Listed(t, id) ==> t.listed[IndexOfId(t.listed, id)] == s.listed[IndexOfId(s.listed, id)])
  {
    var t := Close(s, i);
    ListedAt(s, i);
    var k := IndexOfId(s.listed, id);
    if k < |s.listed| && k != i {
      var k' := if k < i then k else k - 1;
      assert t.listed[k'].id == id;
      assert forall j :: 0 <= j < |t.listed| ==> t.listed[j] == s.listed[if j < i then j else j + 1];
      IndexOfIdIs(t.listed, k');
    }
  }

  lemma CloseClosed(s: State, i: nat, id: int)
    requires Ids(s) && i < |s.listed|
    ensures var t, a := Close(s, i), s.listed[i];
            && (Closed(t, id) <==> Closed(s, id) || id == a.id)
            && (Closed(t, id) ==> t.closed[IndexOfId(t.closed, id)]
                                  == if Closed(s, id) then s.closed[IndexOfId(s.closed, id)] else a)
  {
    var t, a := Close(s, i), s.listed[i];
    var c := IndexOfId(s.closed, id);
    if c < |s.closed| {
      assert t.closed[c].id == id;
      IndexOfIdIs(t.closed, c);
    } else if id == a.id {
      assert t.closed[|s.closed|].id == id;
      IndexOfIdIs(t.closed, |s.closed|);
    }
  }

  lemma CloseRecord(s: State, i: nat, id: int)
    requires Ids(s) && i < |s.listed|
    ensures var t, a := Close(s, i), s.listed[i];
            && (Listed(t, id) <==> Listed(s, id) && id != a.id)
            && (Recorded(s, id) ==> Recorded(t, id) && Record(t, id) == Record(s, id))
            && Recorded(t, id) == Recorded(s, id)
            && (Listed(t, id) ==> !Closed(t, id))
  {
    CloseListed(s, i, id);
    CloseClosed(s, i, id);
    ListedAt(s, i);
  }

  lemma CreateRecord(s: State, fd: int, item: string, duration: int, price: int, junk: int, id: int)
    requires Ids(s) && !BadArguments(item, duration, price)
    ensures var t := Create(s, fd, item, duration, price, junk);
            && (Listed(t, id) <==> Listed(s, id) || id == t.lastId)
            && (Listed(s, id) ==> IndexOfId(t.listed, id) == IndexOfId(s.listed, id))
            && (Recorded(s, id) ==> Recorded(t, id) && Record(t, id) == Record(s, id))
            && IndexOfId(t.listed, t.lastId) == |s.listed|
  {
    var t := Create(s, fd, item, duration, price, junk);
    var n := |s.listed|;
    forall k | 0 <= k < n ensures s.listed[k].id != t.lastId {
      ListedAt(s, k);
    }
    assert t.listed[n].id == t.lastId;
    IndexOfIdIs(t.listed, n);
    var k := IndexOfId(s.listed, id);
    if k < n {
      assert t.listed[k].id == id;
      IndexOfIdIs(t.listed, k);
    } else if id != t.lastId {
      assert forall j :: 0 <= j <= n ==> t.listed[j].id != id;
    }
  }

  lemma CreateKeepsRecords(s: State, fd: int, item: string, duration: int, price: int, junk: int)
    requires Ids(s) && !BadArguments(item, duration, price)
    ensures var t := Create(s, fd, item, duration, price, junk);
            && Ids(t)
            && (forall id :: Recorded(s, id) ==> Recorded(t, id) && Record(t, id) == Record(s, id))
            && (forall id :: Listed(t, id) <==> Listed(s, id) || id == t.lastId)
            && Record(t, t.lastId) == t.listed[|s.listed|]
            && IndexOfId(t.listed, t.lastId) == |s.listed|
  {
    var t := Create(s, fd, item, duration, price, junk);
    forall id
      ensures Listed(t, id) <==> Listed(s, id) || id == t.lastId
      ensures Closed(t, id) <==> Closed(s, id)
      ensures Recorded(s, id) ==> Recorded(t, id) && Record(t, id) == Record(s, id)
    {
      CreateRecord(s, fd, item, duration, price, junk, id);
    }
    forall k | 0 <= k < |s.listed| ensures 1 <= s.listed[k].id <= s.lastId {
      ListedAt(s, k);
    }
    CreateRecord(s, fd, item, duration, price, junk, t.lastId);
    assert !Recorded(s, t.lastId);
  }

  // The list as a step leaves it just before it closes anything: the bid put in
  // place, or the tick counted down.
  function BeforeClose(s: State, e: Event): State
    requires Enabled(s, e)
  {
    match e
    case WatchEv(_, _) => Step(s, e)
    case LeaveEv(_, _) => Step(s, e)
    case BidEv(fd, id, amount) =>
      if Raises(s, e) then
        var i := IndexOfId(s.listed, id);
        s.(listed := s.listed[i := s.listed[i].(bid := amount, winner := Some(NameOfFd(s.users, fd)))])
      else s
    case TickEv =>
      var k := Expiring(s.listed);
      s.(listed := CountDown(s.listed, if k < |s.listed| then k + 1 else k))
    case _ => s
  }

  // A bid the rules admit: on a listed auction, by a watching user who did not create it.
  predicate Eligible(s: State, e: Event)
    requires Enabled(s, e)
  {
    && e.BidEv? && Listed(s, e.id)
    && var a := Record(s, e.id);
       a.creator != NameOfFd(s.users, e.fd) && NameOfFd(s.users, e.fd) in a.watchers
  }

  predicate BuysNow(s: State, e: Event)
    requires Enabled(s, e)
  {
    Eligible(s, e) && Record(s, e.id).binFlag && e.amount > Record(s, e.id).binPrice
  }

  // The handler puts this bid on the auction.
  predicate Raises(s: State, e: Event)
    requires Enabled(s, e)
  {
    BuysNow(s, e) || (Eligible(s, e) && e.amount > Record(s, e.id).bid)
  }

  // The index a step closes, or |listed| when it closes nothing.
  function ClosesAt(s: State, e: Event): nat
    requires Enabled(s, e)
    ensures ClosesAt(s, e) <= |s.listed|
  {
    match e
    case BidEv(_, id, _) => if BuysNow(s, e) then IndexOfId(s.listed, id) else |s.listed|
    case TickEv => Expiring(s.listed)
    case _ => |s.listed|
  }

  predicate Creates(s: State, e: Event) {
    e.CreateEv? && !BadArguments(e.item, e.duration, e.price)
  }

  // Every step creates an auction, or rewrites the list and then closes at most one.
  lemma StepShape(s: State, e: Event)
    requires Enabled(s, e)
    ensures Rewritten(s, BeforeClose(s, e))
    ensures Creates(s, e) ==> Step(s, e).lastId == s.lastId + 1
    ensures !Creates(s, e) && ClosesAt(s, e) < |s.listed| ==>
      && Step(s, e) == Close(BeforeClose(s, e), ClosesAt(s, e))
      && BeforeClose(s, e).users == s.users
    ensures !Creates(s, e) && ClosesAt(s, e) == |s.listed| ==>
      && Step(s, e).listed == BeforeClose(s, e).listed
      && Step(s, e).closed == s.closed && Step(s, e).lastId == s.lastId
  {
    match e {
      case WatchEv(_, _) =>
      case LeaveEv(_, _) =>
      case BidEv(_, _, _) => BidShape(s, e);
      case _ =>
    }
  }

  lemma BidShape(s: State, e: Event)
    requires Enabled(s, e) && e.BidEv?
    ensures Rewritten(s, BeforeClose(s, e))
    ensures BuysNow(s, e) ==> Step(s, e) == Close(BeforeClose(s, e), ClosesAt(s, e)) && BeforeClose(s, e).users == s.users
    ensures !BuysNow(s, e) ==>
      && Step(s, e).listed == BeforeClose(s, e).listed
      && Step(s, e).closed == s.closed && Step(s, e).lastId == s.lastId
  {
    if Listed(s, e.id) {
      assert Eligible(s, e) <==>
        s.listed[IndexOfId(s.listed, e.id)].creator != NameOfFd(s.users, e.fd)
        && NameOfFd(s.users, e.fd) in s.listed[IndexOfId(s.listed, e.id)].watchers;
    }
  }

  lemma StepKeepsIds(s: State, e: Event)
    requires Ids(s) && Enabled(s, e)
    ensures Ids(Step(s, e))
  {
    StepShape(s, e);
    RewrittenKeepsIds(s, BeforeClose(s, e));
    if Creates(s, e) {
      CreateKeepsRecords(s, e.fd, e.item, e.duration, e.price, e.junk);
    } else if ClosesAt(s, e) < |s.listed| {
      CloseKeepsRecords(BeforeClose(s, e), ClosesAt(s, e));
    } else {
      RewrittenKeepsIds(s, Step(s, e));
    }
  }

  // How one step changes the record of an auction: as the list is rewritten.
  lemma StepRecord(s: State, e: Event, id: int)
    requires Ids(s) && Enabled(s, e) && Recorded(s, id)
    ensures Recorded(Step(s, e), id)
    ensures Recorded(BeforeClose(s, e), id)
    ensures Record(Step(s, e), id) == Record(BeforeClose(s, e), id)
    ensures Closed(s, id) ==> Closed(Step(s, e), id) && Record(Step(s, e), id) == Record(s, id)
    ensures Listed(Step(s, e), id) <==>
      Listed(s, id) && !(!Creates(s, e) && ClosesAt(s, e) < |s.listed| && id == s.listed[ClosesAt(s, e)].id)
  {
    StepShape(s, e);
    RewrittenKeepsIds(s, BeforeClose(s, e));
    if Creates(s, e) {
      CreateKeepsRecords(s, e.fd, e.item, e.duration, e.price, e.junk);
    } else if ClosesAt(s, e) < |s.listed| {
      CloseKeepsRecords(BeforeClose(s, e), ClosesAt(s, e));
    } else {
      RewrittenKeepsIds(s, Step(s, e));
    }
    StepKeepsIds(s, e);
  }

  // The record of an auction after one step, read off its record before.
  function Touched(s: State, e: Event, id: int): Auction
    requires Enabled(s, e) && Recorded(s, id)
  {
    var a := Record(s, id);
    if !Listed(s, id) then a
    else match e
      case WatchEv(fd, id') =>
        if id' == id then
          a.(watchers := a.watchers + [NameOfFd(s.users, fd)], numberOfWatchers := a.numberOfWatchers + 1)
        else a
      case LeaveEv(fd, id') =>
        if id' == id then
          a.(watchers := RemoveAt(a.watchers, IndexOfWatcher(a.watchers, NameOfFd(s.users, fd))),
             numberOfWatchers := a.numberOfWatchers - 1)
        else a
      case BidEv(fd, id', amount) =>
        if id' == id && Raises(s, e) then a.(bid := amount, winner := Some(NameOfFd(s.users, fd))) else a
      case TickEv =>
        if IndexOfId(s.listed, id) <= Expiring(s.listed) then a.(duration := a.duration - 1) else a
      case _ => a
  }

  lemma OtherPlace(s: State, id: int, id': int)
    requires Listed(s, id)
    ensures Listed(s, id') && id' != id ==> IndexOfId(s.listed, id') != IndexOfId(s.listed, id)
  {
  }

  lemma WatchTouches(s: State, e: Event, id: int)
    requires Enabled(s, e) && Listed(s, id) && (e.WatchEv? || e.LeaveEv?)
    ensures |BeforeClose(s, e).listed| == |s.listed|
    ensures BeforeClose(s, e).listed[IndexOfId(s.listed, id)] == Touched(s, e, id)
  {
    OtherPlace(s, id, e.id);
  }

  lemma BidTouches(s: State, e: Event, id: int)
    requires Enabled(s, e) && Listed(s, id) && e.BidEv?
    ensures |BeforeClose(s, e).listed| == |s.listed|
    ensures BeforeClose(s, e).listed[IndexOfId(s.listed, id)] == Touched(s, e, id)
  {
    OtherPlace(s, id, e.id);
  }

  lemma BeforeCloseTouched(s: State, e: Event, id: int)
    requires Ids(s) && Enabled(s, e) && Recorded(s, id)
    ensures Recorded(BeforeClose(s, e), id) && Record(BeforeClose(s, e), id) == Touched(s, e, id)
  {
    StepShape(s, e);
    RewrittenKeepsIds(s, BeforeClose(s, e));
    if Listed(s, id) {
      assert Record(BeforeClose(s, e), id) == BeforeClose(s, e).listed[IndexOfId(s.listed, id)];
      if e.WatchEv? || e.LeaveEv? {
        WatchTouches(s, e, id);
      } else if e.BidEv? {
        BidTouches(s, e, id);
      }
    }
  }

  // A record survives every step, changed only as `Touched` says.
  lemma StepTouches(s: State, e: Event, id: int)
    requires Ids(s) && Enabled(s, e) && Recorded(s, id)
    ensures Recorded(Step(s, e), id) && Record(Step(s, e), id) == Touched(s, e, id)
    ensures Closed(s, id) ==> Closed(Step(s, e), id) && !Listed(Step(s, e), id)
  {
    StepRecord(s, e, id);
    BeforeCloseTouched(s, e, id);
  }

  // The only record a step adds is the one of the auction it creates.
  lemma StepCreates(s: State, e: Event, id: int)
    requires Sessions(s.users) && Ids(s) && Enabled(s, e)
    requires !Recorded(s, id) && Recorded(Step(s, e), id)
    ensures Creates(s, e) && id == s.lastId + 1
    ensures Listed(Step(s, e), id) && IndexOfId(Step(s, e).listed, id) == |s.listed|
    ensures KnownFd(s.users, e.fd)
    ensures Record(Step(s, e), id) == Auction(
      id, e.item, e.duration, e.price, e.price != 0, 0, None, NameOfFd(s.users, e.fd), [], e.junk)
  {
    StepKeepsIds(s, e);
    StepShape(s, e);
    assert 1 <= id <= Step(s, e).lastId && !(1 <= id <= s.lastId);
    CreateKeepsRecords(s, e.fd, e.item, e.duration, e.price, e.junk);
    OneOwner(s.users, e.fd);
  }
}
