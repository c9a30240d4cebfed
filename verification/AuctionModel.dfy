// The server state and its request handlers as values and functions: src/helpers.c
// with the tick of src/finalsample.c. The heap version in Server.dfy is proved
// equal to this one; the theorems about whole runs are proved here.
module AuctionModel {
  import opened Wrappers
  import opened Seqs
  import Numerals

  datatype User = User(
    name: string, password: string, loggedIn: bool, balance: int, fd: int,
    owned: seq<int>, won: seq<int>)          // auction ids, oldest first

  datatype Auction = Auction(
    id: int, name: string, duration: int, binPrice: int, binFlag: bool,
    bid: int, winner: Option<string>, creator: string,
    watchers: seq<string>, numberOfWatchers: int)

  datatype Kind =
    | OK | EUSRLGDIN | EWRNGPWD | ANCREATE | ANCLOSED | ANLIST | ANWATCH
    | ANUPDATE | EANNOTFOUND | EANDENIED | EBIDLOW | EINVALIDARG

  datatype Msg = Msg(fd: int, kind: Kind, text: string)

  // `closed` holds the auctions taken off the list, in closing order (the C code
  // never frees them: owners and winners keep pointing at them).
  datatype State = State(
    users: seq<User>, listed: seq<Auction>, closed: seq<Auction>,
    lastId: int, log: seq<Msg>)

  const EMPTY := State([], [], [], 0, [])

  function Dec(v: int): string { Numerals.Signed(v, 10) }

  // ---- lookups ----

  function IndexOfFd(users: seq<User>, fd: int): (k: nat)
    ensures k <= |users|
    ensures forall j :: 0 <= j < k ==> users[j].fd != fd
    ensures k < |users| ==> users[k].fd == fd
  {
    FirstIndex(users, (u: User) => u.fd == fd)
  }

  function IndexOfName(users: seq<User>, name: string): (k: nat)
    ensures k <= |users|
    ensures forall j :: 0 <= j < k ==> users[j].name != name
    ensures k < |users| ==> users[k].name == name
  {
    FirstIndex(users, (u: User) => u.name == name)
  }

  function IndexOfId(auctions: seq<Auction>, id: int): (k: nat)
    ensures k <= |auctions|
    ensures forall j :: 0 <= j < k ==> auctions[j].id != id
    ensures k < |auctions| ==> auctions[k].id == id
  {
    FirstIndex(auctions, (a: Auction) => a.id == id)
  }

  function IndexOfWatcher(watchers: seq<string>, name: string): (k: nat)
    ensures k <= |watchers|
    ensures forall j :: 0 <= j < k ==> watchers[j] != name
    ensures k < |watchers| ==> watchers[k] == name
  {
    FirstIndex(watchers, (w: string) => w == name)
  }

  predicate KnownFd(users: seq<User>, fd: int) { IndexOfFd(users, fd) < |users| }

  predicate HasUser(users: seq<User>, name: string) { IndexOfName(users, name) < |users| }

  // findUsername, for a descriptor that belongs to a user.
  function NameOfFd(users: seq<User>, fd: int): string
    requires KnownFd(users, fd)
  {
    users[IndexOfFd(users, fd)].name
  }

  // findClientFd
  function FdOfName(users: seq<User>, name: string): int {
    var k := IndexOfName(users, name);
    if k < |users| then users[k].fd else -1
  }

  // ---- messages ----

  function Reply(s: State, fd: int, kind: Kind): State {
    s.(log := s.log + [Msg(fd, kind, "")])
  }

  // One message per watcher entry, in watcher order.
  function Broadcast(users: seq<User>, watchers: seq<string>, kind: Kind, text: string): seq<Msg> {
    if |watchers| == 0 then []
    else
      Broadcast(users, watchers[..|watchers| - 1], kind, text)
      + [Msg(FdOfName(users, watchers[|watchers| - 1]), kind, text)]
  }

  // The same, skipping watchers without a descriptor.
  function BroadcastToKnown(users: seq<User>, watchers: seq<string>, kind: Kind, text: string): seq<Msg> {
    if |watchers| == 0 then []
    else
      var fd := FdOfName(users, watchers[|watchers| - 1]);
      BroadcastToKnown(users, watchers[..|watchers| - 1], kind, text)
      + if fd != -1 then [Msg(fd, kind, text)] else []
  }

  // What a log holds after sending to one more watcher.
  lemma NextWatcher(log: seq<Msg>, users: seq<User>, watchers: seq<string>, i: nat, kind: Kind, text: string)
    requires i < |watchers|
    ensures log + Broadcast(users, watchers[..i + 1], kind, text)
            == log + Broadcast(users, watchers[..i], kind, text) + [Msg(FdOfName(users, watchers[i]), kind, text)]
    ensures log + BroadcastToKnown(users, watchers[..i + 1], kind, text)
            == log + BroadcastToKnown(users, watchers[..i], kind, text)
               + var fd := FdOfName(users, watchers[i]); if fd != -1 then [Msg(fd, kind, text)] else []
  {
    assert watchers[..i + 1][..i] == watchers[..i];
  }

  function ClosedText(a: Auction): string {
    Dec(a.id) + "\r\n" + if a.winner.None? then "\r\n\r\n" else a.winner.value + "\r\n" + Dec(a.bid)
  }

  function UpdateText(a: Auction, bidder: string): string {
    Dec(a.id) + "\r\n" + a.name + "\r\n" + bidder + "\r\n" + Dec(a.bid)
  }

  // ---- login and logout ----

  function Login(s: State, fd: int, name: string, password: string): State {
    var k := IndexOfName(s.users, name);
    if k < |s.users| then
      var u := s.users[k];
      if u.loggedIn then Reply(s, fd, EUSRLGDIN)
      else if u.password == password then
        Reply(s.(users := s.users[k := u.(loggedIn := true, fd := fd)]), fd, OK)
      else Reply(s, fd, EWRNGPWD)
    else
      Reply(s.(users := s.users + [User(name, password, true, 0, fd, [], [])]), fd, OK)
  }

  function Logout(s: State, fd: int): State {
    var k := IndexOfFd(s.users, fd);
    if k < |s.users| then
      Reply(s.(users := s.users[k := s.users[k].(loggedIn := false)]), fd, OK)
    else s
  }

  // ---- creating, watching, leaving ----

  predicate BadArguments(item: string, duration: int, price: int) {
    item == "" || duration < 1 || price < 0
  }

  // Every user on the descriptor is recorded as owner; the last one is the creator.
  function MarkOwned(users: seq<User>, fd: int, id: int): (vs: seq<User>)
    ensures |vs| == |users|
    ensures forall j :: 0 <= j < |vs| ==>
      vs[j] == if users[j].fd == fd then users[j].(owned := users[j].owned + [id]) else users[j]
  {
    if |users| == 0 then []
    else
      var u := users[|users| - 1];
      MarkOwned(users[..|users| - 1], fd, id) + [if u.fd == fd then u.(owned := u.owned + [id]) else u]
  }

  function LastNameOfFd(users: seq<User>, fd: int): string {
    if |users| == 0 then ""
    else if users[|users| - 1].fd == fd then users[|users| - 1].name
    else LastNameOfFd(users[..|users| - 1], fd)
  }

  // `junk` is the uninitialised numberOfWatchers of a freshly allocated auction.
  function Create(s: State, fd: int, item: string, duration: int, price: int, junk: int): State {
    if BadArguments(item, duration, price) then Reply(s, fd, EINVALIDARG)
    else
      var id := s.lastId + 1;
      var a := Auction(id, item, duration, price, price != 0, 0, None, LastNameOfFd(s.users, fd), [], junk);
      State(MarkOwned(s.users, fd, id), s.listed + [a], s.closed, id, s.log + [Msg(fd, ANCREATE, Dec(id))])
  }

  function Watch(s: State, fd: int, id: int): State
    requires IndexOfId(s.listed, id) < |s.listed| ==> KnownFd(s.users, fd)
  {
    var i := IndexOfId(s.listed, id);
    if i < |s.listed| then
      var a := s.listed[i];
      s.(listed := s.listed[i := a.(watchers := a.watchers + [NameOfFd(s.users, fd)],
                                    numberOfWatchers := a.numberOfWatchers + 1)],
         log := s.log + [Msg(fd, ANWATCH, a.name + "\r\n" + Dec(a.binPrice))])
    else Reply(s, fd, EANNOTFOUND)
  }

  // The caller must be watching: the original has no meaning for an absent entry.
  predicate CanLeave(s: State, fd: int, id: int) {
    && KnownFd(s.users, fd)
    && var i := IndexOfId(s.listed, id);
       i < |s.listed| ==> NameOfFd(s.users, fd) in s.listed[i].watchers
  }

  function Leave(s: State, fd: int, id: int): State
    requires CanLeave(s, fd, id)
  {
    var i := IndexOfId(s.listed, id);
    if i < |s.listed| then
      var a := s.listed[i];
      var k := IndexOfWatcher(a.watchers, NameOfFd(s.users, fd));
      Reply(s.(listed := s.listed[i := a.(watchers := RemoveAt(a.watchers, k),
                                          numberOfWatchers := a.numberOfWatchers - 1)]), fd, OK)
    else Reply(s, fd, EANNOTFOUND)
  }

  // ---- closing ----

  function Debit(users: seq<User>, name: string, amount: int, id: int): seq<User> {
    var k := IndexOfName(users, name);
    if k < |users| then
      users[k := users[k].(balance := users[k].balance - amount, won := users[k].won + [id])]
    else users
  }

  function Credit(users: seq<User>, name: string, amount: int): seq<User> {
    var k := IndexOfName(users, name);
    if k < |users| then users[k := users[k].(balance := users[k].balance + amount)] else users
  }

  // The two money sections of closeAuction, one after the other.
  function Settle(users: seq<User>, a: Auction): seq<User> {
    Credit(if a.winner.Some? then Debit(users, a.winner.value, a.bid, a.id) else users, a.creator, a.bid)
  }

  // closeAuction on the i-th listed auction, then the removal of the first auction with its id.
  function Close(s: State, i: nat): State
    requires i < |s.listed|
  {
    var a := s.listed[i];
    var users := Settle(s.users, a);
    State(users, RemoveAt(s.listed, IndexOfId(s.listed, a.id)), s.closed + [a], s.lastId,
          s.log + Broadcast(users, a.watchers, ANCLOSED, ClosedText(a)))
  }

  // ---- bidding ----

  function Bid(s: State, fd: int, id: int, amount: int): State
    requires KnownFd(s.users, fd)
  {
    var name := NameOfFd(s.users, fd);
    var i := IndexOfId(s.listed, id);
    if |s.listed| == 0 then Reply(s, fd, EANNOTFOUND)
    else if i == |s.listed| then s                          // no reply at all
    else
      var a := s.listed[i];
      var b := a.(bid := amount, winner := Some(name));
      if a.creator == name || name !in a.watchers then Reply(s, fd, EANDENIED)
      else if a.binFlag && amount > a.binPrice then Close(s.(listed := s.listed[i := b]), i)
      else if amount > a.bid then
        s.(listed := s.listed[i := b],
           log := s.log + BroadcastToKnown(s.users, a.watchers, ANUPDATE, UpdateText(b, name)) + [Msg(fd, OK, "")])
      else Reply(s, fd, EBIDLOW)
  }

  // ---- the tick ----

  function CountDown(auctions: seq<Auction>, k: nat): (r: seq<Auction>)
    requires k <= |auctions|
    ensures |r| == |auctions|
    ensures forall j :: 0 <= j < |r| ==>
      r[j] == if j < k then auctions[j].(duration := auctions[j].duration - 1) else auctions[j]
  {
    seq(|auctions|, j requires 0 <= j < |auctions| =>
      if j < k then auctions[j].(duration := auctions[j].duration - 1) else auctions[j])
  }

  // The first auction whose countdown reaches zero on this tick.
  function Expiring(auctions: seq<Auction>): (k: nat)
    ensures k <= |auctions|
    ensures forall j :: 0 <= j < k ==> auctions[j].duration != 1
    ensures k < |auctions| ==> auctions[k].duration == 1
  {
    FirstIndex(auctions, (a: Auction) => a.duration == 1)
  }

  // The scan counts down until it has closed one auction, and stops there.
  function Tick(s: State): State {
    var k := Expiring(s.listed);
    if k < |s.listed| then Close(s.(listed := CountDown(s.listed, k + 1)), k)
    else s.(listed := CountDown(s.listed, k))
  }

  // ---- listing ----

  function Line(a: Auction): string {
    Dec(a.id) + ";" + a.name + ";" + Dec(a.binPrice) + ";" + Dec(a.numberOfWatchers) + ";"
    + Dec(a.bid) + ";" + Dec(a.duration) + "\n"
  }

  function Listing(auctions: seq<Auction>): string {
    if |auctions| == 0 then "" else Listing(auctions[..|auctions| - 1]) + Line(auctions[|auctions| - 1])
  }

  function ListAll(s: State, fd: int): State {
    s.(log := s.log + [Msg(fd, ANLIST, Listing(s.listed))])
  }

  // ---- runs ----

  datatype Event =
    | LoginEv(fd: int, name: string, password: string)
    | LogoutEv(fd: int)
    | CreateEv(fd: int, item: string, duration: int, price: int, junk: int)
    | WatchEv(fd: int, id: int)
    | LeaveEv(fd: int, id: int)
    | BidEv(fd: int, id: int, amount: int)
    | ListEv(fd: int)
    | TickEv

  predicate OneLine(s: string) { '\r' !in s && '\n' !in s }

  // What the dispatcher and accept guarantee before a handler runs: a login comes
  // on a descriptor no account holds; item names are strtok tokens.
  predicate Enabled(s: State, e: Event) {
    match e
    case LoginEv(fd, _, _) => fd >= 0 && !KnownFd(s.users, fd)
    case CreateEv(fd, item, duration, price, _) =>
      OneLine(item) && (BadArguments(item, duration, price) || KnownFd(s.users, fd))
    case WatchEv(fd, id) => IndexOfId(s.listed, id) < |s.listed| ==> KnownFd(s.users, fd)
    case LeaveEv(fd, id) => CanLeave(s, fd, id)
    case BidEv(fd, _, _) => KnownFd(s.users, fd)
    case _ => true
  }

  function Step(s: State, e: Event): State
    requires Enabled(s, e)
  {
    match e
    case LoginEv(fd, name, password) => Login(s, fd, name, password)
    case LogoutEv(fd) => Logout(s, fd)
    case CreateEv(fd, item, duration, price, junk) => Create(s, fd, item, duration, price, junk)
    case WatchEv(fd, id) => Watch(s, fd, id)
    case LeaveEv(fd, id) => Leave(s, fd, id)
    case BidEv(fd, id, amount) => Bid(s, fd, id, amount)
    case ListEv(fd) => ListAll(s, fd)
    case TickEv => Tick(s)
  }

  // A run from the empty server, newest event outermost.
  datatype Run = Start | Then(before: Run, event: Event)

  predicate Legal(r: Run)
    decreases r, 0
  {
    match r
    case Start => true
    case Then(p, e) => Legal(p) && Enabled(After(p), e)
  }

  function After(r: Run): State
    requires Legal(r)
    decreases r, 1
  {
    match r
    case Start => EMPTY
    case Then(p, e) => Step(After(p), e)
  }
}
