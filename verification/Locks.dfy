// The locking protocol of the server's threads, interleaved step by step: any number
// of threads run the code paths of src/finalsample.c and src/helpers.c over the
// mutexes. Nobody deadlocks, and the money of a close is never lost in between its
// two separate sections.
module Locks {
  import opened Wrappers
  import opened Seqs
  import opened AuctionModel
  import opened Accounts

  datatype Mutex = BufferLock | AuctionsMutex | UsersMutex | AuctionIdMutex

  // Locks are only ever taken in rising rank.
  function Rank(m: Mutex): nat {
    match m
    case BufferLock => 0
    case AuctionsMutex => 1
    case UsersMutex => 2
    case AuctionIdMutex => 3
  }

  datatype Instr =
    | P(m: Mutex)
    | V(m: Mutex)
    | DoLogin(fd: int, name: string, password: string)
    | DoLogout(fd: int)
    | DoDebit(name: string, amount: int, id: int)
    | DoCredit(name: string, amount: int)
    | Use(m: Mutex)                            // looks at or changes other data that a mutex guards
    | Local                                    // anything else

  datatype Code = Done | Do(instr: Instr, next: Code)

  // ---- the code paths ----

  function CreditCode(a: Auction, next: Code): Code {
    Do(P(UsersMutex), Do(DoCredit(a.creator, a.bid), Do(V(UsersMutex), Do(Use(AuctionsMutex), next))))
  }

  // closeAuction: winner and creator are settled in two separate sections.
  function CloseCode(a: Auction, next: Code): Code {
    if a.winner.Some? then
      Do(P(UsersMutex), Do(DoDebit(a.winner.value, a.bid, a.id), Do(V(UsersMutex), CreditCode(a, next))))
    else CreditCode(a, next)
  }

  // A section under m that touches what m, or d, guards.
  function Guarded(m: Mutex, d: Mutex, next: Code): Code {
    Do(P(m), Do(Use(d), Do(V(m), next)))
  }

  datatype Path =
    | LoginPath(fd: int, name: string, password: string)
    | ReceivePath                              // a client thread reading a message
    | UsersQueryPath                           // USRLIST, USRWINS, USRSALES, USRBLNC
    | AuctionsPath                             // ANLIST, ANWATCH, ANLEAVE, refused ANCREATE and ANBID
    | CreatePath
    | RaisePath                                // a bid that updates its watchers
    | BuyPath(a: Auction)                      // a bid that closes the auction
    | TickPath(closes: Option<Auction>)        // a tick, closing at most one auction
    | LogoutPath(fd: int)                      // takes no mutex
    | IgnoredPath

  function CodeOf(path: Path): Code {
    match path
    case LoginPath(fd, name, password) =>
      Guarded(BufferLock, BufferLock, Do(P(UsersMutex), Do(DoLogin(fd, name, password), Do(V(UsersMutex), Done))))
    case ReceivePath => Guarded(BufferLock, BufferLock, Done)
    case UsersQueryPath => Guarded(UsersMutex, UsersMutex, Done)
    case AuctionsPath => Guarded(AuctionsMutex, AuctionsMutex, Done)
    case CreatePath => NestedIds(AuctionIdMutex)
    case RaisePath => NestedIds(AuctionsMutex)
    case BuyPath(a) =>
      Do(P(AuctionsMutex), Do(Use(AuctionsMutex), CloseCode(a, Do(Use(AuctionsMutex), Do(V(AuctionsMutex), Done)))))
    case TickPath(Some(a)) => Do(Local, Do(P(AuctionsMutex), CloseCode(a, Do(Use(AuctionsMutex), Do(V(AuctionsMutex), Done)))))
    case TickPath(None) => Do(Local, Done)
    case LogoutPath(fd) => Do(DoLogout(fd), Done)
    case IgnoredPath => Do(Local, Done)
  }

  // createAuction takes its id, and bidAuction calls updateAuction, under auctionIdMutex
  // inside auctionsMutex.
  function NestedIds(d: Mutex): Code {
    Do(P(AuctionsMutex),
       Do(Use(AuctionsMutex), Guarded(AuctionIdMutex, d, Do(Use(AuctionsMutex), Do(V(AuctionsMutex), Done)))))
  }

  // The auction a path closes, if any.
  function ClosesOf(path: Path): Option<Auction> {
    match path
    case BuyPath(a) => Some(a)
    case TickPath(closes) => closes
    case _ => None
  }

  // What the handlers guarantee of an auction they close.
  predicate Closable(users: seq<User>, a: Auction) {
    && HasUser(users, a.creator)
    && (a.winner.Some? ==> HasUser(users, a.winner.value))
    && (a.winner.None? ==> a.bid == 0)
  }

  predicate MayBegin(users: seq<User>, path: Path) {
    ClosesOf(path).Some? ==> Closable(users, ClosesOf(path).value)
  }

  // ---- threads and steps ----

  datatype Thread = Thread(code: Code, held: set<Mutex>, work: Path)     // `work` is what the code came from

  datatype System = System(
    sems: map<Mutex, int>, threads: seq<Thread>, users: seq<User>,
    closes: seq<Auction>)                      // every close begun, oldest first

  const INIT := System(map[BufferLock := 1, AuctionsMutex := 1, UsersMutex := 1, AuctionIdMutex := 1], [], [], [])

  datatype Action =
    | Spawn
    | Begin(i: nat, path: Path)                // an idle thread takes up a piece of work
    | Exec(i: nat)                             // a thread executes its next instruction

  predicate Can(s: System, act: Action) {
    match act
    case Spawn => true
    case Begin(i, path) => i < |s.threads| && s.threads[i].code.Done? && MayBegin(s.users, path)
    case Exec(i) => i < |s.threads| && s.threads[i].code.Do? && Ready(s, s.threads[i].code.instr)
  }

  predicate Ready(s: System, instr: Instr) {
    instr.P? || instr.V? ==> instr.m in s.sems && (instr.P? ==> s.sems[instr.m] > 0)
  }

  function Next(s: System, act: Action): System
    requires Can(s, act)
  {
    match act
    case Spawn => s.(threads := s.threads + [Thread(Done, {}, IgnoredPath)])
    case Begin(i, path) =>
      s.(threads := s.threads[i := Thread(CodeOf(path), s.threads[i].held, path)],
         closes := s.closes + if ClosesOf(path).Some? then [ClosesOf(path).value] else [])
    case Exec(i) =>
      var t := s.threads[i];
      s.(sems := SemsAfter(s.sems, t.code.instr),
         users := UsersAfter(s.users, t.code.instr),
         threads := s.threads[i := Thread(t.code.next, HeldAfter(t.held, t.code.instr), t.work)])
  }

  function SemsAfter(sems: map<Mutex, int>, instr: Instr): map<Mutex, int>
    requires instr.P? || instr.V? ==> instr.m in sems
  {
    match instr
    case P(m) => sems[m := sems[m] - 1]
    case V(m) => sems[m := sems[m] + 1]
    case _ => sems
  }

  function HeldAfter(held: set<Mutex>, instr: Instr): set<Mutex> {
    match instr
    case P(m) => held + {m}
    case V(m) => held - {m}
    case _ => held
  }

  function UsersAfter(users: seq<User>, instr: Instr): seq<User> {
    match instr
    case DoLogin(fd, name, password) => Login(EMPTY.(users := users), fd, name, password).users
    case DoLogout(fd) => Logout(EMPTY.(users := users), fd).users
    case DoDebit(name, amount, id) => Debit(users, name, amount, id)
    case DoCredit(name, amount) => Credit(users, name, amount)
    case _ => users
  }

  // ---- the lock discipline ----

  // Credits still to come, less debits still to come.
  function Pending(code: Code): int {
    match code
    case Done => 0
    case Do(DoDebit(_, amount, _), next) => Pending(next) - amount
    case Do(DoCredit(_, amount), next) => Pending(next) + amount
    case Do(_, next) => Pending(next)
  }

  predicate Allowed(instr: Instr, held: set<Mutex>) {
    match instr
    case P(m) => forall h :: h in held ==> Rank(h) < Rank(m)
    case V(m) => m in held
    case Local => true
    case Use(m) => m in held
    case DoLogout(_) => true                   // one flag, unguarded
    case _ => UsersMutex in held               // balances and accounts
  }

  // Code that takes locks in rising rank, releases what it holds, and is in the middle
  // of a transfer only under auctionsMutex.
  predicate Disciplined(code: Code, held: set<Mutex>) {
    && (AuctionsMutex !in held ==> Pending(code) == 0)
    && match code
       case Done => held == {}
       case Do(instr, next) => Allowed(instr, held) && Disciplined(next, HeldAfter(held, instr))
  }

  lemma GuardedDisciplined(m: Mutex, d: Mutex, next: Code, held: set<Mutex>)
    requires forall h :: h in held ==> Rank(h) < Rank(m)
    requires Disciplined(next, held) && d in held + {m}
    ensures Disciplined(Guarded(m, d, next), held)
  {
    var inside := held + {m};
    assert Pending(Guarded(m, d, next)) == Pending(Do(Use(d), Do(V(m), next))) == Pending(Do(V(m), next)) == Pending(next);
    assert HeldAfter(inside, V(m)) == held;
    assert Disciplined(Do(V(m), next), inside);
    assert Disciplined(Do(Use(d), Do(V(m), next)), inside);
  }

  lemma UnderUsers(instr: Instr, next: Code, held: set<Mutex>)
    requires instr.DoLogin? || instr.DoDebit? || instr.DoCredit?
    requires held <= {AuctionsMutex} && Disciplined(next, held)
    requires AuctionsMutex in held || Pending(Do(instr, next)) == 0
    ensures Disciplined(Do(P(UsersMutex), Do(instr, Do(V(UsersMutex), next))), held)
  {
    var inside := held + {UsersMutex};
    assert HeldAfter(inside, V(UsersMutex)) == held;
    assert Disciplined(Do(V(UsersMutex), next), inside);
    assert Disciplined(Do(instr, Do(V(UsersMutex), next)), inside);
  }

  lemma CloseDisciplined(a: Auction, next: Code)
    requires Disciplined(next, {AuctionsMutex})
    ensures Disciplined(CloseCode(a, next), {AuctionsMutex})
    ensures Pending(CloseCode(a, next)) == Pending(next) + if a.winner.Some? then 0 else a.bid
  {
    UnderUsers(DoCredit(a.creator, a.bid), Do(Use(AuctionsMutex), next), {AuctionsMutex});
    assert Pending(Do(V(UsersMutex), Do(Use(AuctionsMutex), next))) == Pending(next);
    assert Pending(CreditCode(a, next)) == Pending(next) + a.bid;
    if a.winner.Some? {
      UnderUsers(DoDebit(a.winner.value, a.bid, a.id), CreditCode(a, next), {AuctionsMutex});
      assert Pending(Do(V(UsersMutex), CreditCode(a, next))) == Pending(next) + a.bid;
    }
  }

  // Every code path of the server keeps the discipline.
  lemma PathsDisciplined(users: seq<User>, path: Path)
    requires MayBegin(users, path)
    ensures Disciplined(CodeOf(path), {})
  {
    var end := Do(Use(AuctionsMutex), Do(V(AuctionsMutex), Done));
    assert HeldAfter({AuctionsMutex}, V(AuctionsMutex)) == {};
    assert Disciplined(Do(V(AuctionsMutex), Done), {AuctionsMutex});
    assert Disciplined(end, {AuctionsMutex});
    assert HeldAfter({}, P(AuctionsMutex)) == {AuctionsMutex};
    match path {
      case LoginPath(fd, name, password) =>
        UnderUsers(DoLogin(fd, name, password), Done, {});
        GuardedDisciplined(BufferLock, BufferLock, CodeOf(path).next.next.next, {});
      case ReceivePath => GuardedDisciplined(BufferLock, BufferLock, Done, {});
      case UsersQueryPath => GuardedDisciplined(UsersMutex, UsersMutex, Done, {});
      case AuctionsPath => GuardedDisciplined(AuctionsMutex, AuctionsMutex, Done, {});
      case CreatePath => NestedDisciplined(AuctionIdMutex);
      case RaisePath => NestedDisciplined(AuctionsMutex);
      case BuyPath(a) =>
        CloseDisciplined(a, end);
        assert Disciplined(Do(Use(AuctionsMutex), CloseCode(a, end)), {AuctionsMutex});
      case TickPath(Some(a)) =>
        CloseDisciplined(a, end);
        assert Disciplined(Do(P(AuctionsMutex), CloseCode(a, end)), {});
      case _ =>
    }
  }

  lemma NestedDisciplined(d: Mutex)
    requires d == AuctionsMutex || d == AuctionIdMutex
    ensures Disciplined(NestedIds(d), {})
  {
    var end := Do(Use(AuctionsMutex), Do(V(AuctionsMutex), Done));
    assert HeldAfter({AuctionsMutex}, V(AuctionsMutex)) == {};
    assert Disciplined(Do(V(AuctionsMutex), Done), {AuctionsMutex});
    assert Disciplined(end, {AuctionsMutex});
    GuardedDisciplined(AuctionIdMutex, d, end, {AuctionsMutex});
    assert HeldAfter({}, P(AuctionsMutex)) == {AuctionsMutex};
    assert Disciplined(Do(Use(AuctionsMutex), Guarded(AuctionIdMutex, d, end)), {AuctionsMutex});
  }

  // ---- the invariant ----

  function Holds(m: Mutex): Thread -> int {
    (t: Thread) => if m in t.held then 1 else 0
  }

  function InFlight(t: Thread): int { Pending(t.code) }

  // What the rest of the code still owes a user.
  function DueIn(code: Code, name: string): int {
    match code
    case Done => 0
    case Do(DoDebit(n, amount, _), next) => DueIn(next, name) - if n == name then amount else 0
    case Do(DoCredit(n, amount), next) => DueIn(next, name) + if n == name then amount else 0
    case Do(_, next) => DueIn(next, name)
  }

  function Due(name: string): Thread -> int {
    (t: Thread) => DueIn(t.code, name)
  }

  // Every account the code will debit or credit exists.
  predicate NamesKnown(code: Code, users: seq<User>) {
    match code
    case Done => true
    case Do(DoDebit(n, _, _), next) => HasUser(users, n) && NamesKnown(next, users)
    case Do(DoCredit(n, _), next) => HasUser(users, n) && NamesKnown(next, users)
    case Do(_, next) => NamesKnown(next, users)
  }

  ghost predicate Semaphores(s: System) {
    forall m: Mutex :: m in s.sems && s.sems[m] >= 0 && s.sems[m] == 1 - Total(s.threads, Holds(m))
  }

  ghost predicate Threads(s: System) {
    forall i :: 0 <= i < |s.threads| ==>
      Disciplined(s.threads[i].code, s.threads[i].held) && NamesKnown(s.threads[i].code, s.users)
  }

  ghost predicate NamesDistinct(users: seq<User>) {
    forall i, j :: 0 <= i < j < |users| ==> users[i].name != users[j].name
  }

  ghost predicate Balanced(s: System) {
    && Money(s.users) + Total(s.threads, InFlight) == 0
    && forall j :: 0 <= j < |s.users| ==>
         s.users[j].balance + Total(s.threads, Due(s.users[j].name)) == Ledger(s.closes, s.users[j].name)
  }

  // Users named in a close exist; nobody else has business with it.
  ghost predicate ClosesKnown(s: System) {
    forall k :: 0 <= k < |s.closes| ==> Closable(s.users, s.closes[k])
  }

  ghost predicate Inv(s: System) {
    Semaphores(s) && Threads(s) && NamesDistinct(s.users) && Balanced(s) && ClosesKnown(s)
  }
}
