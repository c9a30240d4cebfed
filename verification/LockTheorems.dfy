// What every interleaving of the threads keeps, and that they can always finish.
module LockTheorems {
  import opened Wrappers
  import opened Seqs
  import opened AuctionModel
  import opened Invariants
  import opened AuctionRules
  import opened Accounts
  import opened Locks

  // ---- semaphores ----

  lemma HoldsMoves(ts: seq<Thread>, i: nat, t: Thread, m: Mutex)
    requires i < |ts|
    ensures Total(ts[i := t], Holds(m)) == Total(ts, Holds(m)) - Holds(m)(ts[i]) + Holds(m)(t)
    ensures 0 <= Holds(m)(ts[i]) <= Total(ts, Holds(m))
  {
    TotalUpdate(ts, i, t, Holds(m));
    TotalBound(ts, Holds(m));
  }

  lemma ExecKeepsSemaphores(s: System, i: nat)
    requires Inv(s) && Can(s, Exec(i))
    ensures Semaphores(Next(s, Exec(i)))
  {
    var t := s.threads[i];
    var t' := Next(s, Exec(i)).threads[i];
    assert Disciplined(t.code, t.held);
    forall m: Mutex
      ensures m in Next(s, Exec(i)).sems
      ensures Next(s, Exec(i)).sems[m] == 1 - Total(Next(s, Exec(i)).threads, Holds(m)) >= 0
    {
      HoldsMoves(s.threads, i, t', m);
    }
  }

  // ---- threads ----

  lemma {:induction false} NamesKnownPersist(code: Code, us: seq<User>, vs: seq<User>)
    requires NamesKnown(code, us)
    requires forall name :: HasUser(us, name) ==> HasUser(vs, name)
    ensures NamesKnown(code, vs)
  {
    if code.Do? {
      NamesKnownPersist(code.next, us, vs);
    }
  }

  lemma CloseNamesKnown(users: seq<User>, path: Path)
    requires MayBegin(users, path)
    ensures NamesKnown(CodeOf(path), users)
  {
    var end := Do(Use(AuctionsMutex), Do(V(AuctionsMutex), Done));
    assert NamesKnown(end, users);
    if ClosesOf(path).Some? {
      var a := ClosesOf(path).value;
      assert NamesKnown(Do(V(UsersMutex), Do(Use(AuctionsMutex), end)), users);
      assert NamesKnown(CreditCode(a, end), users);
      assert NamesKnown(CloseCode(a, end), users);
    } else {
      assert NamesKnown(Do(V(AuctionIdMutex), end), users);
      forall d ensures NamesKnown(NestedIds(d), users) {
        assert NamesKnown(Guarded(AuctionIdMutex, d, end), users);
        assert NamesKnown(Do(Use(AuctionsMutex), Guarded(AuctionIdMutex, d, end)), users);
      }
      forall m ensures NamesKnown(Guarded(m, m, Done), users) {
        assert NamesKnown(Do(V(m), Done), users);
      }
      if path.LoginPath? {
        var login := CodeOf(path).next.next.next;
        assert NamesKnown(login.next.next, users);
        assert NamesKnown(Do(V(BufferLock), login), users);
      }
    }
  }

  // An instruction leaves the accounts it does not concern alone.
  lemma InstrUsers(users: seq<User>, instr: Instr)
    ensures var vs := UsersAfter(users, instr);
            && |users| <= |vs|
            && (forall j :: 0 <= j < |users| ==> vs[j].name == users[j].name)
            && (|vs| > |users| ==> instr.DoLogin? && !HasUser(users, instr.name)
                                   && vs == users + [User(instr.name, instr.password, true, 0, instr.fd, [], [])])
  {
  }

  lemma InstrKeepsUsers(users: seq<User>, instr: Instr)
    ensures forall name :: HasUser(users, name) ==> HasUser(UsersAfter(users, instr), name)
    ensures NamesDistinct(users) ==> NamesDistinct(UsersAfter(users, instr))
  {
    var vs := UsersAfter(users, instr);
    InstrUsers(users, instr);
    forall name | HasUser(users, name) ensures HasUser(vs, name) {
      assert vs[IndexOfName(users, name)].name == name;
    }
  }

  lemma ExecKeepsThreads(s: System, i: nat)
    requires Inv(s) && Can(s, Exec(i))
    ensures Threads(Next(s, Exec(i)))
  {
    var t := Next(s, Exec(i));
    InstrKeepsUsers(s.users, s.threads[i].code.instr);
    forall k | 0 <= k < |t.threads|
      ensures Disciplined(t.threads[k].code, t.threads[k].held) && NamesKnown(t.threads[k].code, t.users)
    {
      assert Disciplined(s.threads[k].code, s.threads[k].held) && NamesKnown(s.threads[k].code, s.users);
      NamesKnownPersist(t.threads[k].code, s.users, t.users);
    }
  }

  // ---- money ----

  // What an instruction adds to an account, and to all of them together.
  function Effect(instr: Instr, name: string): int {
    match instr
    case DoDebit(n, amount, _) => if n == name then -amount else 0
    case DoCredit(n, amount) => if n == name then amount else 0
    case _ => 0
  }

  lemma InstrBalance(users: seq<User>, instr: Instr, j: nat)
    requires NamesDistinct(users) && j < |users|
    ensures |users| <= |UsersAfter(users, instr)|
    ensures UsersAfter(users, instr)[j].balance == users[j].balance + Effect(instr, users[j].name)
  {
    assert IndexOfName(users, users[j].name) == j;
  }

  lemma InstrMoney(users: seq<User>, instr: Instr)
    requires instr.DoDebit? || instr.DoCredit? ==> HasUser(users, instr.name)
    ensures Money(UsersAfter(users, instr)) == Money(users)
      + (if instr.DoCredit? then instr.amount else if instr.DoDebit? then -instr.amount else 0)
  {
    match instr {
      case DoDebit(n, amount, id) => DebitMoney(users, n, amount, id);
      case DoCredit(n, amount) => CreditMoney(users, n, amount);
      case DoLogout(_) => TotalSame(users, UsersAfter(users, instr), Balance);
      case DoLogin(fd, name, password) =>
        var vs := UsersAfter(users, instr);
        if HasUser(users, name) {
          TotalSame(users, vs, Balance);
        } else {
          TotalAppend(users, User(name, password, true, 0, fd, [], []), Balance);
        }
      case _ =>
    }
  }

  lemma {:induction false} NothingDue(ts: seq<Thread>, users: seq<User>, name: string)
    requires forall i :: 0 <= i < |ts| ==> NamesKnown(ts[i].code, users)
    requires !HasUser(users, name)
    ensures Total(ts, Due(name)) == 0
  {
    if |ts| > 0 {
      NothingDue(ts[..|ts| - 1], users, name);
      CodeOwesNothing(ts[|ts| - 1].code, users, name);
    }
  }

  lemma {:induction false} CodeOwesNothing(code: Code, users: seq<User>, name: string)
    requires NamesKnown(code, users) && !HasUser(users, name)
    ensures DueIn(code, name) == 0
  {
    if code.Do? {
      CodeOwesNothing(code.next, users, name);
    }
  }

  lemma {:induction false} NoLedger(closes: seq<Auction>, users: seq<User>, name: string)
    requires forall k :: 0 <= k < |closes| ==> Closable(users, closes[k])
    requires !HasUser(users, name)
    ensures Ledger(closes, name) == 0
  {
    if |closes| > 0 {
      assert Closable(users, closes[|closes| - 1]);
      NoLedger(closes[..|closes| - 1], users, name);
    }
  }

  lemma ExecKeepsMoney(s: System, i: nat)
    requires Inv(s) && Can(s, Exec(i))
    ensures Money(Next(s, Exec(i)).users) + Total(Next(s, Exec(i)).threads, InFlight) == 0
  {
    var t := s.threads[i];
    assert NamesKnown(t.code, s.users);
    InstrMoney(s.users, t.code.instr);
    TotalUpdate(s.threads, i, Next(s, Exec(i)).threads[i], InFlight);
  }

  lemma ExecKeepsLedger(s: System, i: nat, j: nat)
    requires Inv(s) && Can(s, Exec(i)) && j < |Next(s, Exec(i)).users|
    ensures var t := Next(s, Exec(i));
            t.users[j].balance + Total(t.threads, Due(t.users[j].name)) == Ledger(t.closes, t.users[j].name)
  {
    var t := Next(s, Exec(i));
    var code := s.threads[i].code;
    var name := t.users[j].name;
    TotalUpdate(s.threads, i, t.threads[i], Due(name));
    InstrUsers(s.users, code.instr);
    assert DueIn(code, name) == DueIn(code.next, name) + Effect(code.instr, name);
    if j < |s.users| {
      InstrBalance(s.users, code.instr, j);
    } else {
      assert forall k :: 0 <= k < |s.threads| ==> NamesKnown(s.threads[k].code, s.users);
      NothingDue(s.threads, s.users, name);
      NoLedger(s.closes, s.users, name);
    }
  }

  lemma ExecKeepsInv(s: System, i: nat)
    requires Inv(s) && Can(s, Exec(i))
    ensures Inv(Next(s, Exec(i)))
  {
    var t := Next(s, Exec(i));
    ExecKeepsSemaphores(s, i);
    ExecKeepsThreads(s, i);
    ExecKeepsMoney(s, i);
    InstrKeepsUsers(s.users, s.threads[i].code.instr);
    forall j | 0 <= j < |t.users|
      ensures t.users[j].balance + Total(t.threads, Due(t.users[j].name)) == Ledger(t.closes, t.users[j].name)
    {
      ExecKeepsLedger(s, i, j);
    }
    forall k | 0 <= k < |t.closes| ensures Closable(t.users, t.closes[k]) {
      assert Closable(s.users, s.closes[k]);
    }
  }

  // ---- taking up work ----

  lemma PathPending(users: seq<User>, path: Path)
    requires MayBegin(users, path)
    ensures Pending(CodeOf(path)) == 0
  {
    PathsDisciplined(users, path);
  }

  lemma PathDue(path: Path, name: string)
    ensures DueIn(CodeOf(path), name) ==
      if ClosesOf(path).None? then 0
      else var a := ClosesOf(path).value;
           (if a.creator == name then a.bid else 0) - (if a.winner == Some(name) then a.bid else 0)
  {
    var end := Do(Use(AuctionsMutex), Do(V(AuctionsMutex), Done));
    assert DueIn(Do(V(AuctionsMutex), Done), name) == 0;
    assert DueIn(end, name) == 0;
    if ClosesOf(path).Some? {
      var a := ClosesOf(path).value;
      assert DueIn(Do(V(UsersMutex), Do(Use(AuctionsMutex), end)), name) == 0;
      assert DueIn(CreditCode(a, end), name) == if a.creator == name then a.bid else 0;
      assert DueIn(Do(V(UsersMutex), CreditCode(a, end)), name) == DueIn(CreditCode(a, end), name);
      assert DueIn(CloseCode(a, end), name) ==
        (if a.creator == name then a.bid else 0) - (if a.winner == Some(name) then a.bid else 0);
    } else {
      assert DueIn(Do(V(AuctionIdMutex), end), name) == 0;
      forall d ensures DueIn(NestedIds(d), name) == 0 {
        assert DueIn(Do(Use(d), Do(V(AuctionIdMutex), end)), name) == 0;
        assert DueIn(Guarded(AuctionIdMutex, d, end), name) == 0;
        assert DueIn(Do(Use(AuctionsMutex), Guarded(AuctionIdMutex, d, end)), name) == 0;
      }
      forall m ensures DueIn(Guarded(m, m, Done), name) == 0 {
        assert DueIn(Do(V(m), Done), name) == 0;
      }
      if path.LoginPath? {
        var login := CodeOf(path).next.next.next;
        assert DueIn(login.next.next, name) == 0;
        assert DueIn(login, name) == 0;
        assert DueIn(Do(V(BufferLock), login), name) == 0;
      }
    }
  }

  lemma BeginKeepsBalanced(s: System, i: nat, path: Path)
    requires Inv(s) && Can(s, Begin(i, path))
    ensures Balanced(Next(s, Begin(i, path)))
  {
    var t := Next(s, Begin(i, path));
    PathPending(s.users, path);
    TotalUpdate(s.threads, i, t.threads[i], InFlight);
    forall j | 0 <= j < |t.users|
      ensures t.users[j].balance + Total(t.threads, Due(t.users[j].name)) == Ledger(t.closes, t.users[j].name)
    {
      var name := t.users[j].name;
      TotalUpdate(s.threads, i, t.threads[i], Due(name));
      PathDue(path, name);
      if ClosesOf(path).Some? {
        assert t.closes[..|s.closes|] == s.closes;
      } else {
        assert t.closes == s.closes;
      }
    }
  }

  lemma BeginKeepsInv(s: System, i: nat, path: Path)
    requires Inv(s) && Can(s, Begin(i, path))
    ensures Inv(Next(s, Begin(i, path)))
  {
    var t := Next(s, Begin(i, path));
    assert Disciplined(s.threads[i].code, s.threads[i].held);
    PathsDisciplined(s.users, path);
    CloseNamesKnown(s.users, path);
    BeginKeepsBalanced(s, i, path);
    forall m: Mutex ensures Total(t.threads, Holds(m)) == Total(s.threads, Holds(m)) {
      HoldsMoves(s.threads, i, t.threads[i], m);
    }
  }

  lemma SpawnKeepsInv(s: System)
    requires Inv(s)
    ensures Inv(Next(s, Spawn))
  {
    var idle := Thread(Done, {}, IgnoredPath);
    forall m: Mutex ensures Total(s.threads + [idle], Holds(m)) == Total(s.threads, Holds(m)) {
      TotalAppend(s.threads, idle, Holds(m));
    }
    TotalAppend(s.threads, idle, InFlight);
    forall name ensures Total(s.threads + [idle], Due(name)) == Total(s.threads, Due(name)) {
      TotalAppend(s.threads, idle, Due(name));
    }
  }

  // ---- runs ----

  datatype Schedule = Begun | Then(before: Schedule, action: Action)

  predicate Legal(r: Schedule)
    decreases r, 0
  {
    match r
    case Begun => true
    case Then(p, a) => Legal(p) && Can(After(p), a)
  }

  function After(r: Schedule): System
    requires Legal(r)
    decreases r, 1
  {
    match r
    case Begun => INIT
    case Then(p, a) => Next(After(p), a)
  }

  lemma {:induction false} Reachable(r: Schedule)
    requires Legal(r)
    ensures Inv(After(r))
  {
    match r
    case Begun =>
      forall m: Mutex ensures m in INIT.sems && INIT.sems[m] == 1 {
        match m case BufferLock => case AuctionsMutex => case UsersMutex => case AuctionIdMutex =>
      }
    case Then(p, a) =>
      Reachable(p);
      match a {
        case Spawn => SpawnKeepsInv(After(p));
        case Begin(i, path) => BeginKeepsInv(After(p), i, path);
        case Exec(i) => ExecKeepsInv(After(p), i);
      }
  }

  // ---- the theorems ----

  // Mutual exclusion: no two threads ever hold the same mutex.
  lemma OneHolder(r: Schedule, m: Mutex, i: nat, j: nat)
    requires Legal(r) && i < j < |After(r).threads|
    ensures !(m in After(r).threads[i].held && m in After(r).threads[j].held)
  {
    Reachable(r);
    var s := After(r);
    TotalPair(s.threads, Holds(m), i, j);
    assert s.sems[m] >= 0;
  }

  // The mutex under which an instruction may be executed.
  function GuardOf(instr: Instr): Option<Mutex> {
    match instr
    case Use(m) => Some(m)
    case DoLogin(_, _, _) => Some(UsersMutex)
    case DoDebit(_, _, _) => Some(UsersMutex)
    case DoCredit(_, _) => Some(UsersMutex)
    case _ => None
  }

  // No two threads are ever about to touch data of the same guard.
  lemma RaceFree(r: Schedule, i: nat, j: nat)
    requires Legal(r) && i < j < |After(r).threads|
    requires After(r).threads[i].code.Do? && After(r).threads[j].code.Do?
    requires GuardOf(After(r).threads[i].code.instr).Some?
    ensures GuardOf(After(r).threads[i].code.instr) != GuardOf(After(r).threads[j].code.instr)
  {
    Reachable(r);
    var s := After(r);
    assert Disciplined(s.threads[i].code, s.threads[i].held) && Disciplined(s.threads[j].code, s.threads[j].held);
    OneHolder(r, GuardOf(s.threads[i].code.instr).value, i, j);
  }

  // A code path without its locks: what it does, in order.
  function Accesses(code: Code): seq<Instr> {
    match code
    case Done => []
    case Do(P(_), next) => Accesses(next)
    case Do(V(_), next) => Accesses(next)
    case Do(instr, next) => [instr] + Accesses(next)
  }

  // Of the accesses modelled here, only the scan of a tick and a logout have no mutex.
  lemma PathAccesses(path: Path)
    ensures var auctions, buffer := Use(AuctionsMutex), Use(BufferLock);
            Accesses(CodeOf(path)) == match path
              case LoginPath(fd, name, password) => [buffer, DoLogin(fd, name, password)]
              case ReceivePath => [buffer]
              case UsersQueryPath => [Use(UsersMutex)]
              case AuctionsPath => [auctions]
              case CreatePath => [auctions, Use(AuctionIdMutex), auctions]
              case RaisePath => [auctions, auctions, auctions]
              case BuyPath(a) => [auctions] + Payments(a) + [auctions, auctions]
              case TickPath(Some(a)) => [Local] + Payments(a) + [auctions, auctions]
              case LogoutPath(fd) => [DoLogout(fd)]
              case _ => [Local]
  {
    var end := Do(Use(AuctionsMutex), Do(V(AuctionsMutex), Done));
    assert Accesses(Do(V(AuctionsMutex), Done)) == [];
    assert Accesses(end) == [Use(AuctionsMutex)];
    match path {
      case LoginPath(fd, name, password) =>
        assert Accesses(Do(V(UsersMutex), Done)) == [];
        var login := Do(P(UsersMutex), Do(DoLogin(fd, name, password), Do(V(UsersMutex), Done)));
        assert Accesses(login) == [DoLogin(fd, name, password)];
        GuardedAccesses(BufferLock, BufferLock, login);
      case ReceivePath => GuardedAccesses(BufferLock, BufferLock, Done);
      case UsersQueryPath => GuardedAccesses(UsersMutex, UsersMutex, Done);
      case AuctionsPath => GuardedAccesses(AuctionsMutex, AuctionsMutex, Done);
      case CreatePath => NestedAccesses(AuctionIdMutex);
      case RaisePath => NestedAccesses(AuctionsMutex);
      case BuyPath(a) =>
        CloseAccesses(a, end);
        assert Accesses(Do(Use(AuctionsMutex), CloseCode(a, end))) == [Use(AuctionsMutex)] + Accesses(CloseCode(a, end));
      case TickPath(Some(a)) =>
        CloseAccesses(a, end);
        assert Accesses(Do(P(AuctionsMutex), CloseCode(a, end))) == Accesses(CloseCode(a, end));
      case _ =>
    }
  }

  function Payments(a: Auction): seq<Instr> {
    (if a.winner.Some? then [DoDebit(a.winner.value, a.bid, a.id)] else []) + [DoCredit(a.creator, a.bid)]
  }

  lemma GuardedAccesses(m: Mutex, d: Mutex, next: Code)
    ensures Accesses(Guarded(m, d, next)) == [Use(d)] + Accesses(next)
  {
    assert Accesses(Do(V(m), next)) == Accesses(next);
    assert Accesses(Do(Use(d), Do(V(m), next))) == [Use(d)] + Accesses(next);
  }

  lemma NestedAccesses(d: Mutex)
    ensures Accesses(NestedIds(d)) == [Use(AuctionsMutex), Use(d), Use(AuctionsMutex)]
  {
    var end := Do(Use(AuctionsMutex), Do(V(AuctionsMutex), Done));
    assert Accesses(Do(V(AuctionsMutex), Done)) == [];
    assert Accesses(end) == [Use(AuctionsMutex)];
    GuardedAccesses(AuctionIdMutex, d, end);
    assert Accesses(Do(Use(AuctionsMutex), Guarded(AuctionIdMutex, d, end)))
        == [Use(AuctionsMutex)] + Accesses(Guarded(AuctionIdMutex, d, end));
  }

  lemma CloseAccesses(a: Auction, next: Code)
    ensures Accesses(CloseCode(a, next)) == Payments(a) + [Use(AuctionsMutex)] + Accesses(next)
  {
    var after := Do(Use(AuctionsMutex), next);
    assert Accesses(after) == [Use(AuctionsMutex)] + Accesses(next);
    assert Accesses(Do(V(UsersMutex), after)) == Accesses(after);
    var credit := Do(DoCredit(a.creator, a.bid), Do(V(UsersMutex), after));
    assert Accesses(credit) == [DoCredit(a.creator, a.bid)] + Accesses(after);
    assert Accesses(CreditCode(a, next)) == Accesses(credit);
    if a.winner.Some? {
      var debit := Do(DoDebit(a.winner.value, a.bid, a.id), Do(V(UsersMutex), CreditCode(a, next)));
      assert Accesses(Do(V(UsersMutex), CreditCode(a, next))) == Accesses(credit);
      assert Accesses(debit) == [DoDebit(a.winner.value, a.bid, a.id)] + Accesses(credit);
    }
  }

  // Money under every interleaving: all balances together are short of zero by what the
  // one close in progress has debited and not yet credited.
  lemma MoneyInFlight(r: Schedule)
    requires Legal(r)
    ensures Money(After(r).users) + Total(After(r).threads, InFlight) == 0
    ensures forall i, j :: 0 <= i < j < |After(r).threads| ==>
      InFlight(After(r).threads[i]) == 0 || InFlight(After(r).threads[j]) == 0
  {
    Reachable(r);
    var s := After(r);
    forall i, j | 0 <= i < j < |s.threads|
      ensures InFlight(s.threads[i]) == 0 || InFlight(s.threads[j]) == 0
    {
      OneHolder(r, AuctionsMutex, i, j);
      assert Disciplined(s.threads[i].code, s.threads[i].held);
      assert Disciplined(s.threads[j].code, s.threads[j].held);
    }
  }

  // Whenever auctionsMutex is free nothing is in flight.
  lemma MoneyWhenFree(r: Schedule)
    requires Legal(r) && AuctionsMutex in After(r).sems && After(r).sems[AuctionsMutex] == 1
    ensures Money(After(r).users) == 0
  {
    Reachable(r);
    var s := After(r);
    TotalBound(s.threads, Holds(AuctionsMutex));
    forall i | 0 <= i < |s.threads| ensures InFlight(s.threads[i]) == 0 {
      assert Holds(AuctionsMutex)(s.threads[i]) == 0;
      assert Disciplined(s.threads[i].code, s.threads[i].held);
    }
    TotalZero(s.threads, InFlight);
  }

  ghost predicate Quiet(s: System) {
    forall i :: 0 <= i < |s.threads| ==> s.threads[i].code.Done?
  }

  // When every thread is idle, each balance is exactly what the closes so far amount to,
  // in whatever way they were interleaved.
  lemma QuietLedger(r: Schedule, j: nat)
    requires Legal(r) && Quiet(After(r)) && j < |After(r).users|
    ensures After(r).users[j].balance == Ledger(After(r).closes, After(r).users[j].name)
  {
    Reachable(r);
    TotalZero(After(r).threads, Due(After(r).users[j].name));
  }

  // Thread i waits for a mutex that thread j holds.
  predicate WaitsFor(s: System, i: nat, j: nat) {
    && i < |s.threads| && j < |s.threads| && s.threads[i].code.Do? && s.threads[i].code.instr.P?
    && var m := s.threads[i].code.instr.m;
       m in s.sems && s.sems[m] == 0 && m in s.threads[j].held
  }

  function WaitRank(s: System, i: nat): nat {
    if i < |s.threads| && s.threads[i].code.Do? && s.threads[i].code.instr.P? then Rank(s.threads[i].code.instr.m) else 0
  }

  // Each thread waits for the next, and each for a mutex of higher rank.
  predicate WaitChain(s: System, chain: seq<nat>) {
    |chain| > 1 ==>
      && WaitsFor(s, chain[0], chain[1])
      && (|chain| > 2 ==> WaitRank(s, chain[0]) < WaitRank(s, chain[1]))
      && WaitChain(s, chain[1..])
  }

  // No circular wait: while a thread has work left, the chain of those it waits for climbs
  // the lock order and ends at one that can go on.
  lemma SomebodyMoves(s: System, i: nat) returns (chain: seq<nat>)
    requires Inv(s) && i < |s.threads| && s.threads[i].code.Do?
    ensures |chain| > 0 && chain[0] == i && WaitChain(s, chain)
    ensures Can(s, Exec(chain[|chain| - 1]))
    decreases if s.threads[i].code.instr.P? then 4 - Rank(s.threads[i].code.instr.m) else 0
  {
    var t := s.threads[i];
    assert Disciplined(t.code, t.held);
    if t.code.instr.P? && s.sems[t.code.instr.m] == 0 {
      var m := t.code.instr.m;
      var h := TotalWitness(s.threads, Holds(m));        // a thread that holds what t waits for
      assert Disciplined(s.threads[h].code, s.threads[h].held);
      var rest := SomebodyMoves(s, h);
      chain := [i] + rest;
      assert chain[1..] == rest && WaitsFor(s, i, h);
    } else {
      chain := [i];
    }
  }

  lemma NoDeadlock(r: Schedule)
    requires Legal(r)
    ensures Quiet(After(r)) <==> forall k :: !Can(After(r), Exec(k))
  {
    Reachable(r);
    if !Quiet(After(r)) {
      var i :| 0 <= i < |After(r).threads| && !After(r).threads[i].code.Done?;
      var chain := SomebodyMoves(After(r), i);
    }
  }

  function Length(code: Code): nat {
    match code
    case Done => 0
    case Do(_, next) => 1 + Length(next)
  }

  function WorkLeft(t: Thread): int { Length(t.code) }

  // From every reachable state the threads can finish all the work they have begun.
  lemma {:induction false} CanFinish(r: Schedule) returns (q: Schedule)
    requires Legal(r)
    ensures Legal(q) && Finishes(r, q) && Quiet(After(q))
    decreases Total(After(r).threads, WorkLeft)
  {
    q := r;
    if !Quiet(After(r)) {
      Reachable(r);
      var s := After(r);
      var i :| 0 <= i < |s.threads| && !s.threads[i].code.Done?;
      var chain := SomebodyMoves(s, i);
      var k := chain[|chain| - 1];
      TotalUpdate(s.threads, k, Next(s, Exec(k)).threads[k], WorkLeft);
      TotalBound(s.threads, WorkLeft);
      TotalBound(Next(s, Exec(k)).threads, WorkLeft);
      q := CanFinish(Schedule.Then(r, Exec(k)));
      FinishesTrans(r, k, q);
    }
  }

  // q continues r by instructions of the threads only: no new work is taken up.
  predicate Finishes(r: Schedule, q: Schedule) {
    r == q || (q.Then? && q.action.Exec? && Finishes(r, q.before))
  }

  lemma {:induction false} FinishesTrans(r: Schedule, k: nat, q: Schedule)
    requires Finishes(Schedule.Then(r, Exec(k)), q)
    ensures Finishes(r, q)
  {
    if q != Schedule.Then(r, Exec(k)) {
      FinishesTrans(r, k, q.before);
    }
  }

  // The instructions executed since.
  function Executed(r: Schedule, q: Schedule): nat
    requires Finishes(r, q)
  {
    if r == q then 0 else 1 + Executed(r, q.before)
  }

  // However the threads are scheduled, they finish: without new work there are exactly as
  // many instructions to come as the threads have left, and until all are executed some
  // thread can go on.
  lemma {:induction false} AlwaysFinishes(r: Schedule, q: Schedule)
    requires Legal(r) && Legal(q) && Finishes(r, q)
    ensures Executed(r, q) + Total(After(q).threads, WorkLeft) == Total(After(r).threads, WorkLeft)
    ensures Executed(r, q) == Total(After(r).threads, WorkLeft) <==> forall k :: !Can(After(q), Exec(k))
  {
    NoDeadlock(q);
    NoWorkLeft(After(q));
    if r != q {
      AlwaysFinishes(r, q.before);
      var s, k := After(q.before), q.action.i;
      TotalUpdate(s.threads, k, After(q).threads[k], WorkLeft);
    }
  }

  lemma NoWorkLeft(s: System)
    ensures Total(s.threads, WorkLeft) >= 0
    ensures Quiet(s) <==> Total(s.threads, WorkLeft) == 0
  {
    TotalBound(s.threads, WorkLeft);
    if Quiet(s) {
      TotalZero(s.threads, WorkLeft);
    } else {
      var i :| 0 <= i < |s.threads| && !s.threads[i].code.Done?;
      assert WorkLeft(s.threads[i]) > 0;
    }
  }

  // ---- the atomic model ----

  // The effect of a code path on the accounts when nothing comes in between.
  function Uninterrupted(users: seq<User>, code: Code): seq<User>
    decreases code
  {
    match code
    case Done => users
    case Do(instr, next) => Uninterrupted(UsersAfter(users, instr), next)
  }

  lemma UninterruptedCredit(users: seq<User>, a: Auction)
    ensures Uninterrupted(users, CreditCode(a, Do(Use(AuctionsMutex), Do(V(AuctionsMutex), Done))))
         == Credit(users, a.creator, a.bid)
  {
    var end := Do(Use(AuctionsMutex), Do(V(AuctionsMutex), Done));
    var us := Credit(users, a.creator, a.bid);
    assert Uninterrupted(us, Do(V(AuctionsMutex), Done)) == us;
    assert Uninterrupted(us, end) == us;
    assert Uninterrupted(us, Do(V(UsersMutex), Do(Use(AuctionsMutex), end))) == us;
    assert Uninterrupted(users, Do(DoCredit(a.creator, a.bid), Do(V(UsersMutex), Do(Use(AuctionsMutex), end)))) == us;
  }

  lemma UninterruptedPayments(users: seq<User>, a: Auction)
    ensures Uninterrupted(users, CloseCode(a, Do(Use(AuctionsMutex), Do(V(AuctionsMutex), Done)))) == Settle(users, a)
  {
    var credit := CreditCode(a, Do(Use(AuctionsMutex), Do(V(AuctionsMutex), Done)));
    if a.winner.Some? {
      var us := Debit(users, a.winner.value, a.bid, a.id);
      UninterruptedCredit(us, a);
      assert Uninterrupted(us, Do(V(UsersMutex), credit)) == Settle(users, a);
      assert Uninterrupted(users, Do(DoDebit(a.winner.value, a.bid, a.id), Do(V(UsersMutex), credit))) == Settle(users, a);
    } else {
      UninterruptedCredit(users, a);
    }
  }

  // Run without interruption, the two sections of a close are the atomic settlement.
  lemma UninterruptedClose(users: seq<User>, a: Auction)
    ensures Uninterrupted(users, CodeOf(BuyPath(a))) == Settle(users, a)
    ensures Uninterrupted(users, CodeOf(TickPath(Some(a)))) == Settle(users, a)
  {
    var close := CloseCode(a, Do(Use(AuctionsMutex), Do(V(AuctionsMutex), Done)));
    UninterruptedPayments(users, a);
    assert Uninterrupted(users, Do(P(AuctionsMutex), close)) == Settle(users, a);
    assert Uninterrupted(users, Do(Use(AuctionsMutex), close)) == Settle(users, a);
  }

  // The auctions the server closes may be closed here: the step that a good server state
  // takes, by a bid or a tick, closes an auction whose creator and winner exist.
  lemma ServerClosesAreClosable(s: AuctionModel.State, e: Event)
    requires Rules(s) && Enabled(s, e) && ClosesAt(s, e) < |s.listed|
    ensures ClosesAt(s, e) < |BeforeClose(s, e).listed|
    ensures Closable(s.users, BeforeClose(s, e).listed[ClosesAt(s, e)])
  {
    RewriteKeepsRules(s, e);
    StepShape(s, e);
  }
}
