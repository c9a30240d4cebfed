// Interleaving changes nothing: whenever the threads have finished their work, the
// accounts are those that the same logins, logouts and closes leave when each is one
// atomic step, one after the other in the order in which they took effect.
module Serial {
  import opened Wrappers
  import opened Seqs
  import M = AuctionModel
  import C = Commuting
  import opened Accounts
  import opened Locks
  import opened LockTheorems

  // ---- work, and when it takes effect ----

  predicate Session(path: Path) { path.LoginPath? || path.LogoutPath? }

  predicate Settles(path: Path) { Session(path) || ClosesOf(path).Some? }

  // A login or logout takes effect in its one instruction, a close when the creator is
  // credited.
  predicate TakesEffect(instr: Instr) { instr.DoLogin? || instr.DoLogout? || instr.DoCredit? }

  // The logins, logouts and closes begun, oldest first ...
  function Taken(r: Schedule): seq<Path> {
    match r
    case Begun => []
    case Then(p, a) => Taken(p) + if a.Begin? && Settles(a.path) then [a.path] else []
  }

  // ... and those that have taken effect, in the order in which they did.
  function Effective(r: Schedule): seq<Path>
    requires Legal(r)
  {
    match r
    case Begun => []
    case Then(p, a) =>
      Effective(p)
      + if a.Exec? && TakesEffect(After(p).threads[a.i].code.instr) then [After(p).threads[a.i].work] else []
  }

  // What one piece of work does to the accounts in the atomic model.
  function AtOnce(users: seq<M.User>, path: Path): seq<M.User> {
    match path
    case LoginPath(fd, name, password) => C.SignIn(users, fd, name, password)
    case LogoutPath(fd) => C.SignOut(users, fd)
    case _ => if ClosesOf(path).Some? then M.Settle(users, ClosesOf(path).value) else users
  }

  // That is what login, logout and the closes of the atomic server do to its accounts.
  lemma AtOnceIsOneStep(s: M.State, fd: int, name: string, password: string, i: nat)
    requires i < |s.listed|
    ensures AtOnce(s.users, LoginPath(fd, name, password)) == M.Login(s, fd, name, password).users
    ensures AtOnce(s.users, LogoutPath(fd)) == M.Logout(s, fd).users
    ensures AtOnce(s.users, BuyPath(s.listed[i])) == M.Close(s, i).users
    ensures AtOnce(s.users, TickPath(Some(s.listed[i]))) == M.Close(s, i).users
  {
    C.LoginSignsIn(s, fd, name, password);
    C.LogoutSignsOut(s, fd);
  }

  function InSeries(paths: seq<Path>): seq<M.User> {
    if |paths| == 0 then [] else AtOnce(InSeries(paths[..|paths| - 1]), paths[|paths| - 1])
  }

  lemma InSeriesSnoc(paths: seq<Path>, path: Path)
    ensures InSeries(paths + [path]) == AtOnce(InSeries(paths), path)
  {
    assert (paths + [path])[..|paths|] == paths;
  }

  // ---- the shape of the code ----

  // Past its debit and before its credit, if the close has a winner.
  predicate CreditNext(code: Code) {
    match code
    case Done => false
    case Do(DoCredit(_, _), _) => true
    case Do(DoDebit(_, _, _), _) => false
    case Do(P(m), next) => m != AuctionsMutex && CreditNext(next)
    case Do(_, next) => CreditNext(next)
  }

  predicate EffectAhead(code: Code) {
    code.Do? && (TakesEffect(code.instr) || EffectAhead(code.next))
  }

  predicate HasWinner(path: Path) {
    ClosesOf(path).Some? && ClosesOf(path).value.winner.Some?
  }

  // The account instructions are those of the work, in their order, each under its mutex.
  predicate Fits(code: Code, held: set<Mutex>, work: Path) {
    code.Do? ==>
      && Fits(code.next, HeldAfter(held, code.instr), work)
      && match code.instr
         case DoLogin(fd, name, password) => work == LoginPath(fd, name, password) && !EffectAhead(code.next)
         case DoLogout(fd) => work == LogoutPath(fd) && !EffectAhead(code.next)
         case DoDebit(name, amount, id) =>
           && AuctionsMutex in held && HasWinner(work) && CreditNext(code.next)
           && var a := ClosesOf(work).value; name == a.winner.value && amount == a.bid && id == a.id
         case DoCredit(name, amount) =>
           && AuctionsMutex in held && ClosesOf(work).Some? && !EffectAhead(code.next)
           && var a := ClosesOf(work).value; name == a.creator && amount == a.bid
         case P(m) => m == AuctionsMutex && HasWinner(work) ==> !CreditNext(code.next)
         case _ => true
  }

  lemma NoEffectNoCredit(code: Code)
    requires !EffectAhead(code)
    ensures !CreditNext(code)
  {
  }

  // A thread about to credit is under auctionsMutex.
  lemma {:induction false} CreditUnderLock(code: Code, held: set<Mutex>, work: Path)
    requires Fits(code, held, work) && CreditNext(code)
    ensures AuctionsMutex in held
  {
    if !code.instr.DoCredit? {
      CreditUnderLock(code.next, HeldAfter(held, code.instr), work);
    }
  }

  lemma EndFits(work: Path)
    ensures var end := Do(Use(AuctionsMutex), Do(V(AuctionsMutex), Done));
            Fits(end, {AuctionsMutex}, work) && !CreditNext(end) && !EffectAhead(end)
  {
    var unlock := Do(V(AuctionsMutex), Done);
    assert Fits(unlock, {AuctionsMutex}, work);
    assert CreditNext(unlock) == CreditNext(unlock.next) == false;
    assert EffectAhead(unlock) == EffectAhead(unlock.next) == false;
  }

  lemma CloseFits(a: M.Auction, work: Path)
    requires ClosesOf(work) == Some(a)
    ensures var end := Do(Use(AuctionsMutex), Do(V(AuctionsMutex), Done));
            && Fits(CloseCode(a, end), {AuctionsMutex}, work)
            && EffectAhead(CloseCode(a, end))
            && (CreditNext(CloseCode(a, end)) ==> !HasWinner(work))
  {
    var end := Do(Use(AuctionsMutex), Do(V(AuctionsMutex), Done));
    var both := {AuctionsMutex} + {UsersMutex};
    assert HeldAfter(both, V(UsersMutex)) == {AuctionsMutex};
    EndFits(work);
    assert Fits(Do(V(UsersMutex), Do(Use(AuctionsMutex), end)), both, work);
    assert Fits(CreditCode(a, end), {AuctionsMutex}, work) && CreditNext(CreditCode(a, end));
    assert EffectAhead(CreditCode(a, end));
    if a.winner.Some? {
      var settled := Do(V(UsersMutex), CreditCode(a, end));
      assert Fits(settled, both, work) && CreditNext(settled) && EffectAhead(settled);
      var debit := Do(DoDebit(a.winner.value, a.bid, a.id), settled);
      assert Fits(debit, both, work) && !CreditNext(debit) && EffectAhead(debit);
    }
  }

  lemma GuardedFits(m: Mutex, d: Mutex, next: Code, held: set<Mutex>, work: Path)
    requires m !in held && Fits(next, held, work) && !CreditNext(next)
    ensures Fits(Guarded(m, d, next), held, work) && !CreditNext(Guarded(m, d, next))
    ensures EffectAhead(Guarded(m, d, next)) == EffectAhead(next)
  {
    var out := Do(V(m), next);
    assert HeldAfter(held + {m}, V(m)) == held;
    assert Fits(out, held + {m}, work) && !CreditNext(out) && EffectAhead(out) == EffectAhead(next);
    var body := Do(Use(d), out);
    assert Fits(body, held + {m}, work) && !CreditNext(body) && EffectAhead(body) == EffectAhead(next);
  }

  lemma CodeFits(path: Path)
    ensures Fits(CodeOf(path), {}, path) && !CreditNext(CodeOf(path))
    ensures EffectAhead(CodeOf(path)) <==> Settles(path)
  {
    var end := Do(Use(AuctionsMutex), Do(V(AuctionsMutex), Done));
    assert {} + {AuctionsMutex} == {AuctionsMutex};
    match path {
      case LoginPath(fd, name, password) =>
        var out := Do(V(UsersMutex), Done);
        assert CreditNext(out) == CreditNext(out.next) == false;
        assert EffectAhead(out) == EffectAhead(out.next) == false;
        var login := Do(DoLogin(fd, name, password), out);
        assert CreditNext(login) == CreditNext(out);
        assert Fits(login, {} + {UsersMutex}, path) && EffectAhead(login);
        GuardedFits(BufferLock, BufferLock, Do(P(UsersMutex), login), {}, path);
      case LogoutPath(_) =>
        var logout := CodeOf(path);
        assert CreditNext(logout) == CreditNext(logout.next) == false;
        assert EffectAhead(logout.next) == false;
      case ReceivePath => GuardedFits(BufferLock, BufferLock, Done, {}, path);
      case UsersQueryPath => GuardedFits(UsersMutex, UsersMutex, Done, {}, path);
      case AuctionsPath => GuardedFits(AuctionsMutex, AuctionsMutex, Done, {}, path);
      case CreatePath => NestedFits(AuctionIdMutex, path);
      case RaisePath => NestedFits(AuctionsMutex, path);
      case BuyPath(a) =>
        CloseFits(a, path);
        var body := Do(Use(AuctionsMutex), CloseCode(a, end));
        assert Fits(body, {AuctionsMutex}, path) && EffectAhead(body) && CreditNext(body) == CreditNext(CloseCode(a, end));
      case TickPath(Some(a)) =>
        CloseFits(a, path);
        var locked := Do(P(AuctionsMutex), CloseCode(a, end));
        assert Fits(locked, {}, path) && EffectAhead(locked) && !CreditNext(locked);
      case _ =>
    }
  }

  lemma NestedFits(d: Mutex, path: Path)
    requires !HasWinner(path)
    ensures Fits(NestedIds(d), {}, path) && !CreditNext(NestedIds(d)) && !EffectAhead(NestedIds(d))
  {
    var end := Do(Use(AuctionsMutex), Do(V(AuctionsMutex), Done));
    assert {} + {AuctionsMutex} == {AuctionsMutex};
    EndFits(path);
    GuardedFits(AuctionIdMutex, d, end, {AuctionsMutex}, path);
    var body := Do(Use(AuctionsMutex), Guarded(AuctionIdMutex, d, end));
    assert Fits(body, {AuctionsMutex}, path) && !CreditNext(body) && !EffectAhead(body);
  }

  // ---- a login or logout in the middle of a close ----

  // It may as well have come before: it touches other fields, and renames nobody.
  lemma SessionCommutes(users: seq<M.User>, work: Path, winner: string, amount: int, id: int)
    requires Session(work) && M.HasUser(users, winner)
    ensures AtOnce(M.Debit(users, winner, amount, id), work) == M.Debit(AtOnce(users, work), winner, amount, id)
  {
    C.DebitIsPaid(users, winner, amount, id);
    C.DebitIsPaid(AtOnce(users, work), winner, amount, id);
    PaidCommutes(users, work, winner, -amount, [id]);
  }

  lemma PaidCommutes(users: seq<M.User>, work: Path, payer: string, amount: int, ids: seq<int>)
    requires Session(work) && M.HasUser(users, payer)
    ensures AtOnce(C.Paid(users, payer, amount, ids), work) == C.Paid(AtOnce(users, work), payer, amount, ids)
  {
    match work
    case LoginPath(fd, name, password) => C.SignInCommutes(users, fd, name, password, payer, amount, ids);
    case LogoutPath(fd) => C.SignOutCommutes(users, fd, payer, amount, ids);
  }

  // ---- the invariant ----

  predicate Midway(t: Thread) { CreditNext(t.code) && HasWinner(t.work) }

  ghost predicate Shaped(s: System) {
    forall i :: 0 <= i < |s.threads| ==> Fits(s.threads[i].code, s.threads[i].held, s.threads[i].work)
  }

  // Every auction being closed has its creator and winner.
  ghost predicate WorkClosable(s: System) {
    forall i :: 0 <= i < |s.threads| ==> MayBegin(s.users, s.threads[i].work)
  }

  // The accounts are those of the work that has taken effect, in series; and of the debit,
  // when a close is between its two sections.
  ghost predicate Serialized(s: System, done: seq<Path>) {
    && ((forall i :: 0 <= i < |s.threads| ==> !Midway(s.threads[i])) ==> s.users == InSeries(done))
    && (forall i :: 0 <= i < |s.threads| && Midway(s.threads[i]) ==>
          s.users == Debited(InSeries(done), s.threads[i].work))
  }

  function Debited(users: seq<M.User>, work: Path): seq<M.User>
    requires HasWinner(work)
  {
    var a := ClosesOf(work).value;
    M.Debit(users, a.winner.value, a.bid, a.id)
  }

  lemma ShapedNext(s: System, a: Action)
    requires Inv(s) && Shaped(s) && WorkClosable(s) && Can(s, a)
    ensures Shaped(Next(s, a)) && WorkClosable(Next(s, a))
  {
    var t := Next(s, a);
    match a {
      case Spawn =>
      case Begin(i, path) =>
        assert Disciplined(s.threads[i].code, s.threads[i].held);
        CodeFits(path);
      case Exec(i) =>
        InstrKeepsUsers(s.users, s.threads[i].code.instr);
        assert Fits(s.threads[i].code, s.threads[i].held, s.threads[i].work);
    }
  }

  // Under auctionsMutex nobody else is between a debit and its credit.
  lemma NobodyElseMidway(r: Schedule, i: nat)
    requires Legal(r) && Shaped(After(r)) && i < |After(r).threads|
    requires AuctionsMutex in After(r).threads[i].held
    ensures forall j :: 0 <= j < |After(r).threads| && j != i ==> !Midway(After(r).threads[j])
  {
    var s := After(r);
    forall j | 0 <= j < |s.threads| && j != i ensures !Midway(s.threads[j]) {
      var t := s.threads[j];
      if Midway(t) {
        CreditUnderLock(t.code, t.held, t.work);
        if i < j { OneHolder(r, AuctionsMutex, i, j); } else { OneHolder(r, AuctionsMutex, j, i); }
      }
    }
  }

  // An instruction that is no account operation leaves everybody where they were.
  lemma QuietExec(s: System, i: nat, done: seq<Path>)
    requires Shaped(s) && Serialized(s, done) && Can(s, Exec(i))
    requires var instr := s.threads[i].code.instr; instr.P? || instr.V? || instr.Use? || instr.Local?
    ensures Serialized(Next(s, Exec(i)), done)
  {
    var t, t' := s.threads[i], Next(s, Exec(i)).threads[i];
    assert Fits(t.code, t.held, t.work);
    assert Midway(t') == Midway(t);
    forall j | 0 <= j < |s.threads| ensures Midway(Next(s, Exec(i)).threads[j]) == Midway(s.threads[j]) {
    }
  }

  lemma DebitExec(r: Schedule, i: nat, done: seq<Path>)
    requires Legal(r) && Shaped(After(r)) && Serialized(After(r), done) && Can(After(r), Exec(i))
    requires After(r).threads[i].code.instr.DoDebit?
    ensures Serialized(Next(After(r), Exec(i)), done)
  {
    var s := After(r);
    assert Fits(s.threads[i].code, s.threads[i].held, s.threads[i].work);
    NobodyElseMidway(r, i);
    assert s.users == InSeries(done);
    assert Midway(Next(s, Exec(i)).threads[i]);
  }

  lemma CreditExec(r: Schedule, i: nat, done: seq<Path>)
    requires Legal(r) && Shaped(After(r)) && Serialized(After(r), done) && Can(After(r), Exec(i))
    requires After(r).threads[i].code.instr.DoCredit?
    ensures Serialized(Next(After(r), Exec(i)), done + [After(r).threads[i].work])
  {
    var s := After(r);
    var t := s.threads[i];
    assert Fits(t.code, t.held, t.work);
    NobodyElseMidway(r, i);
    NoEffectNoCredit(t.code.next);
    var a := ClosesOf(t.work).value;
    if a.winner.None? {
      assert s.users == InSeries(done);
    } else {
      assert Midway(t);
    }
    InSeriesSnoc(done, t.work);
    assert Next(s, Exec(i)).users == M.Settle(InSeries(done), a);
  }

  lemma SessionEffect(s: System, i: nat)
    requires Shaped(s) && Can(s, Exec(i))
    requires s.threads[i].code.instr.DoLogin? || s.threads[i].code.instr.DoLogout?
    ensures Session(s.threads[i].work)
    ensures Next(s, Exec(i)).users == AtOnce(s.users, s.threads[i].work)
    ensures forall j :: 0 <= j < |s.threads| ==>
      Midway(Next(s, Exec(i)).threads[j]) == Midway(s.threads[j]) && Next(s, Exec(i)).threads[j].work == s.threads[j].work
  {
    var t := s.threads[i];
    assert Fits(t.code, t.held, t.work);
    NoEffectNoCredit(t.code.next);
    match t.work {
      case LoginPath(fd, name, password) => C.LoginSignsIn(M.EMPTY.(users := s.users), fd, name, password);
      case LogoutPath(fd) => C.LogoutSignsOut(M.EMPTY.(users := s.users), fd);
    }
  }

  lemma SessionExec(s: System, i: nat, done: seq<Path>)
    requires Shaped(s) && WorkClosable(s) && Serialized(s, done) && Can(s, Exec(i))
    requires s.threads[i].code.instr.DoLogin? || s.threads[i].code.instr.DoLogout?
    ensures Serialized(Next(s, Exec(i)), done + [s.threads[i].work])
  {
    var work, s' := s.threads[i].work, Next(s, Exec(i));
    SessionEffect(s, i);
    InSeriesSnoc(done, work);
    forall j | 0 <= j < |s'.threads| && Midway(s'.threads[j])
      ensures s'.users == Debited(InSeries(done + [work]), s'.threads[j].work)
    {
      SessionMidway(s, j, done, work);
    }
    if forall j :: 0 <= j < |s'.threads| ==> !Midway(s'.threads[j]) {
      assert forall j :: 0 <= j < |s.threads| ==> !Midway(s.threads[j]);
    }
  }

  lemma SessionMidway(s: System, j: nat, done: seq<Path>, work: Path)
    requires WorkClosable(s) && Serialized(s, done) && Session(work)
    requires j < |s.threads| && Midway(s.threads[j])
    ensures AtOnce(s.users, work) == Debited(AtOnce(InSeries(done), work), s.threads[j].work)
  {
    var a := ClosesOf(s.threads[j].work).value;
    assert MayBegin(s.users, s.threads[j].work);
    DebitKeepsUsers(InSeries(done), a.winner.value, a.bid, a.id, a.winner.value);
    SessionCommutes(InSeries(done), work, a.winner.value, a.bid, a.id);
  }

  lemma TakenUp(s: System, a: Action, done: seq<Path>)
    requires Shaped(s) && Serialized(s, done) && Can(s, a) && !a.Exec?
    ensures Serialized(Next(s, a), done)
  {
    if a.Begin? {
      CodeFits(a.path);
      forall j | 0 <= j < |s.threads| ensures Midway(Next(s, a).threads[j]) == Midway(s.threads[j]) {
      }
    } else {
      forall j | 0 <= j < |s.threads| ensures Midway(Next(s, a).threads[j]) == Midway(s.threads[j]) {
      }
    }
  }

  lemma Executed(r: Schedule, i: nat)
    requires Legal(r) && Can(After(r), Exec(i))
    requires Shaped(After(r)) && WorkClosable(After(r)) && Serialized(After(r), Effective(r))
    ensures var t := After(r).threads[i];
            Serialized(Next(After(r), Exec(i)), Effective(r) + if TakesEffect(t.code.instr) then [t.work] else [])
  {
    var s, done := After(r), Effective(r);
    assert done + [] == done;
    match s.threads[i].code.instr {
      case DoLogin(_, _, _) => SessionExec(s, i, done);
      case DoLogout(_) => SessionExec(s, i, done);
      case DoDebit(_, _, _) => DebitExec(r, i, done);
      case DoCredit(_, _) => CreditExec(r, i, done);
      case _ => QuietExec(s, i, done);
    }
  }

  lemma {:induction false} Reachable(r: Schedule)
    requires Legal(r)
    ensures Shaped(After(r)) && WorkClosable(After(r)) && Serialized(After(r), Effective(r))
  {
    match r
    case Begun =>
    case Then(p, a) =>
      Reachable(p);
      LockTheorems.Reachable(p);
      ShapedNext(After(p), a);
      if a.Exec? {
        Executed(p, a.i);
      } else {
        TakenUp(After(p), a, Effective(p));
        assert Effective(r) == Effective(p);
      }
  }

  // ---- nothing is left out, nothing done twice ----

  function Ahead(path: Path): Thread -> int {
    (t: Thread) => if EffectAhead(t.code) && t.work == path then 1 else 0
  }

  function One(yes: bool): int { if yes then 1 else 0 }

  lemma AheadNext(s: System, a: Action, path: Path)
    requires Shaped(s) && Can(s, a)
    ensures Total(Next(s, a).threads, Ahead(path)) == Total(s.threads, Ahead(path))
      + One(a.Begin? && Settles(a.path) && a.path == path)
      - One(a.Exec? && TakesEffect(s.threads[a.i].code.instr) && s.threads[a.i].work == path)
  {
    match a {
      case Spawn => TotalAppend(s.threads, Thread(Done, {}, IgnoredPath), Ahead(path));
      case Begin(i, _) =>
        CodeFits(a.path);
        TotalUpdate(s.threads, i, Next(s, a).threads[i], Ahead(path));
      case Exec(i) =>
        assert Fits(s.threads[i].code, s.threads[i].held, s.threads[i].work);
        TotalUpdate(s.threads, i, Next(s, a).threads[i], Ahead(path));
    }
  }

  // Work begun has taken effect once, or is still ahead of the thread that does it.
  lemma {:induction false} EveryWorkOnce(r: Schedule, path: Path)
    requires Legal(r)
    ensures multiset(Taken(r))[path] == multiset(Effective(r))[path] + Total(After(r).threads, Ahead(path))
  {
    match r
    case Begun =>
    case Then(p, a) =>
      EveryWorkOnce(p, path);
      Reachable(p);
      AheadNext(After(p), a, path);
      assert multiset(Taken(r))[path] == multiset(Taken(p))[path] + One(a.Begin? && Settles(a.path) && a.path == path);
  }

  // ---- the theorem ----

  // Whenever no thread is in the middle of its work, under whatever interleaving, the
  // accounts are those that the logins, logouts and closes begun leave one at a time.
  lemma Serializable(r: Schedule)
    requires Legal(r) && Quiet(After(r))
    ensures After(r).users == InSeries(Effective(r))
    ensures multiset(Effective(r)) == multiset(Taken(r))
  {
    Reachable(r);
    NobodyMidway(After(r));
    forall path: Path ensures multiset(Effective(r))[path] == multiset(Taken(r))[path] {
      EveryWorkOnce(r, path);
      TotalZero(After(r).threads, Ahead(path));
    }
  }

  lemma NobodyMidway(s: System)
    requires Quiet(s)
    ensures forall i :: 0 <= i < |s.threads| ==> !Midway(s.threads[i])
    ensures forall path: Path, i :: 0 <= i < |s.threads| ==> Ahead(path)(s.threads[i]) == 0
  {
  }

  predicate Continues(r: Schedule, q: Schedule) {
    r == q || (r.Then? && Continues(r.before, q))
  }

  // The order never changes afterwards: what had taken effect stays first. With the
  // lemma above, work finished before a quiet moment comes before work begun after it.
  lemma {:induction false} OrderIsFinal(r: Schedule, q: Schedule)
    requires Legal(r) && Legal(q) && Continues(r, q)
    ensures Effective(q) <= Effective(r)
  {
    if r != q {
      OrderIsFinal(r.before, q);
    }
  }
}
