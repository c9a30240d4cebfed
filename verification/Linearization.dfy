// The atomic model is enough: whatever the interleaving, the shared data are at every
// moment those of a legal run of AuctionModel, but for what the one thread under
// auctionsMutex has yet to do. So all that is proved of runs holds of the threads.
module Linearization {
  import opened Seqs
  import opened AuctionModel
  import opened Invariants
  import opened AuctionRules
  import opened Reachability
  import opened Interleaving
  import opened Commuting
  import Accounts
  import HighestBid

  predicate Session(e: Event) { e.LoginEv? || e.LogoutEv? }

  // ---- the run ----

  // The access with which a request takes its place in the run.
  predicate Decides(pc: Pc) {
    pc.LoggingIn? || pc.LoggingOut? || pc.Owning? || (pc.Inside? && !Admitted(pc.e))
  }

  function Trace(r: Schedule): Run
    requires Possible(r)
  {
    match r
    case Opened => Start
    case More(p, a) =>
      if a.Go? && Decides(Reached(p).threads[a.i]) then Then(Trace(p), Reached(p).threads[a.i].e) else Trace(p)
  }

  // ---- one thread under auctionsMutex ----

  function Holds(pc: Pc): int {
    match pc
    case Resting => 0
    case LoginWait(_) => 0
    case LoggingIn(_) => 0
    case LoginOut => 0
    case LoggingOut(_) => 0
    case Waiting(_) => 0
    case _ => 1
  }

  ghost predicate Exclusive(v: Server) {
    v.auctionsMutex >= 0 && v.auctionsMutex == 1 - Total(v.threads, Holds)
  }

  lemma OnlyHolder(v: Server, i: nat)
    requires Exclusive(v) && i < |v.threads| && Holds(v.threads[i]) == 1
    ensures forall j :: 0 <= j < |v.threads| && j != i ==> Holds(v.threads[j]) == 0
  {
    forall j | 0 <= j < |v.threads| && j != i ensures Holds(v.threads[j]) == 0 {
      if i < j { TotalPair(v.threads, Holds, i, j); } else { TotalPair(v.threads, Holds, j, i); }
    }
  }

  lemma NoHolder(v: Server)
    requires Exclusive(v) && v.auctionsMutex > 0
    ensures forall j :: 0 <= j < |v.threads| ==> Holds(v.threads[j]) == 0
  {
    TotalBound(v.threads, Holds);
  }

  lemma ExclusiveNext(v: Server, a: Action)
    requires Exclusive(v) && Can(v, a)
    ensures Exclusive(Next(v, a))
  {
    match a {
      case Spawn => TotalAppend(v.threads, Resting, Holds);
      case Begin(i, e) => TotalUpdate(v.threads, i, First(e), Holds);
      case Go(i) =>
        HoldsOnward(v.state, v.threads[i]);
        TotalUpdate(v.threads, i, Onward(v.state, v.threads[i]), Holds);
    }
  }

  lemma HoldsOnward(s: State, pc: Pc)
    requires Defined(s, pc)
    ensures Holds(Onward(s, pc)) == Holds(pc) + Taken(pc.Waiting?) - Taken(pc.Leaving?)
  {
  }

  // ---- what a thread has yet to do ----

  predicate Debits(pc: Pc) { pc.DebitWait? || pc.Debiting? }

  predicate Credits(pc: Pc) { Debits(pc) || pc.DebitOut? || pc.CreditWait? || pc.Crediting? }

  predicate Closing(pc: Pc) { Credits(pc) || pc.CreditOut? || pc.Removing? }

  // The accounts once the rest of a close is paid.
  function Owed(users: seq<User>, a: Auction, pc: Pc): seq<User> {
    CreditOwed(DebitOwed(users, a, pc), a, pc)
  }

  function DebitOwed(users: seq<User>, a: Auction, pc: Pc): seq<User> {
    if Debits(pc) && a.winner.Some? then Paid(users, a.winner.value, -a.bid, [a.id]) else users
  }

  function CreditOwed(users: seq<User>, a: Auction, pc: Pc): seq<User> {
    if Credits(pc) then Paid(users, a.creator, a.bid, []) else users
  }

  // The state once a thread has done what its request, having taken its place in the run,
  // still asks for; or has undone what it did before.
  function Completed(s: State, pc: Pc): State {
    if Closing(pc) then
      var i := IndexOfId(s.listed, pc.id);
      if i < |s.listed| then
        State(Owed(s.users, s.listed[i], pc), RemoveAt(s.listed, i), s.closed + [s.listed[i]], s.lastId, s.log)
      else s
    else match pc
      case NumberOut(_, id) => s.(lastId := id - 1)
      case Owning(_, id) => s.(lastId := id - 1)
      case Appending(a) => s.(listed := s.listed + [a])
      case _ => s
  }

  predicate Formed(s: State, pc: Pc) {
    match pc
    case LoginWait(e) => e.LoginEv?
    case LoggingIn(e) => e.LoginEv?
    case LoggingOut(e) => e.LogoutEv?
    case Waiting(e) => !Session(e)
    case Inside(e) => !Session(e)
    case NumberWait(e) => Admitted(e)
    case NumberIn(e) => Admitted(e)
    case NumberOut(e, id) => Admitted(e) && s.lastId == id
    case Owning(e, id) => Admitted(e) && s.lastId == id
    case _ => Closing(pc) ==> Listed(s, pc.id) && (Debits(pc) ==> Record(s, pc.id).winner.Some?)
  }

  // m is the state of the run.
  ghost predicate Follows(v: Server, m: State) {
    && ((forall i :: 0 <= i < |v.threads| ==> Holds(v.threads[i]) == 0) ==> m == v.state)
    && (forall i :: 0 <= i < |v.threads| && Holds(v.threads[i]) == 1 ==> m == Completed(v.state, v.threads[i]))
  }

  ghost predicate Inv(v: Server, m: State) {
    && v.state.log == []
    && Exclusive(v)
    && (forall i :: 0 <= i < |v.threads| ==> Formed(v.state, v.threads[i]))
    && Follows(v, m)
  }

  // ---- the thread under auctionsMutex goes on ----

  lemma DebitPays(users: seq<User>, a: Auction, id: int)
    requires a.winner.Some?
    ensures Owed(Debit(users, a.winner.value, a.bid, a.id), a, DebitOut(id)) == Owed(users, a, Debiting(id))
  {
    DebitIsPaid(users, a.winner.value, a.bid, a.id);
  }

  lemma CreditPays(users: seq<User>, a: Auction, id: int)
    ensures Owed(Credit(users, a.creator, a.bid), a, CreditOut(id)) == Owed(users, a, Crediting(id))
  {
    CreditIsPaid(users, a.creator, a.bid);
  }

  lemma DebiterGoes(s: State, id: int)
    requires Formed(s, Debiting(id))
    ensures Completed(Effect(s, Debiting(id)), DebitOut(id)) == Completed(s, Debiting(id))
    ensures Formed(Effect(s, Debiting(id)), DebitOut(id))
  {
    DebitPays(s.users, Record(s, id), id);
  }

  lemma CrediterGoes(s: State, id: int)
    requires Formed(s, Crediting(id))
    ensures Completed(Effect(s, Crediting(id)), CreditOut(id)) == Completed(s, Crediting(id))
    ensures Formed(Effect(s, Crediting(id)), CreditOut(id))
  {
    CreditPays(s.users, Record(s, id), id);
  }

  lemma RemoverGoes(s: State, id: int)
    requires Formed(s, Removing(id))
    ensures Completed(Effect(s, Removing(id)), Leaving) == Completed(s, Removing(id))
  {
  }

  // Between two accesses nothing is done.
  lemma CloserWaits(s: State, pc: Pc)
    requires Formed(s, pc) && (pc.DebitWait? || pc.DebitOut? || pc.CreditWait? || pc.CreditOut?)
    ensures Effect(s, pc) == s && Completed(s, Onward(s, pc)) == Completed(s, pc) && Formed(s, Onward(s, pc))
  {
    var next := Onward(s, pc);
    assert Debits(next) == Debits(pc) && Credits(next) == Credits(pc) && Closing(next) && next.id == pc.id;
  }

  lemma CloserGoes(s: State, pc: Pc)
    requires Defined(s, pc) && Formed(s, pc) && Closing(pc)
    ensures Completed(Effect(s, pc), Onward(s, pc)) == Completed(s, pc)
    ensures Formed(Effect(s, pc), Onward(s, pc))
    ensures Effect(s, pc).log == s.log
  {
    match pc
    case Debiting(id) => DebiterGoes(s, id);
    case Crediting(id) => CrediterGoes(s, id);
    case Removing(id) => RemoverGoes(s, id);
    case _ => CloserWaits(s, pc);
  }

  lemma HolderGoes(s: State, pc: Pc)
    requires Defined(s, pc) && Formed(s, pc) && Holds(pc) == 1 && !Decides(pc)
    ensures Completed(Effect(s, pc), Onward(s, pc)) == Completed(s, pc)
    ensures Formed(Effect(s, pc), Onward(s, pc))
    ensures Effect(s, pc).log == s.log
  {
    if Closing(pc) { CloserGoes(s, pc); } else { CreatorGoes(s, pc); }
  }

  lemma CreatorGoes(s: State, pc: Pc)
    requires Defined(s, pc) && Formed(s, pc) && Holds(pc) == 1 && !Decides(pc) && !Closing(pc)
    ensures Completed(Effect(s, pc), Onward(s, pc)) == Completed(s, pc)
    ensures Formed(Effect(s, pc), Onward(s, pc))
    ensures Effect(s, pc).log == s.log
  {
  }

  lemma BareClose(s: State, k: nat)
    requires k < |s.listed|
    ensures Bare(Close(Bare(s), k)) == Bare(Close(s, k))
  {
  }

  lemma BareBid(s: State, e: Event)
    requires e.BidEv? && Enabled(s, e)
    ensures Bare(Step(Bare(s), e)) == Bare(Step(s, e))
  {
    if BuysNow(s, e) {
      BidShape(s, e);
      BidShape(Bare(s), e);
      BareClose(BeforeClose(s, e), ClosesAt(s, e));
    }
  }

  lemma BareTick(s: State)
    ensures Bare(Tick(Bare(s))) == Bare(Tick(s))
  {
    var k := Expiring(s.listed);
    if k < |s.listed| {
      BareClose(s.(listed := CountDown(s.listed, k + 1)), k);
    }
  }

  // Replies do not matter.
  lemma BareStep(s: State, e: Event)
    requires Enabled(s, e)
    ensures Enabled(Bare(s), e) && Bare(Step(Bare(s), e)) == Bare(Step(s, e))
  {
    match e
    case BidEv(_, _, _) => BareBid(s, e);
    case TickEv => BareTick(s);
    case _ =>
  }

  lemma NoClose(s: State, e: Event)
    requires Enabled(s, e) && !Admitted(e) && !Session(e) && ClosesAt(s, e) == |s.listed|
    ensures Bare(Step(s, e)) == Bare(BeforeClose(s, e))
  {
  }

  // ---- a request takes its place in the run ----

  lemma SettleIsOwed(users: seq<User>, a: Auction, id: int)
    ensures Settle(users, a) == Owed(users, a, if a.winner.Some? then DebitWait(id) else CreditWait(id))
  {
    var us := users;
    if a.winner.Some? {
      DebitIsPaid(users, a.winner.value, a.bid, a.id);
      us := Debit(users, a.winner.value, a.bid, a.id);
    }
    CreditIsPaid(us, a.creator, a.bid);
  }

  lemma CloseDecides(s: State, k: nat)
    requires s.log == [] && k < |s.listed| && IndexOfId(s.listed, s.listed[k].id) == k
    ensures var a := s.listed[k];
            var pc := if a.winner.Some? then DebitWait(a.id) else CreditWait(a.id);
            Completed(s, pc) == Bare(Close(s, k)) && Formed(s, pc)
  {
    SettleIsOwed(s.users, s.listed[k], s.listed[k].id);
  }

  lemma ClosingDecides(s: State, e: Event)
    requires Ids(s) && s.log == [] && Enabled(s, e) && !Admitted(e) && !Session(e) && ClosesAt(s, e) < |s.listed|
    ensures var t, pc := Effect(s, Inside(e)), Onward(s, Inside(e));
            Completed(t, pc) == Bare(Step(s, e)) && Formed(t, pc)
  {
    var t, k := BeforeClose(s, e), ClosesAt(s, e);
    StepShape(s, e);
    RewrittenKeepsIds(s, t);
    ListedAt(t, k);
    CloseDecides(Bare(t), k);
    BareClose(t, k);
  }

  lemma RequestDecides(s: State, e: Event)
    requires Ids(s) && s.log == [] && Enabled(s, e) && !Admitted(e) && !Session(e)
    ensures var t, pc := Effect(s, Inside(e)), Onward(s, Inside(e));
            Completed(t, pc) == Bare(Step(s, e)) && Formed(t, pc) && t.log == []
  {
    if ClosesAt(s, e) < |s.listed| {
      ClosingDecides(s, e);
    } else {
      OpenDecides(s, e);
    }
  }

  lemma OpenDecides(s: State, e: Event)
    requires s.log == [] && Enabled(s, e) && !Admitted(e) && !Session(e) && ClosesAt(s, e) == |s.listed|
    ensures Effect(s, Inside(e)) == Bare(Step(s, e)) && Onward(s, Inside(e)) == Leaving
  {
    NoClose(s, e);
  }

  lemma CreateDecides(s: State, m: State, e: Event, id: int)
    requires Admitted(e) && s.lastId == id && m == s.(lastId := id - 1) && s.log == [] && Enabled(s, e)
    ensures Enabled(m, e)
    ensures var t, pc := Effect(s, Owning(e, id)), Onward(s, Owning(e, id));
            Completed(t, pc) == Bare(Step(m, e)) && Formed(t, pc) && t.log == []
  {
  }

  // ---- a login or logout beside it ----

  function SessionUsers(users: seq<User>, e: Event): seq<User>
    requires Session(e)
  {
    if e.LoginEv? then SignIn(users, e.fd, e.name, e.password) else SignOut(users, e.fd)
  }

  lemma SessionStep(s: State, e: Event)
    requires Session(e) && Enabled(s, e)
    ensures Bare(Step(s, e)) == Bare(s.(users := SessionUsers(s.users, e)))
  {
    match e
    case LoginEv(fd, name, password) => LoginSignsIn(s, fd, name, password);
    case LogoutEv(fd) => LogoutSignsOut(s, fd);
  }

  lemma SessionCommutesPaid(users: seq<User>, e: Event, payer: string, amount: int, ids: seq<int>)
    requires Session(e) && HasUser(users, payer)
    ensures SessionUsers(Paid(users, payer, amount, ids), e) == Paid(SessionUsers(users, e), payer, amount, ids)
  {
    if e.LoginEv? {
      SignInCommutes(users, e.fd, e.name, e.password, payer, amount, ids);
    } else {
      SignOutCommutes(users, e.fd, payer, amount, ids);
    }
  }

  // The accounts of a close exist.
  predicate Known(users: seq<User>, a: Auction) {
    HasUser(users, a.creator) && (a.winner.Some? ==> HasUser(users, a.winner.value))
  }

  lemma SessionCommutesDebit(users: seq<User>, e: Event, a: Auction, pc: Pc)
    requires Session(e) && Known(users, a)
    ensures SessionUsers(DebitOwed(users, a, pc), e) == DebitOwed(SessionUsers(users, e), a, pc)
  {
    if Debits(pc) && a.winner.Some? {
      var winner, ids := a.winner.value, [a.id];
      SessionCommutesPaid(users, e, winner, -a.bid, ids);
      assert DebitOwed(users, a, pc) == Paid(users, winner, -a.bid, ids);
      assert DebitOwed(SessionUsers(users, e), a, pc) == Paid(SessionUsers(users, e), winner, -a.bid, ids);
    }
  }

  lemma SessionCommutesCredit(users: seq<User>, e: Event, a: Auction, pc: Pc)
    requires Session(e) && HasUser(users, a.creator)
    ensures SessionUsers(CreditOwed(users, a, pc), e) == CreditOwed(SessionUsers(users, e), a, pc)
  {
    SessionCommutesPaid(users, e, a.creator, a.bid, []);
  }

  lemma StillKnown(users: seq<User>, a: Auction, pc: Pc)
    requires Known(users, a)
    ensures HasUser(DebitOwed(users, a, pc), a.creator)
  {
    SamePlace(users, DebitOwed(users, a, pc), a.creator);
  }

  lemma SessionCommutesOwed(users: seq<User>, e: Event, a: Auction, pc: Pc)
    requires Session(e) && Known(users, a)
    ensures SessionUsers(Owed(users, a, pc), e) == Owed(SessionUsers(users, e), a, pc)
  {
    StillKnown(users, a, pc);
    SessionCommutesDebit(users, e, a, pc);
    SessionCommutesCredit(DebitOwed(users, a, pc), e, a, pc);
  }

  // Whatever a thread has yet to do, a login or logout may as well have come after it.
  lemma SessionCommutes(s: State, e: Event, pc: Pc)
    requires Session(e) && (Closing(pc) && Listed(s, pc.id) ==> Known(s.users, Record(s, pc.id)))
    ensures var after := s.(users := SessionUsers(s.users, e));
            Completed(after, pc) == Completed(s, pc).(users := SessionUsers(Completed(s, pc).users, e))
  {
    if Closing(pc) && Listed(s, pc.id) {
      SessionCommutesClose(s, e, pc);
    }
  }

  lemma SessionCommutesClose(s: State, e: Event, pc: Pc)
    requires Session(e) && Closing(pc) && Listed(s, pc.id) && Known(s.users, Record(s, pc.id))
    ensures var after := s.(users := SessionUsers(s.users, e));
            Completed(after, pc) == Completed(s, pc).(users := SessionUsers(Completed(s, pc).users, e))
  {
    var i := IndexOfId(s.listed, pc.id);
    SessionCommutesOwed(s.users, e, s.listed[i], pc);
    assert Completed(s, pc).users == Owed(s.users, s.listed[i], pc);
  }

  ghost predicate SamePeople(us: seq<User>, vs: seq<User>) {
    |us| == |vs| && forall j :: 0 <= j < |us| ==> us[j].name == vs[j].name && us[j].fd == vs[j].fd
  }

  lemma SameKnown(us: seq<User>, vs: seq<User>)
    requires SamePeople(us, vs)
    ensures forall name :: HasUser(us, name) == HasUser(vs, name)
    ensures forall fd :: KnownFd(us, fd) == KnownFd(vs, fd)
  {
    forall name ensures HasUser(us, name) == HasUser(vs, name) {
      SamePlace(us, vs, name);
    }
    forall fd ensures KnownFd(us, fd) == KnownFd(vs, fd) {
      assert IndexOfFd(us, fd) == IndexOfFd(vs, fd);
    }
  }

  lemma PaidPeople(users: seq<User>, name: string, amount: int, ids: seq<int>)
    ensures SamePeople(users, Paid(users, name, amount, ids))
  {
  }

  lemma OwedPeople(users: seq<User>, a: Auction, pc: Pc)
    ensures SamePeople(users, Owed(users, a, pc))
  {
    var us := users;
    if Debits(pc) && a.winner.Some? {
      us := Paid(users, a.winner.value, -a.bid, [a.id]);
      PaidPeople(users, a.winner.value, -a.bid, [a.id]);
    }
    PaidPeople(us, a.creator, a.bid, []);
  }

  lemma CompletedPeople(s: State, pc: Pc)
    ensures SamePeople(s.users, Completed(s, pc).users)
  {
    if Closing(pc) && Listed(s, pc.id) {
      OwedPeople(s.users, Record(s, pc.id), pc);
    }
  }

  // The run has closed the auction that the thread is closing, so its rules hold.
  lemma RunKnows(s: State, pc: Pc)
    requires Closing(pc) && Listed(s, pc.id) && Rules(Completed(s, pc))
    ensures Known(s.users, Record(s, pc.id))
  {
    var m := Completed(s, pc);
    CompletedPeople(s, pc);
    assert m.closed[|s.closed|] == Record(s, pc.id);
    assert ClosedOk(m.users, m.closed[|s.closed|]);
    SameKnown(s.users, m.users);
  }

  // ---- every step ----

  lemma HolderNext(v: Server, i: nat, m: State, m': State)
    requires Inv(v, m) && Can(v, Go(i)) && Holds(v.threads[i]) == 1
    requires var t, pc := Effect(v.state, v.threads[i]), Onward(v.state, v.threads[i]);
             m' == Completed(t, pc) && Formed(t, pc) && t.log == []
    ensures Inv(Next(v, Go(i)), m')
  {
    var v' := Next(v, Go(i));
    OnlyHolder(v, i);
    ExclusiveNext(v, Go(i));
    OthersFormed(v, i);
    assert v'.threads[i] == Onward(v.state, v.threads[i]);
    assert Follows(v', m') by {
      assert forall j :: 0 <= j < |v'.threads| && j != i ==> Holds(v'.threads[j]) == 0;
    }
  }

  // Threads outside ask nothing of the state.
  lemma OthersFormed(v: Server, i: nat)
    requires Can(v, Go(i))
    requires forall j :: 0 <= j < |v.threads| ==> Formed(v.state, v.threads[j])
    ensures forall j :: 0 <= j < |v.threads| && Holds(v.threads[j]) == 0 ==> Formed(Effect(v.state, v.threads[i]), v.threads[j])
  {
  }

  // A thread enters, or waits for another mutex, or has released it.
  lemma OutsiderNext(v: Server, i: nat, m: State)
    requires Inv(v, m) && Can(v, Go(i)) && Holds(v.threads[i]) == 0 && !Decides(v.threads[i])
    ensures Inv(Next(v, Go(i)), m)
  {
    var v' := Next(v, Go(i));
    ExclusiveNext(v, Go(i));
    assert v'.threads[i] == Onward(v.state, v.threads[i]) && v'.state == v.state;
    if v.threads[i].Waiting? {
      NoHolder(v);
      assert forall j :: 0 <= j < |v'.threads| && j != i ==> Holds(v'.threads[j]) == 0;
    } else {
      assert forall j :: 0 <= j < |v.threads| ==> Holds(v'.threads[j]) == Holds(v.threads[j]);
    }
  }

  lemma SessionFollows(v: Server, m: State, e: Event)
    requires Inv(v, m) && Rules(m) && Session(e)
    ensures Follows(v.(state := v.state.(users := SessionUsers(v.state.users, e))), m.(users := SessionUsers(m.users, e)))
  {
    forall j | 0 <= j < |v.threads| && Holds(v.threads[j]) == 1
      ensures m.(users := SessionUsers(m.users, e))
           == Completed(v.state.(users := SessionUsers(v.state.users, e)), v.threads[j])
    {
      if Closing(v.threads[j]) && Listed(v.state, v.threads[j].id) {
        RunKnows(v.state, v.threads[j]);
      }
      SessionCommutes(v.state, e, v.threads[j]);
    }
  }

  lemma SessionMoves(v: Server, i: nat)
    requires v.state.log == [] && Can(v, Go(i)) && Formed(v.state, v.threads[i])
    requires Holds(v.threads[i]) == 0 && Decides(v.threads[i])
    ensures Session(v.threads[i].e) && Enabled(v.state, v.threads[i].e)
    ensures var v', pc := Next(v, Go(i)), Onward(v.state, v.threads[i]);
            && v'.state == v.state.(users := SessionUsers(v.state.users, v.threads[i].e))
            && v'.threads == v.threads[i := pc] && Holds(pc) == 0 && Formed(v'.state, pc)
  {
    SessionStep(v.state, v.threads[i].e);
  }

  lemma FollowsOn(v: Server, v': Server, i: nat, m: State)
    requires i < |v.threads| && |v'.threads| == |v.threads| && Follows(v.(state := v'.state), m)
    requires forall j :: 0 <= j < |v.threads| && j != i ==> v'.threads[j] == v.threads[j]
    requires Holds(v.threads[i]) == 0 && Holds(v'.threads[i]) == 0
    ensures Follows(v', m)
  {
    assert forall j :: 0 <= j < |v.threads| ==> Holds(v'.threads[j]) == Holds(v.threads[j]);
  }

  lemma SessionNext(v: Server, i: nat, m: State)
    requires Inv(v, m) && Rules(m) && m.log == [] && Can(v, Go(i)) && Holds(v.threads[i]) == 0 && Decides(v.threads[i])
    ensures Session(v.threads[i].e) && Enabled(m, v.threads[i].e)
    ensures Inv(Next(v, Go(i)), Bare(Step(m, v.threads[i].e)))
  {
    var e, v' := v.threads[i].e, Next(v, Go(i));
    SessionMoves(v, i);
    SessionEnabled(v, m, e);
    SessionStep(m, e);
    SessionFollows(v, m, e);
    FollowsOn(v, v', i, m.(users := SessionUsers(m.users, e)));
    ExclusiveNext(v, Go(i));
    SessionFormed(v, i);
  }

  lemma SessionFormed(v: Server, i: nat)
    requires v.state.log == [] && Can(v, Go(i)) && Holds(v.threads[i]) == 0 && Decides(v.threads[i])
    requires forall j :: 0 <= j < |v.threads| ==> Formed(v.state, v.threads[j])
    ensures var v' := Next(v, Go(i)); forall j :: 0 <= j < |v'.threads| ==> Formed(v'.state, v'.threads[j])
  {
    var v' := Next(v, Go(i));
    SessionMoves(v, i);
    forall j | 0 <= j < |v.threads| ensures Formed(v'.state, v'.threads[j]) {
      if j != i {
        assert Formed(v.state, v.threads[j]);
      }
    }
  }

  lemma SessionEnabled(v: Server, m: State, e: Event)
    requires Follows(v, m) && Session(e) && Enabled(v.state, e)
    ensures Enabled(m, e)
  {
    if j :| 0 <= j < |v.threads| && Holds(v.threads[j]) == 1 {
      CompletedPeople(v.state, v.threads[j]);
      SameKnown(v.state.users, m.users);
    } else {
      assert forall j :: 0 <= j < |v.threads| ==> Holds(v.threads[j]) == 0;
    }
  }

  lemma DecidingNext(v: Server, i: nat, m: State)
    requires Inv(v, m) && Ids(m) && Can(v, Go(i)) && Holds(v.threads[i]) == 1 && Decides(v.threads[i])
    ensures Enabled(m, v.threads[i].e)
    ensures Inv(Next(v, Go(i)), Bare(Step(m, v.threads[i].e)))
  {
    var pc := v.threads[i];
    if pc.Inside? {
      RequestDecides(v.state, pc.e);
    } else {
      CreateDecides(v.state, m, pc.e, pc.id);
    }
    HolderNext(v, i, m, Bare(Step(m, pc.e)));
  }

  lemma GoNext(v: Server, i: nat, m: State)
    requires Inv(v, m) && Ids(m) && Rules(m) && m.log == [] && Can(v, Go(i))
    ensures if Decides(v.threads[i]) then
              Enabled(m, v.threads[i].e) && Inv(Next(v, Go(i)), Bare(Step(m, v.threads[i].e)))
            else Inv(Next(v, Go(i)), m)
  {
    var pc := v.threads[i];
    if Decides(pc) {
      if Holds(pc) == 1 { DecidingNext(v, i, m); } else { SessionNext(v, i, m); }
    } else if Holds(pc) == 1 {
      HolderGoes(v.state, pc);
      HolderNext(v, i, m, m);
    } else {
      OutsiderNext(v, i, m);
    }
  }

  lemma TakenUp(v: Server, a: Action, m: State)
    requires Inv(v, m) && Can(v, a) && !a.Go?
    ensures Inv(Next(v, a), m)
  {
    ExclusiveNext(v, a);
    var v' := Next(v, a);
    assert forall j :: 0 <= j < |v.threads| ==> Holds(v'.threads[j]) == Holds(v.threads[j]);
    if a.Spawn? {
      assert Holds(v'.threads[|v.threads|]) == 0;
    }
  }

  lemma {:induction false} Follow(r: Schedule)
    requires Possible(r)
    ensures Legal(Trace(r)) && Inv(Reached(r), Bare(After(Trace(r))))
  {
    match r
    case Opened =>
    case More(p, a) =>
      Follow(p);
      var m := After(Trace(p));
      RunRules(Trace(p));
      if a.Go? {
        GoNext(Reached(p), a.i, Bare(m));
        if Decides(Reached(p).threads[a.i]) {
          BareStep(m, Reached(p).threads[a.i].e);
        }
      } else {
        TakenUp(Reached(p), a, Bare(m));
      }
  }

  lemma RunRules(r: Run)
    requires Legal(r)
    ensures Ids(Bare(After(r))) && Rules(Bare(After(r)))
  {
    Reachable(r);
    RewrittenKeepsIds(After(r), Bare(After(r)));
  }

  // ---- the theorems ----

  // Under every interleaving the requests have taken their places in a legal run, and
  // whenever auctionsMutex is free the users, the auctions listed, those closed and the
  // id counter are exactly where that run leads.
  lemma Serializable(r: Schedule)
    requires Possible(r)
    ensures Legal(Trace(r))
    ensures Reached(r).auctionsMutex > 0 ==> Reached(r).state == Bare(After(Trace(r)))
  {
    Follow(r);
    if Reached(r).auctionsMutex > 0 {
      NoHolder(Reached(r));
    }
  }

  // A thread that closes an auction never follows a pointer to one that is gone.
  lemma NeverDangles(r: Schedule, i: nat)
    requires Possible(r) && i < |Reached(r).threads| && Closing(Reached(r).threads[i])
    ensures Listed(Reached(r).state, Reached(r).threads[i].id)
    ensures Defined(Reached(r).state, Reached(r).threads[i])
  {
    Follow(r);
    assert Formed(Reached(r).state, Reached(r).threads[i]);
  }

  // ---- nothing is left out, nothing done twice ----

  function Requests(r: Schedule): seq<Event> {
    match r
    case Opened => []
    case More(p, a) => Requests(p) + if a.Begin? then [a.e] else []
  }

  function Events(r: Run): seq<Event> {
    match r
    case Start => []
    case Then(p, e) => Events(p) + [e]
  }

  predicate Undecided(pc: Pc) {
    || pc.LoginWait? || pc.LoggingIn? || pc.LoggingOut? || pc.Waiting? || pc.Inside?
    || pc.NumberWait? || pc.NumberIn? || pc.NumberOut? || pc.Owning?
  }

  function Ahead(e: Event): Pc -> int {
    (pc: Pc) => if Undecided(pc) && pc.e == e then 1 else 0
  }

  lemma AheadOnward(s: State, pc: Pc, e: Event)
    requires Defined(s, pc)
    ensures Ahead(e)(Onward(s, pc)) == Ahead(e)(pc) - Taken(Decides(pc) && pc.e == e)
  {
  }

  lemma AheadNext(v: Server, a: Action, e: Event)
    requires Can(v, a)
    ensures Total(Next(v, a).threads, Ahead(e)) == Total(v.threads, Ahead(e))
      + Taken(a.Begin? && a.e == e) - Taken(a.Go? && Decides(v.threads[a.i]) && v.threads[a.i].e == e)
  {
    match a {
      case Spawn => TotalAppend(v.threads, Resting, Ahead(e));
      case Begin(i, e') => TotalUpdate(v.threads, i, First(e'), Ahead(e));
      case Go(i) =>
        AheadOnward(v.state, v.threads[i], e);
        TotalUpdate(v.threads, i, Onward(v.state, v.threads[i]), Ahead(e));
    }
  }

  // Each request begun has its one place in the run, or is still ahead of its thread.
  lemma {:induction false} EveryRequestOnce(r: Schedule, e: Event)
    requires Possible(r)
    ensures multiset(Requests(r))[e] == multiset(Events(Trace(r)))[e] + Total(Reached(r).threads, Ahead(e))
  {
    match r
    case Opened =>
    case More(p, a) =>
      EveryRequestOnce(p, e);
      AheadNext(Reached(p), a, e);
      assert multiset(Requests(r))[e] == multiset(Requests(p))[e] + Taken(a.Begin? && a.e == e);
  }

  predicate Continues(r: Schedule, q: Schedule) {
    r == q || (r.More? && Continues(r.before, q))
  }

  // Places once taken are kept: a request served before another begins stays before it.
  lemma {:induction false} PlacesAreFinal(r: Schedule, q: Schedule)
    requires Possible(r) && Possible(q) && Continues(r, q)
    ensures Events(Trace(q)) <= Events(Trace(r))
  {
    if r != q {
      PlacesAreFinal(r.before, q);
    }
  }

  // ---- so the theorems about runs hold of the threads ----

  // Whenever auctionsMutex is free: every auction is held by its first highest eligible
  // offer, and all balances together are zero.
  lemma InterleavedAuctions(r: Schedule, id: int)
    requires Possible(r) && Reached(r).auctionsMutex > 0
    ensures Legal(Trace(r))
    ensures Accounts.Money(Reached(r).state.users) == 0
    ensures 1 <= id <= Reached(r).state.lastId ==>
      && Recorded(Reached(r).state, id)
      && var a := Record(Reached(r).state, id);
         HighestBid.Wins(HighestBid.Offers(Trace(r), id), a.winner, a.bid)
  {
    Serializable(r);
    Reachable(Trace(r));
    if 1 <= id <= Reached(r).state.lastId {
      assert Recorded(After(Trace(r)), id);
      HighestBid.HighestBidWins(Trace(r), id);
    }
  }
}
