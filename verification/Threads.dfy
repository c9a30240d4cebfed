// All threads of the server together: client threads that read messages under
// buffer_lock and insert jobs, job threads that remove them and then run handlers under
// the mutexes, the tick thread, and the thread that accepts and logs in. Each takes its
// steps in JobBuffer and in Locks; here they wait for the ring and for mutexes alike.
module Threads {
  import opened Seqs
  import JB = JobBuffer
  import Flow = JobFlow
  import L = Locks
  import LT = LockTheorems
  import Ring
  import M = AuctionModel

  // The job threads come first in `locks.threads`, then the tick thread and the accepting
  // thread, then the client threads.
  datatype State = State(buffer: JB.State, locks: L.System)

  function TickThread(s: State): nat { |s.buffer.consumers| }

  function AcceptThread(s: State): nat { |s.buffer.consumers| + 1 }

  function ClientThread(s: State, i: nat): nat { |s.buffer.consumers| + 2 + i }

  function Init(n: nat, jobThreads: nat): State {
    State(JB.Init(n, jobThreads), L.INIT.(threads := seq(jobThreads + 2, _ => L.Thread(L.Done, {}, L.IgnoredPath))))
  }

  datatype Action =
    | Connect
    | Message(i: nat, job: Ring.Job)     // a client thread starts reading a message
    | Work(path: L.Path)                 // a tick, or a login
    | Insert(i: nat)                     // a step of sbuf_insert
    | Remove(j: nat)                     // a step of sbuf_remove, or the end of processJob
    | Take(j: nat, path: L.Path)         // sbuf_remove returns, and processJob begins
    | Exec(k: nat)                       // the next instruction of a code path

  predicate Free(s: State, k: nat) {
    k < |s.locks.threads| && s.locks.threads[k].code.Done?
  }

  function Worker(s: State, path: L.Path): nat { if path.LoginPath? then AcceptThread(s) else TickThread(s) }

  predicate Can(s: State, a: Action) {
    match a
    case Connect => true
    case Message(i, job) =>
      JB.Can(s.buffer, JB.Receive(i, job)) && L.Can(s.locks, L.Begin(ClientThread(s, i), L.ReceivePath))
    case Work(path) => (path.TickPath? || path.LoginPath?) && L.Can(s.locks, L.Begin(Worker(s, path), path))
    case Insert(i) => JB.Can(s.buffer, JB.Produce(i)) && Free(s, ClientThread(s, i))
    case Remove(j) => JB.Can(s.buffer, JB.Consume(j)) && !s.buffer.consumers[j].Freeing? && Free(s, j)
    case Take(j, path) =>
      && JB.Can(s.buffer, JB.Consume(j)) && s.buffer.consumers[j].Freeing?
      && !path.TickPath? && !path.LoginPath? && L.Can(s.locks, L.Begin(j, path))
    case Exec(k) => L.Can(s.locks, L.Exec(k))
  }

  function Next(s: State, a: Action): State
    requires Can(s, a)
  {
    match a
    case Connect => State(JB.Next(s.buffer, JB.Connect), L.Next(s.locks, L.Spawn))
    case Message(i, job) =>
      State(JB.Next(s.buffer, JB.Receive(i, job)), L.Next(s.locks, L.Begin(ClientThread(s, i), L.ReceivePath)))
    case Work(path) => s.(locks := L.Next(s.locks, L.Begin(Worker(s, path), path)))
    case Insert(i) => s.(buffer := JB.Next(s.buffer, JB.Produce(i)))
    case Remove(j) => s.(buffer := JB.Next(s.buffer, JB.Consume(j)))
    case Take(j, path) => State(JB.Next(s.buffer, JB.Consume(j)), L.Next(s.locks, L.Begin(j, path)))
    case Exec(k) => s.(locks := L.Next(s.locks, L.Exec(k)))
  }

  // ---- the invariant ----

  // A thread is in a code path only while it is reading a message or processing a job.
  ghost predicate Matched(s: State) {
    && |s.locks.threads| == |s.buffer.consumers| + 2 + |s.buffer.producers|
    && (forall j :: 0 <= j < |s.buffer.consumers| ==> Free(s, j) || s.buffer.consumers[j].Processing?)
    && (forall i :: 0 <= i < |s.buffer.producers| ==> Free(s, ClientThread(s, i)) || s.buffer.producers[i].AtSlots?)
  }

  ghost predicate Inv(s: State) { JB.Inv(s.buffer) && L.Inv(s.locks) && Matched(s) }

  lemma LocksKept(s: L.System, a: L.Action)
    requires L.Inv(s) && L.Can(s, a)
    ensures L.Inv(L.Next(s, a))
  {
    match a {
      case Spawn => LT.SpawnKeepsInv(s);
      case Begin(i, path) => LT.BeginKeepsInv(s, i, path);
      case Exec(i) => LT.ExecKeepsInv(s, i);
    }
  }

  lemma MatchedNext(s: State, a: Action)
    requires JB.Inv(s.buffer) && Matched(s) && Can(s, a)
    ensures Matched(Next(s, a))
  {
    if a.Take? {
      assert s.buffer.consumers[a.j].item.Some?;
    }
  }

  lemma NextKeepsInv(s: State, a: Action)
    requires Inv(s) && Can(s, a)
    ensures Inv(Next(s, a))
  {
    MatchedNext(s, a);
    match a {
      case Connect => JB.NextKeepsInv(s.buffer, JB.Connect); LocksKept(s.locks, L.Spawn);
      case Message(i, job) =>
        JB.NextKeepsInv(s.buffer, JB.Receive(i, job));
        LocksKept(s.locks, L.Begin(ClientThread(s, i), L.ReceivePath));
      case Work(path) => LocksKept(s.locks, L.Begin(Worker(s, path), path));
      case Insert(i) => JB.NextKeepsInv(s.buffer, JB.Produce(i));
      case Remove(j) => JB.NextKeepsInv(s.buffer, JB.Consume(j));
      case Take(j, path) => JB.NextKeepsInv(s.buffer, JB.Consume(j)); LocksKept(s.locks, L.Begin(j, path));
      case Exec(k) => LocksKept(s.locks, L.Exec(k));
    }
  }

  // ---- runs ----

  datatype Run = Start(n: nat, jobThreads: nat) | Then(before: Run, action: Action)

  predicate Legal(r: Run)
    decreases r, 0
  {
    match r
    case Start(_, _) => true
    case Then(p, a) => Legal(p) && Can(After(p), a)
  }

  function After(r: Run): State
    requires Legal(r)
    decreases r, 1
  {
    match r
    case Start(n, jobThreads) => Init(n, jobThreads)
    case Then(p, a) => Next(After(p), a)
  }

  lemma InitLocks(n: nat, jobThreads: nat)
    ensures L.Inv(Init(n, jobThreads).locks)
  {
    var s := Init(n, jobThreads).locks;
    forall m: L.Mutex ensures m in s.sems && s.sems[m] == 1 && Total(s.threads, L.Holds(m)) == 0 {
      TotalZero(s.threads, L.Holds(m));
      match m case BufferLock => case AuctionsMutex => case UsersMutex => case AuctionIdMutex =>
    }
    TotalZero(s.threads, L.InFlight);
  }

  lemma {:induction false} Reachable(r: Run)
    requires Legal(r)
    ensures Inv(After(r))
  {
    match r
    case Start(n, jobThreads) =>
      JB.Reachable(JB.Start(n, jobThreads));
      InitLocks(n, jobThreads);
    case Then(p, a) =>
      Reachable(p);
      NextKeepsInv(After(p), a);
  }

  // Each thread runs the code that is its own: a client thread reads its messages under
  // buffer_lock, ticks and logins have their threads, and all else is done by job threads.
  ghost predicate InRole(s: State, k: nat)
    requires k < |s.locks.threads|
  {
    var t := s.locks.threads[k];
    t.code.Do? ==>
      if k < TickThread(s) then !t.work.TickPath? && !t.work.LoginPath?
      else if k == TickThread(s) then t.work.TickPath?
      else if k == AcceptThread(s) then t.work.LoginPath?
      else t.work == L.ReceivePath
  }

  lemma {:induction false} Roles(r: Run, k: nat)
    requires Legal(r) && k < |After(r).locks.threads|
    ensures InRole(After(r), k)
  {
    match r
    case Start(_, _) =>
    case Then(p, a) =>
      Reachable(p);
      if k < |After(p).locks.threads| {
        Roles(p, k);
      }
      RoleNext(After(p), a, k);
  }

  lemma RoleNext(s: State, a: Action, k: nat)
    requires Matched(s) && Can(s, a) && k < |Next(s, a).locks.threads|
    requires k < |s.locks.threads| ==> InRole(s, k)
    ensures InRole(Next(s, a), k)
  {
  }

  // ---- nobody waits in vain ----

  // A step of a thread at work, as against new work for it.
  predicate AtWork(a: Action) { a.Insert? || a.Remove? || a.Take? || a.Exec? }

  // Nothing to do: the ring empty, nobody inserting or processing, no code path begun and
  // not finished.
  ghost predicate Idle(s: State) { JB.Idle(s.buffer) && LT.Quiet(s.locks) }

  // No thread of the server ever waits for good, be it for a slot, a job or a mutex: as
  // long as there is anything to do, some thread can go on.
  lemma NobodyStuck(r: Run)
    requires Legal(r) && After(r).buffer.ring.n() > 0 && |After(r).buffer.consumers| > 0
    ensures Idle(After(r)) <==> forall a :: AtWork(a) ==> !Can(After(r), a)
  {
    Reachable(r);
    StuckIsIdle(After(r));
  }

  lemma StuckIsIdle(s: State)
    requires Inv(s) && s.buffer.ring.n() > 0 && |s.buffer.consumers| > 0
    ensures Idle(s) <==> forall a :: AtWork(a) ==> !Can(s, a)
  {
    if Idle(s) {
      IdleStops(s);
    } else {
      var a := SomebodyWorks(s);
    }
  }

  lemma IdleStops(s: State)
    requires Inv(s) && s.buffer.ring.n() > 0 && |s.buffer.consumers| > 0 && Idle(s)
    ensures forall a :: AtWork(a) ==> !Can(s, a)
  {
    JB.StuckIsIdle(s.buffer);
    forall a | AtWork(a) ensures !Can(s, a) {
      match a {
        case Insert(i) => assert !JB.Can(s.buffer, JB.Produce(i));
        case Remove(j) => assert !JB.Can(s.buffer, JB.Consume(j));
        case Take(j, _) => assert !JB.Can(s.buffer, JB.Consume(j));
        case Exec(_) =>
      }
    }
  }

  lemma SomebodyWorks(s: State) returns (a: Action)
    requires Inv(s) && s.buffer.ring.n() > 0 && |s.buffer.consumers| > 0 && !Idle(s)
    ensures AtWork(a) && Can(s, a)
  {
    if !LT.Quiet(s.locks) {
      var k :| 0 <= k < |s.locks.threads| && !s.locks.threads[k].code.Done?;
      var chain := LT.SomebodyMoves(s.locks, k);
      a := Exec(chain[|chain| - 1]);
    } else {
      JB.StuckIsIdle(s.buffer);
      if i :| 0 <= i < |s.buffer.producers| && JB.Can(s.buffer, JB.Produce(i)) {
        a := Insert(i);
      } else {
        var j :| 0 <= j < |s.buffer.consumers| && JB.Can(s.buffer, JB.Consume(j));
        a := if s.buffer.consumers[j].Freeing? then Take(j, L.IgnoredPath) else Remove(j);
      }
    }
  }

  // ---- all work is done in the end ----

  // A removed job may start a code path, of fewer than twelve instructions.
  function StepsLeft(s: State): int {
    12 * Flow.StepsLeft(s.buffer) + Total(s.locks.threads, LT.WorkLeft)
  }

  lemma PathLength(path: L.Path)
    ensures LT.Length(L.CodeOf(path)) < 12
  {
    var unlock := L.Do(L.V(L.AuctionsMutex), L.Done);
    var end := L.Do(L.Use(L.AuctionsMutex), unlock);
    assert LT.Length(unlock) == 1 && LT.Length(end) == 2;
    match path {
      case LoginPath(fd, name, password) =>
        var out := L.Do(L.V(L.UsersMutex), L.Done);
        assert LT.Length(out) == 1;
        var login := L.Do(L.P(L.UsersMutex), L.Do(L.DoLogin(fd, name, password), out));
        assert LT.Length(login) == 3;
        GuardedLength(L.BufferLock, L.BufferLock, login);
      case ReceivePath => GuardedLength(L.BufferLock, L.BufferLock, L.Done);
      case UsersQueryPath => GuardedLength(L.UsersMutex, L.UsersMutex, L.Done);
      case AuctionsPath => GuardedLength(L.AuctionsMutex, L.AuctionsMutex, L.Done);
      case CreatePath => NestedLength(L.AuctionIdMutex);
      case RaisePath => NestedLength(L.AuctionsMutex);
      case BuyPath(a) => CloseLength(a, end);
      case TickPath(Some(a)) => CloseLength(a, end);
      case _ => assert LT.Length(L.Done) == 0;
    }
  }

  lemma GuardedLength(m: L.Mutex, d: L.Mutex, next: L.Code)
    ensures LT.Length(L.Guarded(m, d, next)) == 3 + LT.Length(next)
  {
    assert LT.Length(L.Do(L.Use(d), L.Do(L.V(m), next))) == 1 + LT.Length(L.Do(L.V(m), next));
  }

  lemma NestedLength(d: L.Mutex)
    ensures LT.Length(L.NestedIds(d)) == 7
  {
    var end := L.Do(L.Use(L.AuctionsMutex), L.Do(L.V(L.AuctionsMutex), L.Done));
    assert LT.Length(L.Do(L.V(L.AuctionsMutex), L.Done)) == 1;
    GuardedLength(L.AuctionIdMutex, d, end);
    assert LT.Length(L.Do(L.Use(L.AuctionsMutex), L.Guarded(L.AuctionIdMutex, d, end))) == 6;
  }

  lemma CloseLength(a: M.Auction, next: L.Code)
    ensures LT.Length(L.CloseCode(a, next)) <= 7 + LT.Length(next)
  {
    var credit := L.CreditCode(a, next);
    assert LT.Length(L.Do(L.V(L.UsersMutex), L.Do(L.Use(L.AuctionsMutex), next))) == 2 + LT.Length(next);
    assert LT.Length(credit) == 4 + LT.Length(next);
    assert LT.Length(L.Do(L.V(L.UsersMutex), credit)) == 5 + LT.Length(next);
  }

  lemma StepsShrink(s: State, a: Action)
    requires Inv(s) && Can(s, a) && AtWork(a)
    ensures StepsLeft(Next(s, a)) < StepsLeft(s)
  {
    match a {
      case Insert(i) => Flow.StepsShrink(s.buffer, JB.Produce(i));
      case Remove(j) => Flow.StepsShrink(s.buffer, JB.Consume(j));
      case Take(j, path) =>
        Flow.StepsShrink(s.buffer, JB.Consume(j));
        PathLength(path);
        TotalUpdate(s.locks.threads, j, Next(s, a).locks.threads[j], LT.WorkLeft);
      case Exec(k) => TotalUpdate(s.locks.threads, k, Next(s, a).locks.threads[k], LT.WorkLeft);
    }
  }

  lemma StepsLeftBound(s: State)
    requires Inv(s)
    ensures StepsLeft(s) >= 0
  {
    TotalBound(s.buffer.producers, Flow.ClientSteps);
    TotalBound(s.buffer.consumers, Flow.WorkerSteps);
    TotalBound(s.locks.threads, LT.WorkLeft);
  }

  // q continues r without new work: no connection, message, login or tick.
  predicate Finishes(r: Run, q: Run) {
    r == q || (q.Then? && AtWork(q.action) && Finishes(r, q.before))
  }

  function Since(r: Run, q: Run): nat
    requires Finishes(r, q)
  {
    if r == q then 0 else 1 + Since(r, q.before)
  }

  // However the threads are scheduled, they come to an end: without new work they take at
  // most StepsLeft steps.
  lemma {:induction false} WorkEnds(r: Run, q: Run)
    requires Legal(r) && Legal(q) && Finishes(r, q)
    ensures Since(r, q) <= StepsLeft(After(r)) - StepsLeft(After(q)) <= StepsLeft(After(r))
  {
    Reachable(q);
    StepsLeftBound(After(q));
    if r != q {
      WorkEnds(r, q.before);
      Reachable(q.before);
      StepsShrink(After(q.before), q.action);
    }
  }

  // And where they can take no more, every job has been removed and processed, in the order
  // of insertion, and all mutexes are free.
  lemma AllDone(q: Run)
    requires Legal(q) && After(q).buffer.ring.n() > 0 && |After(q).buffer.consumers| > 0
    requires forall a :: AtWork(a) ==> !Can(After(q), a)
    ensures Idle(After(q))
    ensures After(q).buffer.removed == JB.Somes(After(q).buffer.inserted)
    ensures forall m: L.Mutex :: m in After(q).locks.sems && After(q).locks.sems[m] == 1
  {
    NobodyStuck(q);
    Reachable(q);
    var s := After(q);
    JB.RemovedThenQueued(s.buffer);
    assert Ring.Queue(s.buffer.ring) == [];
    forall m: L.Mutex ensures m in s.locks.sems && s.locks.sems[m] == 1 {
      forall k | 0 <= k < |s.locks.threads| ensures L.Holds(m)(s.locks.threads[k]) == 0 {
        assert L.Disciplined(s.locks.threads[k].code, s.locks.threads[k].held);
      }
      TotalZero(s.locks.threads, L.Holds(m));
    }
  }
}
