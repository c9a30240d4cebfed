// What becomes of each job, thread by thread, on its way through the buffer.
module JobFlow {
  import opened Wrappers
  import opened Seqs
  import opened Ring
  import opened JobBuffer

  // The entries that carry somebody's tag, in order.
  function Select<T>(xs: seq<T>, tags: seq<nat>, who: nat): seq<T>
    requires |xs| == |tags|
  {
    if |xs| == 0 then []
    else
      var n := |xs| - 1;
      Select(xs[..n], tags[..n], who) + if tags[n] == who then [xs[n]] else []
  }

  lemma SelectSnoc<T>(xs: seq<T>, tags: seq<nat>, x: T, tag: nat, who: nat)
    requires |xs| == |tags|
    ensures Select(xs + [x], tags + [tag], who) == Select(xs, tags, who) + if tag == who then [x] else []
  {
    assert (xs + [x])[..|xs|] == xs && (tags + [tag])[..|xs|] == tags;
  }

  // ---- client threads ----

  // The jobs a client thread has received, oldest first.
  function Received(r: Run, i: nat): seq<Job> {
    match r
    case Start(_, _) => []
    case Then(p, a) => Received(p, i) + if a.Receive? && a.i == i then [a.job] else []
  }

  // Which thread inserted each job, in mutex order.
  function Inserters(r: Run): seq<nat>
    requires Legal(r)
  {
    match r
    case Start(_, _) => []
    case Then(p, a) =>
      Inserters(p) + if a.Produce? && After(p).producers[a.i].Writing? then [a.i] else []
  }

  function ToInsert(s: State, i: nat): seq<Job> {
    if i < |s.producers| && (s.producers[i].AtSlots? || s.producers[i].AtMutex? || s.producers[i].Writing?)
    then [s.producers[i].job] else []
  }

  lemma {:induction false} EachInserterKnown(r: Run)
    requires Legal(r)
    ensures |Inserters(r)| == |After(r).inserted|
  {
    if r.Then? {
      EachInserterKnown(r.before);
    }
  }

  // A client thread inserts the jobs it receives, each once and in order: those it has
  // received are those it has inserted, and the one in its hands.
  lemma {:induction false} ClientsInOrder(r: Run, i: nat)
    requires Legal(r)
    ensures |Inserters(r)| == |After(r).inserted|
    ensures Received(r, i) == Select(After(r).inserted, Inserters(r), i) + ToInsert(After(r), i)
  {
    EachInserterKnown(r);
    match r
    case Start(_, _) =>
    case Then(p, a) =>
      ClientsInOrder(p, i);
      ClientStep(After(p), a, i);
      if a.Produce? && After(p).producers[a.i].Writing? {
        SelectSnoc(After(p).inserted, Inserters(p), After(p).producers[a.i].job, a.i, i);
      } else {
        assert Inserters(r) == Inserters(p);
      }
  }

  // Only receiving puts a job into a client thread's hands, only writing takes it out.
  lemma ClientStep(s: State, a: Action, i: nat)
    requires Can(s, a)
    ensures var t := Next(s, a);
            if a.Receive? && a.i == i then ToInsert(s, i) == [] && ToInsert(t, i) == [a.job] && t.inserted == s.inserted
            else if a.Produce? && s.producers[a.i].Writing? then
              && t.inserted == s.inserted + [s.producers[a.i].job]
              && ToInsert(s, i) == (if a.i == i then [s.producers[i].job] else []) + ToInsert(t, i)
            else ToInsert(t, i) == ToInsert(s, i) && t.inserted == s.inserted
  {
  }

  // How often a client thread has posted a job.
  function Posts(r: Run, i: nat): nat
    requires Legal(r)
  {
    match r
    case Start(_, _) => 0
    case Then(p, a) => Posts(p, i) + if a.Produce? && a.i == i && After(p).producers[i].Posting? then 1 else 0
  }

  lemma {:induction false} NotConnected(r: Run, i: nat)
    requires Legal(r) && i >= |After(r).producers|
    ensures Received(r, i) == [] && Posts(r, i) == 0
  {
    if r.Then? {
      NotConnected(r.before, i);
    }
  }

  // A client thread serves one message after another, up to the first logout: before it
  // takes the next it has inserted and posted the last; it returns when that was a logout,
  // and only then, and otherwise listens on.
  ghost predicate Life(jobs: seq<Job>, posts: nat, p: Producer) {
    var n := |jobs|;
    && (forall k :: 0 <= k < n - 1 ==> jobs[k].msgType != 0x11)
    && (p.Returned? <==> n > 0 && jobs[n - 1].msgType == 0x11 && posts == n)
    && (p.Listening? <==> (n > 0 ==> jobs[n - 1].msgType != 0x11) && posts == n)
    && (Busy(p) ==> n > 0 && posts == n - 1 && p.job == jobs[n - 1])
  }

  lemma {:induction false} ClientLife(r: Run, i: nat)
    requires Legal(r) && i < |After(r).producers|
    ensures Life(Received(r, i), Posts(r, i), After(r).producers[i])
  {
    match r
    case Then(p, a) =>
      if i < |After(p).producers| {
        ClientLife(p, i);
        LifeStep(After(p), a, i, Received(p, i), Posts(p, i));
      } else {
        NotConnected(p, i);
      }
  }

  lemma LifeStep(s: State, a: Action, i: nat, jobs: seq<Job>, posts: nat)
    requires Can(s, a) && i < |s.producers| && Life(jobs, posts, s.producers[i])
    ensures i < |Next(s, a).producers|
    ensures Life(
      jobs + if a.Receive? && a.i == i then [a.job] else [],
      posts + if a.Produce? && a.i == i && s.producers[i].Posting? then 1 else 0,
      Next(s, a).producers[i])
  {
    if a.Receive? && a.i == i {
      assert (jobs + [a.job])[..|jobs|] == jobs;
    } else {
      assert jobs + [] == jobs;
    }
  }

  // ---- job threads ----

  // Which thread removed each job, in mutex order.
  function Removers(r: Run): seq<nat>
    requires Legal(r)
  {
    match r
    case Start(_, _) => []
    case Then(p, a) =>
      Removers(p)
      + if a.Consume? && After(p).consumers[a.j].Reading? && After(p).ring.n() > 0 then [a.j] else []
  }

  // The jobs a job thread has processed, oldest first.
  function Processed(r: Run, j: nat): seq<Option<Job>>
    requires Legal(r)
  {
    match r
    case Start(_, _) => []
    case Then(p, a) =>
      Processed(p, j)
      + if a.Consume? && a.j == j && After(p).consumers[j].Processing? then [Some(After(p).consumers[j].job)] else []
  }

  function ToProcess(s: State, j: nat): seq<Option<Job>> {
    if j >= |s.consumers| then []
    else match s.consumers[j]
      case Unlocking(item) => [item]
      case Freeing(item) => [item]
      case Processing(job) => [Some(job)]
      case _ => []
  }

  lemma {:induction false} EachRemoverKnown(r: Run)
    requires Legal(r)
    ensures |Removers(r)| == |After(r).removed|
  {
    if r.Then? {
      EachRemoverKnown(r.before);
    }
  }

  // A job thread processes the jobs it removes, each once and in order: those it has
  // removed are those it has processed, and the one in its hands.
  lemma {:induction false} WorkersInOrder(r: Run, j: nat)
    requires Legal(r)
    ensures |Removers(r)| == |After(r).removed|
    ensures Select(After(r).removed, Removers(r), j) == Processed(r, j) + ToProcess(After(r), j)
  {
    EachRemoverKnown(r);
    match r
    case Start(_, _) =>
    case Then(p, a) =>
      WorkersInOrder(p, j);
      JobBuffer.Reachable(p);
      WorkerStep(After(p), a, j);
      if a.Consume? && After(p).consumers[a.j].Reading? {
        SelectSnoc(After(p).removed, Removers(p), Read(After(p).ring).1, a.j, j);
      } else {
        assert Removers(r) == Removers(p);
      }
  }

  lemma WorkerStep(s: State, a: Action, j: nat)
    requires Inv(s) && Can(s, a)
    ensures var t := Next(s, a);
            if a.Consume? && s.consumers[a.j].Reading? then
              && s.ring.n() > 0 && t.removed == s.removed + [Read(s.ring).1]
              && ToProcess(t, j) == ToProcess(s, j) + if a.j == j then [Read(s.ring).1] else []
            else
              && t.removed == s.removed
              && ToProcess(s, j) == (if a.Consume? && a.j == j && s.consumers[j].Processing?
                                     then [Some(s.consumers[j].job)] else []) + ToProcess(t, j)
  {
    if a.Consume? && s.consumers[a.j].Reading? {
      SomethingToRead(s, a.j);
    }
  }

  // ---- every job is done in the end ----

  // The steps still to be taken by a thread, and by the job threads for each posted item.
  function ClientSteps(p: Producer): int {
    match p
    case AtSlots(_) => 11
    case AtMutex(_) => 10
    case Writing(_) => 9
    case Releasing(_) => 8
    case Posting(_) => 7
    case _ => 0
  }

  function WorkerSteps(c: Consumer): int {
    match c
    case AtItems => 0
    case AtLock => 5
    case Reading => 4
    case Unlocking(_) => 3
    case Freeing(_) => 2
    case Processing(_) => 1
  }

  function StepsLeft(s: State): int {
    Total(s.producers, ClientSteps) + Total(s.consumers, WorkerSteps) + 6 * s.items
  }

  lemma StepsShrink(s: State, a: Action)
    requires Inv(s) && Can(s, a) && (a.Produce? || a.Consume?)
    ensures StepsLeft(Next(s, a)) == StepsLeft(s) - 1
  {
    match a {
      case Produce(i) => TotalUpdate(s.producers, i, Next(s, a).producers[i], ClientSteps);
      case Consume(j) =>
        if s.consumers[j].Reading? {
          SomethingToRead(s, j);
        }
        TotalUpdate(s.consumers, j, Next(s, a).consumers[j], WorkerSteps);
    }
  }

  lemma NoStepsLeft(s: State)
    requires Inv(s) && s.ring.n() > 0 && |s.consumers| > 0
    ensures StepsLeft(s) >= 0
    ensures StepsLeft(s) == 0 <==> NobodyCanMove(s)
  {
    TotalBound(s.producers, ClientSteps);
    TotalBound(s.consumers, WorkerSteps);
    StuckIsIdle(s);
    if Idle(s) {
      TotalZero(s.producers, ClientSteps);
      TotalZero(s.consumers, WorkerSteps);
      assert !Can(s, Consume(0));
    }
  }

  // q continues r without a new connection or message.
  predicate Drains(r: Run, q: Run) {
    r == q || (q.Then? && (q.action.Produce? || q.action.Consume?) && Drains(r, q.before))
  }

  function Since(r: Run, q: Run): nat
    requires Drains(r, q)
  {
    if r == q then 0 else 1 + Since(r, q.before)
  }

  lemma {:induction false} CountsDown(r: Run, q: Run)
    requires Legal(r) && Legal(q) && Drains(r, q)
    ensures Since(r, q) + StepsLeft(After(q)) == StepsLeft(After(r))
  {
    if r != q {
      CountsDown(r, q.before);
      JobBuffer.Reachable(q.before);
      StepsShrink(After(q.before), q.action);
    }
  }

  // However the threads are scheduled, every job is done: without new messages there are
  // exactly StepsLeft steps to come, until all are taken some thread can go on, and then
  // all jobs inserted have been removed in order, and nobody holds one.
  lemma AlwaysDrains(r: Run, q: Run)
    requires Legal(r) && Legal(q) && Drains(r, q)
    requires After(q).ring.n() > 0 && |After(q).consumers| > 0
    ensures Since(r, q) + StepsLeft(After(q)) == StepsLeft(After(r)) && StepsLeft(After(q)) >= 0
    ensures Since(r, q) == StepsLeft(After(r)) <==> NobodyCanMove(After(q))
    ensures NobodyCanMove(After(q)) ==>
      && After(q).removed == Somes(After(q).inserted)
      && (forall i :: ToInsert(After(q), i) == [])
      && (forall j :: ToProcess(After(q), j) == [])
  {
    CountsDown(r, q);
    JobBuffer.Reachable(q);
    NoStepsLeft(After(q));
    StuckIsIdle(After(q));
    if NobodyCanMove(After(q)) {
      FirstInFirstOut(q);
      assert Queue(After(q).ring) == [];
    }
  }
}
