// The shared job buffer as an interleaving of client and job threads: every
// semaphore operation, every write and every read of sbuf_insert and sbuf_remove is
// a step of its own. Any number of client threads (producers) and job threads
// (consumers) take part.
module JobBuffer {
  import opened Wrappers
  import opened Seqs
  import opened Ring

  const LOGOUT := 0x11

  // Where a client thread is in process_client / sbuf_insert.
  datatype Producer =
    | Listening
    | AtSlots(job: Job)          // P(slots)
    | AtMutex(job: Job)          // P(mutex)
    | Writing(job: Job)          // the write
    | Releasing(job: Job)        // V(mutex)
    | Posting(job: Job)          // V(items)
    | Returned                   // the client logged out

  // Where a job thread is in run_jobs / sbuf_remove.
  datatype Consumer =
    | AtItems                    // P(items)
    | AtLock                     // P(mutex)
    | Reading                    // the n == 0 test and the read
    | Unlocking(item: Option<Job>)   // V(mutex)
    | Freeing(item: Option<Job>)     // V(slots)
    | Processing(job: Job)

  datatype State = State(
    ring: Ring, mutex: int, slots: int, items: int,
    producers: seq<Producer>, consumers: seq<Consumer>,
    inserted: seq<Job>, removed: seq<Option<Job>>)   // histories, in mutex order

  function Init(n: nat, consumers: nat): State {
    State(Ring(seq(n, _ => None), 0, 0), 1, n, 0, [], seq(consumers, _ => AtItems), [], [])
  }

  datatype Action =
    | Connect                    // run_server starts a client thread
    | Receive(i: nat, job: Job)  // a client thread has read a message
    | Produce(i: nat)
    | Consume(j: nat)

  predicate Can(s: State, a: Action) {
    match a
    case Connect => true
    case Receive(i, _) => i < |s.producers| && s.producers[i].Listening?
    case Produce(i) => i < |s.producers| && ProducerReady(s, s.producers[i])
    case Consume(j) => j < |s.consumers| && ConsumerReady(s, s.consumers[j])
  }

  predicate ProducerReady(s: State, p: Producer) {
    match p
    case AtSlots(_) => s.slots > 0
    case AtMutex(_) => s.mutex > 0
    case Writing(_) => s.ring.n() > 0        // % 0 would trap
    case Releasing(_) => true
    case Posting(_) => true
    case _ => false
  }

  predicate ConsumerReady(s: State, c: Consumer) {
    match c
    case AtItems => s.items > 0
    case AtLock => s.mutex > 0
    case _ => true
  }

  function Next(s: State, a: Action): State
    requires Can(s, a)
  {
    match a
    case Connect => s.(producers := s.producers + [Listening])
    case Receive(i, job) => s.(producers := s.producers[i := AtSlots(job)])
    case Produce(i) => Producing(s, i)
    case Consume(j) => Consuming(s, j)
  }

  function Producing(s: State, i: nat): State
    requires Can(s, Produce(i))
  {
    match s.producers[i]
    case AtSlots(job) => s.(slots := s.slots - 1, producers := s.producers[i := AtMutex(job)])
    case AtMutex(job) => s.(mutex := s.mutex - 1, producers := s.producers[i := Writing(job)])
    case Writing(job) =>
      s.(ring := Write(s.ring, job), inserted := s.inserted + [job], producers := s.producers[i := Releasing(job)])
    case Releasing(job) => s.(mutex := s.mutex + 1, producers := s.producers[i := Posting(job)])
    case Posting(job) =>
      s.(items := s.items + 1, producers := s.producers[i := if job.msgType == LOGOUT then Returned else Listening])
  }

  function Consuming(s: State, j: nat): State
    requires Can(s, Consume(j))
  {
    match s.consumers[j]
    case AtItems => s.(items := s.items - 1, consumers := s.consumers[j := AtLock])
    case AtLock => s.(mutex := s.mutex - 1, consumers := s.consumers[j := Reading])
    case Reading =>
      if s.ring.n() == 0 then s.(consumers := s.consumers[j := AtItems])      // returns NULL, mutex still held
      else
        var (ring, item) := Read(s.ring);
        s.(ring := ring, removed := s.removed + [item], consumers := s.consumers[j := Unlocking(item)])
    case Unlocking(item) => s.(mutex := s.mutex + 1, consumers := s.consumers[j := Freeing(item)])
    case Freeing(item) =>
      s.(slots := s.slots + 1, consumers := s.consumers[j := if item.None? then AtItems else Processing(item.value)])
    case Processing(_) => s.(consumers := s.consumers[j := AtItems])
  }

  // ---- accounting ----

  function Claims(p: Producer): int { if p.AtMutex? || p.Writing? then 1 else 0 }        // has a slot, not yet written
  function Wrote(p: Producer): int { if p.Releasing? || p.Posting? then 1 else 0 }       // written, not yet posted
  function HoldsP(p: Producer): int { if p.Writing? || p.Releasing? then 1 else 0 }

  function Takes(c: Consumer): int { if c.AtLock? || c.Reading? then 1 else 0 }          // has an item, not yet read
  function Took(c: Consumer): int { if c.Unlocking? || c.Freeing? then 1 else 0 }        // read, not yet freed
  function HoldsC(c: Consumer): int { if c.Reading? || c.Unlocking? then 1 else 0 }

  ghost predicate Accounts(s: State) {
    var filled := s.ring.rear - s.ring.front;
    && s.slots >= 0 && s.items >= 0 && s.mutex >= 0
    && s.slots == s.ring.n() - filled - Total(s.producers, Claims) - Total(s.consumers, Took)
    && s.items == filled - Total(s.producers, Wrote) - Total(s.consumers, Takes)
    && s.mutex == 1 - Total(s.producers, HoldsP) - Total(s.consumers, HoldsC)
  }

  ghost predicate Histories(s: State) {
    && s.ring.front == |s.removed| && s.ring.rear == |s.inserted|
    && s.ring.front <= s.ring.rear <= s.ring.front + s.ring.n()
    && (forall k :: 0 <= k < |s.removed| ==> s.removed[k] == Some(s.inserted[k]))
    && Holds(s.ring, s.inserted)
  }

  // The ring holds the last jobs of those inserted.
  ghost predicate Holds(r: Ring, jobs: seq<Job>)
    requires r.front <= r.rear == |jobs| && (r.n() == 0 ==> r.front == r.rear)
  {
    forall k :: 0 <= k < |Queue(r)| ==> Queue(r)[k] == Some(jobs[r.front + k])
  }

  // A job thread never holds the NULL of an empty cell.
  ghost predicate NoNulls(s: State) {
    forall j :: 0 <= j < |s.consumers| ==>
      (s.consumers[j].Unlocking? || s.consumers[j].Freeing? ==> s.consumers[j].item.Some?)
  }

  ghost predicate Inv(s: State) {
    Accounts(s) && Histories(s) && NoNulls(s)
  }

  lemma TotalsAreNatural(s: State)
    ensures Total(s.producers, Claims) >= 0 && Total(s.producers, Wrote) >= 0 && Total(s.producers, HoldsP) >= 0
    ensures Total(s.consumers, Takes) >= 0 && Total(s.consumers, Took) >= 0 && Total(s.consumers, HoldsC) >= 0
  {
    TotalBound(s.producers, Claims);
    TotalBound(s.producers, Wrote);
    TotalBound(s.producers, HoldsP);
    TotalBound(s.consumers, Takes);
    TotalBound(s.consumers, Took);
    TotalBound(s.consumers, HoldsC);
  }

  lemma ProducerMoves(ps: seq<Producer>, i: nat, p: Producer)
    requires i < |ps|
    ensures Total(ps[i := p], Claims) == Total(ps, Claims) - Claims(ps[i]) + Claims(p)
    ensures Total(ps[i := p], Wrote) == Total(ps, Wrote) - Wrote(ps[i]) + Wrote(p)
    ensures Total(ps[i := p], HoldsP) == Total(ps, HoldsP) - HoldsP(ps[i]) + HoldsP(p)
    ensures Claims(ps[i]) <= Total(ps, Claims) && Wrote(ps[i]) <= Total(ps, Wrote)
  {
    TotalUpdate(ps, i, p, Claims);
    TotalUpdate(ps, i, p, Wrote);
    TotalUpdate(ps, i, p, HoldsP);
    TotalBound(ps, Claims);
    TotalBound(ps, Wrote);
  }

  lemma ConsumerMoves(cs: seq<Consumer>, j: nat, c: Consumer)
    requires j < |cs|
    ensures Total(cs[j := c], Takes) == Total(cs, Takes) - Takes(cs[j]) + Takes(c)
    ensures Total(cs[j := c], Took) == Total(cs, Took) - Took(cs[j]) + Took(c)
    ensures Total(cs[j := c], HoldsC) == Total(cs, HoldsC) - HoldsC(cs[j]) + HoldsC(c)
    ensures Takes(cs[j]) <= Total(cs, Takes) && Took(cs[j]) <= Total(cs, Took)
  {
    TotalUpdate(cs, j, c, Takes);
    TotalUpdate(cs, j, c, Took);
    TotalUpdate(cs, j, c, HoldsC);
    TotalBound(cs, Takes);
    TotalBound(cs, Took);
  }

  // A thread about to write has room; a thread about to read has something to read.
  lemma RoomToWrite(s: State, i: nat)
    requires Accounts(s) && i < |s.producers| && s.producers[i].Writing?
    ensures s.ring.rear - s.ring.front < s.ring.n()
  {
    TotalsAreNatural(s);
    TotalBound(s.producers, Claims);
  }

  lemma SomethingToRead(s: State, j: nat)
    requires Accounts(s) && j < |s.consumers| && s.consumers[j].Reading?
    ensures s.ring.front < s.ring.rear
  {
    TotalsAreNatural(s);
    TotalBound(s.consumers, Takes);
  }

  lemma ProducingKeepsAccounts(s: State, i: nat)
    requires Inv(s) && Can(s, Produce(i))
    ensures Accounts(Producing(s, i))
  {
    ProducerMoves(s.producers, i, Producing(s, i).producers[i]);
  }

  lemma ConsumingKeepsAccounts(s: State, j: nat)
    requires Inv(s) && Can(s, Consume(j))
    ensures Accounts(Consuming(s, j))
  {
    if s.consumers[j].Reading? {
      SomethingToRead(s, j);
    }
    ConsumerMoves(s.consumers, j, Consuming(s, j).consumers[j]);
  }

  lemma WritingKeepsHistories(s: State, i: nat)
    requires Inv(s) && Can(s, Produce(i)) && s.producers[i].Writing?
    ensures Histories(Producing(s, i))
  {
    RoomToWrite(s, i);
    WriteEnqueues(s.ring, s.producers[i].job);
  }

  lemma ReadsOldest(s: State, j: nat)
    requires Accounts(s) && Histories(s) && j < |s.consumers| && s.consumers[j].Reading?
    ensures s.ring.n() > 0 && s.ring.front < |s.inserted|
    ensures Read(s.ring).1 == Some(s.inserted[s.ring.front])
    ensures Queue(s.ring) == [Read(s.ring).1] + Queue(Read(s.ring).0)
  {
    SomethingToRead(s, j);
    ReadDequeues(s.ring);
    assert Queue(s.ring)[0] == Some(s.inserted[s.ring.front]);
  }

  lemma ReadingKeepsHistories(s: State, j: nat)
    requires Inv(s) && Can(s, Consume(j)) && s.consumers[j].Reading?
    ensures Histories(Consuming(s, j)) && NoNulls(Consuming(s, j))
  {
    ReadsOldest(s, j);
    ReadKeepsHolds(s.ring, s.inserted);
    assert Holds(Consuming(s, j).ring, s.inserted);
  }

  lemma ReadKeepsHolds(r: Ring, jobs: seq<Job>)
    requires r.n() > 0 && r.front < r.rear == |jobs| && Holds(r, jobs)
    ensures Holds(Read(r).0, jobs)
  {
    ReadDequeues(r);
    var q, t := Queue(r), Queue(Read(r).0);
    forall k | 0 <= k < |t| ensures t[k] == Some(jobs[r.front + 1 + k]) {
      assert t[k] == q[k + 1];
    }
  }

  lemma ArrivalKeepsInv(s: State, a: Action)
    requires Inv(s) && Can(s, a) && (a.Connect? || a.Receive?)
    ensures Inv(Next(s, a))
  {
    if a.Connect? {
      TotalAppend(s.producers, Listening, Claims);
      TotalAppend(s.producers, Listening, Wrote);
      TotalAppend(s.producers, Listening, HoldsP);
    } else {
      ProducerMoves(s.producers, a.i, AtSlots(a.job));
    }
  }

  lemma NextKeepsInv(s: State, a: Action)
    requires Inv(s) && Can(s, a)
    ensures Inv(Next(s, a))
  {
    match a {
      case Connect => ArrivalKeepsInv(s, a);
      case Receive(_, _) => ArrivalKeepsInv(s, a);
      case Produce(i) =>
        ProducingKeepsAccounts(s, i);
        ProducingKeepsHistories(s, i);
      case Consume(j) =>
        ConsumingKeepsAccounts(s, j);
        ConsumingKeepsHistories(s, j);
    }
  }

  lemma ProducingKeepsHistories(s: State, i: nat)
    requires Inv(s) && Can(s, Produce(i))
    ensures Histories(Producing(s, i)) && NoNulls(Producing(s, i))
  {
    if s.producers[i].Writing? {
      WritingKeepsHistories(s, i);
    }
  }

  lemma ConsumingKeepsHistories(s: State, j: nat)
    requires Inv(s) && Can(s, Consume(j))
    ensures Histories(Consuming(s, j)) && NoNulls(Consuming(s, j))
  {
    if s.consumers[j].Reading? {
      ReadingKeepsHistories(s, j);
    }
  }

  // ---- runs ----

  datatype Run = Start(n: nat, consumers: nat) | Then(before: Run, action: Action)

  predicate Legal(r: Run)
    decreases r, 0
  {
    match r
    case Start(_, _) => true
    case Then(p, a) => Legal(p) && Can(After(p), a)
  }

  function After(r: Run): State
    requires Legal(r)
    decreases r, 1
  {
    match r
    case Start(n, consumers) => Init(n, consumers)
    case Then(p, a) => Next(After(p), a)
  }

  lemma {:induction false} Reachable(r: Run)
    requires Legal(r)
    ensures Inv(After(r))
  {
    match r
    case Start(n, consumers) =>
      TotalZero(Init(n, consumers).consumers, Takes);
      TotalZero(Init(n, consumers).consumers, Took);
      TotalZero(Init(n, consumers).consumers, HoldsC);
    case Then(p, a) =>
      Reachable(p);
      NextKeepsInv(After(p), a);
  }

  // ---- the theorems ----

  // Every slot is accounted for: free, filled and posted, or in some thread's hands.
  lemma SlotsAccountedFor(r: Run)
    requires Legal(r)
    ensures var s := After(r);
            && s.slots + s.items
               + Total(s.producers, Claims) + Total(s.producers, Wrote)
               + Total(s.consumers, Takes) + Total(s.consumers, Took) == s.ring.n()
            && 0 <= s.ring.rear - s.ring.front <= s.ring.n()
  {
    Reachable(r);
  }

  function Somes(jobs: seq<Job>): seq<Option<Job>> {
    seq(|jobs|, k requires 0 <= k < |jobs| => Some(jobs[k]))
  }

  // Jobs come out in the order they went in: those removed, and then those the ring
  // holds, are exactly those inserted.
  lemma FirstInFirstOut(r: Run)
    requires Legal(r)
    ensures var s := After(r);
            && s.ring.front <= s.ring.rear <= s.ring.front + s.ring.n()
            && s.removed + Queue(s.ring) == Somes(s.inserted)
  {
    Reachable(r);
    RemovedThenQueued(After(r));
  }

  lemma RemovedThenQueued(s: State)
    requires Histories(s)
    ensures s.removed + Queue(s.ring) == Somes(s.inserted)
  {
    var all, q := s.removed + Queue(s.ring), Queue(s.ring);
    forall k | 0 <= k < |all| ensures all[k] == Some(s.inserted[k]) {
      if k >= |s.removed| {
        assert all[k] == q[k - |s.removed|];
      }
    }
  }

  // The ring refines a bounded queue: a write enqueues the writer's job when there is
  // room, a read dequeues the oldest job for the reader, every other step stutters.
  lemma RefinesQueue(r: Run, a: Action)
    requires Legal(Then(r, a))
    ensures var s, t := After(r), After(Then(r, a));
            && s.ring.front <= s.ring.rear && t.ring.front <= t.ring.rear
            && (s.ring.n() == 0 ==> s.ring.front == s.ring.rear)
            && (t.ring.n() == 0 ==> t.ring.front == t.ring.rear)
            && if a.Produce? && s.producers[a.i].Writing? then
                 && |Queue(s.ring)| < s.ring.n()
                 && Queue(t.ring) == Queue(s.ring) + [Some(s.producers[a.i].job)]
               else if a.Consume? && s.consumers[a.j].Reading? then
                 && t.consumers[a.j].Unlocking? && t.consumers[a.j].item.Some?
                 && Queue(s.ring) == [t.consumers[a.j].item] + Queue(t.ring)
               else Queue(t.ring) == Queue(s.ring)
  {
    Reachable(r);
    Reachable(Then(r, a));
    var s := After(r);
    if a.Produce? && s.producers[a.i].Writing? {
      RoomToWrite(s, a.i);
      WriteEnqueues(s.ring, s.producers[a.i].job);
    } else if a.Consume? && s.consumers[a.j].Reading? {
      ReadsOldest(s, a.j);
    }
  }

  // The early return of sbuf_remove, which would keep the mutex, is never taken; and at
  // most one thread is ever between P(mutex) and V(mutex).
  lemma NeverReturnsHoldingTheMutex(r: Run, j: nat)
    requires Legal(r) && j < |After(r).consumers| && After(r).consumers[j].Reading?
    ensures After(r).ring.n() > 0
  {
    Reachable(r);
    SomethingToRead(After(r), j);
  }

  lemma MutualExclusion(r: Run)
    requires Legal(r)
    ensures var s := After(r);
            && 0 <= Total(s.producers, HoldsP) && 0 <= Total(s.consumers, HoldsC)
            && Total(s.producers, HoldsP) + Total(s.consumers, HoldsC) == 1 - s.mutex <= 1
  {
    Reachable(r);
    TotalsAreNatural(After(r));
  }

  predicate Busy(p: Producer) { !p.Listening? && !p.Returned? }

  // While a job thread exists and the ring has cells, a client thread in the middle of
  // an insertion never waits in vain: some thread can take a step.
  lemma InsertersNeverStuck(r: Run, i: nat) returns (a: Action)
    requires Legal(r) && After(r).ring.n() > 0 && |After(r).consumers| > 0
    requires i < |After(r).producers| && Busy(After(r).producers[i])
    ensures Can(After(r), a) && (a.Produce? || a.Consume?)
  {
    Reachable(r);
    a := SomebodyInserts(After(r), i);
  }

  lemma SomebodyInserts(s: State, i: nat) returns (a: Action)
    requires Inv(s) && s.ring.n() > 0 && |s.consumers| > 0
    requires i < |s.producers| && Busy(s.producers[i])
    ensures Can(s, a) && (a.Produce? || a.Consume?)
  {
    TotalsAreNatural(s);
    if s.mutex == 0 {
      a := MutexHolder(s);
    } else if !s.producers[i].AtSlots? || s.slots > 0 {
      a := Produce(i);
    } else if s.items > 0 || !s.consumers[0].AtItems? {
      a := Consume(0);
    } else {
      a := BetweenSteps(s);
    }
  }

  ghost predicate NobodyCanMove(s: State) {
    && (forall i :: 0 <= i < |s.producers| ==> !Can(s, Produce(i)))
    && (forall j :: 0 <= j < |s.consumers| ==> !Can(s, Consume(j)))
  }

  // Nothing to do: every client thread is between messages or gone, every job thread
  // waits for a job, and the ring is empty.
  ghost predicate Idle(s: State) {
    && (forall i :: 0 <= i < |s.producers| ==> !Busy(s.producers[i]))
    && (forall j :: 0 <= j < |s.consumers| ==> s.consumers[j].AtItems?)
    && s.ring.front == s.ring.rear
  }

  // All threads wait exactly when there is nothing to do.
  lemma StuckOnlyWhenIdle(r: Run)
    requires Legal(r) && After(r).ring.n() > 0 && |After(r).consumers| > 0
    ensures NobodyCanMove(After(r)) <==> Idle(After(r))
  {
    Reachable(r);
    StuckIsIdle(After(r));
  }

  lemma StuckIsIdle(s: State)
    requires Inv(s) && s.ring.n() > 0 && |s.consumers| > 0
    ensures NobodyCanMove(s) <==> Idle(s)
  {
    if NobodyCanMove(s) {
      forall i | 0 <= i < |s.producers| ensures !Busy(s.producers[i]) {
        if Busy(s.producers[i]) {
          var a := SomebodyInserts(s, i);
        }
      }
      if s.mutex == 0 {
        var a := MutexHolder(s);
      }
      NothingInHand(s);
    }
    if Idle(s) {
      TotalsAreNatural(s);
    }
  }

  lemma NothingInHand(s: State)
    requires Inv(s) && s.mutex > 0 && |s.consumers| > 0 && NobodyCanMove(s)
    requires forall i :: 0 <= i < |s.producers| ==> !Busy(s.producers[i])
    ensures forall j :: 0 <= j < |s.consumers| ==> s.consumers[j].AtItems?
    ensures s.ring.front == s.ring.rear
  {
    forall j | 0 <= j < |s.consumers| ensures s.consumers[j].AtItems? {
      assert !Can(s, Consume(j));
    }
    assert !Can(s, Consume(0));
    TotalZero(s.producers, Wrote);
    TotalZero(s.consumers, Takes);
  }

  lemma MutexHolder(s: State) returns (a: Action)
    requires Inv(s) && s.mutex == 0
    ensures Can(s, a) && (a.Produce? || a.Consume?)
  {
    if Total(s.producers, HoldsP) > 0 {
      var k := TotalWitness(s.producers, HoldsP);
      a := Produce(k);
      if s.producers[k].Writing? {
        RoomToWrite(s, k);
      }
    } else {
      var k := TotalWitness(s.consumers, HoldsC);
      a := Consume(k);
    }
  }

  // Neither a slot nor an item to be had: some thread holds one and can go on.
  lemma BetweenSteps(s: State) returns (a: Action)
    requires Inv(s) && s.ring.n() > 0 && s.mutex > 0 && s.slots == 0 && s.items == 0
    ensures Can(s, a) && (a.Produce? || a.Consume?)
  {
    TotalsAreNatural(s);
    if Total(s.producers, Claims) > 0 {
      var k := TotalWitness(s.producers, Claims);
      a := Produce(k);
    } else if Total(s.producers, Wrote) > 0 {
      var k := TotalWitness(s.producers, Wrote);
      a := Produce(k);
    } else if Total(s.consumers, Takes) > 0 {
      var k := TotalWitness(s.consumers, Takes);
      a := Consume(k);
    } else {
      var k := TotalWitness(s.consumers, Took);
      a := Consume(k);
    }
  }
}
