// When an auction closes: an exact account of its duration and place in the list,
// although a tick stops at the first auction it closes.
module ClosingTime {
  import opened Seqs
  import opened AuctionModel
  import opened Invariants
  import opened AuctionRules
  import opened Reachability

  // Duration and place in the list at creation.
  datatype Birth = Birth(duration: int, index: int)

  function BirthOf(r: Run, id: int): Birth
    requires Legal(r)
  {
    match r
    case Start => Birth(0, 0)
    case Then(p, e) =>
      if id > After(p).lastId && Creates(After(p), e) then Birth(e.duration, |After(p).listed|) else BirthOf(p, id)
  }

  // Ticks since the auction was created.
  function Age(r: Run, id: int): nat
    requires Legal(r)
  {
    match r
    case Start => 0
    case Then(p, e) => Age(p, id) + if e.TickEv? && 1 <= id <= After(p).lastId then 1 else 0
  }

  // Ticks while it was listed.
  function Ticks(r: Run, id: int): nat
    requires Legal(r)
  {
    match r
    case Start => 0
    case Then(p, e) => Ticks(p, id) + if e.TickEv? && Listed(After(p), id) then 1 else 0
  }

  predicate ClosesAhead(s: State, e: Event, id: int)
    requires Enabled(s, e)
  {
    Listed(s, id) && !Creates(s, e) && ClosesAt(s, e) < IndexOfId(s.listed, id)
  }

  // Ticks that closed an auction ahead of it, and so never reached it.
  function LostTicks(r: Run, id: int): nat
    requires Legal(r)
  {
    match r
    case Start => 0
    case Then(p, e) => LostTicks(p, id) + if e.TickEv? && ClosesAhead(After(p), e, id) then 1 else 0
  }

  // Auctions ahead of it that were bought away.
  function BoughtAhead(r: Run, id: int): nat
    requires Legal(r)
  {
    match r
    case Start => 0
    case Then(p, e) => BoughtAhead(p, id) + if e.BidEv? && ClosesAhead(After(p), e, id) then 1 else 0
  }

  function Place(s: State, id: int): int { IndexOfId(s.listed, id) }

  lemma CloseMovesUp(s: State, k: nat, id: int)
    requires Ids(s) && k < |s.listed| && Listed(s, id) && id != s.listed[k].id
    ensures Place(Close(s, k), id) == if k < Place(s, id) then Place(s, id) - 1 else Place(s, id)
  {
    var i := IndexOfId(s.listed, id);
    var i' := if k < i then i - 1 else i;
    ListedAt(s, k);
    CloseKeepsOrder(s, k);
    assert Close(s, k).listed == RemoveAt(s.listed, k);
    var rest := RemoveAt(s.listed, k);
    assert rest[i'] == s.listed[i];
    assert forall j :: 0 <= j < i' ==> rest[j].id < rest[i'].id;
    IndexOfIdIs(rest, i');
  }

  // One step: an auction's duration falls by one, unless it is not a tick or the tick
  // stopped ahead of it; its place falls by one exactly when something ahead is closed.
  lemma StepClock(s: State, e: Event, id: int)
    requires Ids(s) && Enabled(s, e) && Listed(s, id)
    ensures Recorded(Step(s, e), id)
    ensures Record(Step(s, e), id).duration
         == Record(s, id).duration - if e.TickEv? && !ClosesAhead(s, e, id) then 1 else 0
    ensures Listed(Step(s, e), id) ==>
      Place(Step(s, e), id) == Place(s, id) - if ClosesAhead(s, e, id) then 1 else 0
    ensures ClosesAhead(s, e, id) ==> (e.TickEv? || e.BidEv?) && Listed(Step(s, e), id)
  {
    StepTouches(s, e, id);
    StepPlace(s, e, id);
  }

  lemma StepPlace(s: State, e: Event, id: int)
    requires Ids(s) && Enabled(s, e) && Listed(s, id)
    ensures Listed(Step(s, e), id) ==>
      Place(Step(s, e), id) == Place(s, id) - if ClosesAhead(s, e, id) then 1 else 0
    ensures ClosesAhead(s, e, id) ==> Listed(Step(s, e), id)
  {
    var m := BeforeClose(s, e);
    StepShape(s, e);
    StepRecord(s, e, id);
    SameIndex(s.listed, m.listed, id);
    var k := ClosesAt(s, e);
    if Creates(s, e) {
      CreateKeepsPlace(s, e, id);
    } else if k < |s.listed| {
      ListedAt(s, k);
      if id != s.listed[k].id {
        RewrittenKeepsIds(s, m);
        CloseMovesUp(m, k, id);
      }
    }
  }

  lemma CreateKeepsPlace(s: State, e: Event, id: int)
    requires Ids(s) && Enabled(s, e) && Creates(s, e) && Listed(s, id)
    ensures Place(Step(s, e), id) == Place(s, id)
  {
    var i := IndexOfId(s.listed, id);
    assert Step(s, e).listed[i] == s.listed[i];
    CreateKeepsRecords(s, e.fd, e.item, e.duration, e.price, e.junk);
    ListedAt(Step(s, e), i);
  }

  // Each tick lowers duration + place of an auction that stays listed by exactly one;
  // no other step raises it.
  lemma TickLowersRank(s: State, e: Event, id: int)
    requires Ids(s) && Enabled(s, e) && Listed(s, id) && Listed(Step(s, e), id)
    ensures var t := Step(s, e);
            var rank, rank' := Record(s, id).duration + Place(s, id), Record(t, id).duration + Place(t, id);
            if e.TickEv? then rank' == rank - 1 else rank' <= rank
  {
    StepClock(s, e, id);
  }

  lemma {:induction false} NoClockBeforeCreation(r: Run, id: int)
    requires Legal(r) && id > After(r).lastId
    ensures Age(r, id) == Ticks(r, id) == LostTicks(r, id) == BoughtAhead(r, id) == 0
  {
    match r
    case Start =>
    case Then(p, e) =>
      NotYet(p, e, id);
      NoClockBeforeCreation(p, id);
  }

  lemma ClockStep(p: Run, e: Event, id: int)
    requires Legal(Then(p, e)) && Listed(After(p), id)
    ensures var s, t := After(p), After(Then(p, e));
            && Recorded(t, id)
            && Record(t, id).duration
               == Record(s, id).duration - (if e.TickEv? && !ClosesAhead(s, e, id) then 1 else 0)
            && (Listed(t, id) ==> Place(t, id) == Place(s, id) - if ClosesAhead(s, e, id) then 1 else 0)
            && (ClosesAhead(s, e, id) ==> (e.TickEv? || e.BidEv?) && Place(s, id) >= 1)
  {
    Reachable(p);
    StepClock(After(p), e, id);
  }

  // The exact account, over every run.
  lemma {:induction false} Countdown(r: Run, id: int)
    requires Legal(r) && Recorded(After(r), id)
    ensures Record(After(r), id).duration == BirthOf(r, id).duration - Ticks(r, id) + LostTicks(r, id)
    ensures Listed(After(r), id) ==>
      && Place(After(r), id) == BirthOf(r, id).index - LostTicks(r, id) - BoughtAhead(r, id)
      && Ticks(r, id) == Age(r, id)
    ensures LostTicks(r, id) + BoughtAhead(r, id) <= BirthOf(r, id).index
    ensures Ticks(r, id) <= Age(r, id)
  {
    match r
    case Start =>
      assert false;
    case Then(p, e) =>
      if Recorded(After(p), id) {
        Countdown(p, id);
        Survives(p, e, id);
        if Listed(After(p), id) {
          ClockStep(p, e, id);
        }
      } else {
        Born(p, e, id);
        NoClockBeforeCreation(p, id);
      }
  }

  // An auction created with duration d behind i others is gone within d + i ticks.
  lemma GoneInTime(r: Run, id: int)
    requires Legal(r) && Recorded(After(r), id)
    requires Age(r, id) >= BirthOf(r, id).duration + BirthOf(r, id).index
    ensures Closed(After(r), id) && !Listed(After(r), id)
  {
    Reachable(r);
    Countdown(r, id);
    StillRunning(After(r), id);
  }

  lemma StillRunning(s: State, id: int)
    requires Rules(s)
    ensures Listed(s, id) ==> Record(s, id).duration >= 1
  {
    if Listed(s, id) {
      assert ListedOk(s.users, s.listed[Place(s, id)]);
    }
  }

  // It never runs out before d ticks: one that did was listed for exactly d ticks plus
  // those lost to auctions ahead of it. One that closed earlier was bought.
  lemma NeverEarly(r: Run, id: int)
    requires Legal(r) && Closed(After(r), id)
    ensures var a, b := Record(After(r), id), BirthOf(r, id);
            && (a.duration == 0 ==>
                  Ticks(r, id) == b.duration + LostTicks(r, id) && b.duration <= Ticks(r, id) <= b.duration + b.index)
            && (a.duration == 0 <==> !(a.binFlag && a.bid > a.binPrice))
            && (Age(r, id) < b.duration ==> a.binFlag && a.bid > a.binPrice)
  {
    Reachable(r);
    Countdown(r, id);
    var k := IndexOfId(After(r).closed, id);
    ClosedAt(After(r), k);
    assert ClosedOk(After(r).users, After(r).closed[k]);
  }
}
