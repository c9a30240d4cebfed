// Everything the steps keep, put together over whole runs.
module Reachability {
  import opened Wrappers
  import opened AuctionModel
  import opened Invariants
  import opened AuctionRules
  import opened Accounts

  ghost predicate Good(s: State) {
    && Sessions(s.users)
    && Ids(s)
    && Rules(s)
    && Books(s)
    && Owned(s)
    && Money(s.users) == 0
  }

  lemma StepKeepsGood(s: State, e: Event)
    requires Good(s) && Enabled(s, e)
    ensures Good(Step(s, e))
  {
    StepKeepsSessions(s, e);
    StepKeepsIds(s, e);
    StepKeepsRules(s, e);
    StepKeepsBooks(s, e);
    StepKeepsOwned(s, e);
    StepKeepsMoney(s, e);
  }

  // Every reachable state is good.
  lemma {:induction false} Reachable(r: Run)
    requires Legal(r)
    ensures Good(After(r))
  {
    match r
    case Start =>
    case Then(p, e) =>
      Reachable(p);
      StepKeepsGood(After(p), e);
  }

  // One more event, seen from an auction that is already on record ...
  lemma Survives(p: Run, e: Event, id: int)
    requires Legal(Then(p, e)) && Recorded(After(p), id)
    ensures Recorded(After(Then(p, e)), id)
    ensures Record(After(Then(p, e)), id) == Touched(After(p), e, id)
    ensures Closed(After(p), id) ==> Closed(After(Then(p, e)), id) && !Listed(After(Then(p, e)), id)
    ensures 1 <= id <= After(p).lastId
  {
    Reachable(p);
    StepTouches(After(p), e, id);
  }

  // ... and from one that is not.
  lemma Born(p: Run, e: Event, id: int)
    requires Legal(Then(p, e)) && !Recorded(After(p), id) && Recorded(After(Then(p, e)), id)
    ensures var s, t := After(p), After(Then(p, e));
            && Creates(s, e) && KnownFd(s.users, e.fd) && id == s.lastId + 1
            && Record(t, id) == Auction(id, e.item, e.duration, e.price, e.price != 0, 0, None,
                                        NameOfFd(s.users, e.fd), [], e.junk)
            && Listed(t, id) && IndexOfId(t.listed, id) == |s.listed|
  {
    Reachable(p);
    StepCreates(After(p), e, id);
  }

  // Ids are issued in order: an id above the counter is not on record, now or before.
  lemma NotYet(p: Run, e: Event, id: int)
    requires Legal(Then(p, e)) && id > After(Then(p, e)).lastId
    ensures id > After(p).lastId && !Recorded(After(p), id)
  {
    Reachable(p);
    StepShape(After(p), e);
  }

  lemma RecordRules(r: Run, id: int)
    requires Legal(r) && Recorded(After(r), id)
    ensures AuctionOk(After(r).users, Record(After(r), id))
    ensures Listed(After(r), id) ==> ListedOk(After(r).users, Record(After(r), id))
    ensures !Listed(After(r), id) ==> ClosedOk(After(r).users, Record(After(r), id))
  {
    Reachable(r);
  }
}
