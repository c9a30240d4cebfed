// What is always true of a single auction, listed or closed.
module AuctionRules {
  import opened AuctionModel
  import opened Invariants

  ghost predicate AuctionOk(users: seq<User>, a: Auction) {
    && a.name != "" && OneLine(a.name)
    && a.binPrice >= 0 && a.binFlag == (a.binPrice > 0)
    && a.bid >= 0 && (a.winner.None? <==> a.bid == 0)
    && HasUser(users, a.creator)
    && (a.winner.Some? ==> HasUser(users, a.winner.value) && a.winner.value != a.creator)
    && (forall k :: 0 <= k < |a.watchers| ==> HasUser(users, a.watchers[k]))
  }

  // A listed auction still has time to run and has not reached its buy-now price.
  ghost predicate ListedOk(users: seq<User>, a: Auction) {
    && AuctionOk(users, a)
    && a.duration >= 1
    && (a.binFlag ==> a.bid <= a.binPrice)
  }

  // A closed auction either ran out, or was bought with time left.
  ghost predicate ClosedOk(users: seq<User>, a: Auction) {
    && AuctionOk(users, a)
    && a.duration >= 0
    && (a.duration > 0 <==> a.binFlag && a.bid > a.binPrice)
  }

  ghost predicate Rules(s: State) {
    && (forall i :: 0 <= i < |s.listed| ==> ListedOk(s.users, s.listed[i]))
    && (forall i :: 0 <= i < |s.closed| ==> ClosedOk(s.users, s.closed[i]))
  }

  lemma AuctionOkPersists(us: seq<User>, vs: seq<User>, a: Auction)
    requires AuctionOk(us, a) && AccountsPersist(us, vs)
    ensures AuctionOk(vs, a)
  {
    forall name | HasUser(us, name) ensures HasUser(vs, name) {
      HasUserPersists(us, vs, name);
    }
  }

  lemma RulesPersist(s: State, t: State)
    requires Rules(s) && AccountsPersist(s.users, t.users) && t.listed == s.listed && t.closed == s.closed
    ensures Rules(t)
  {
    forall a | AuctionOk(s.users, a) ensures AuctionOk(t.users, a) {
      AuctionOkPersists(s.users, t.users, a);
    }
  }

  // Just before a close every auction is as a listed one must be, but for the one
  // that is about to be closed.
  ghost predicate RulesBut(s: State, k: nat) {
    && (forall i :: 0 <= i < |s.listed| && i != k ==> ListedOk(s.users, s.listed[i]))
    && (k < |s.listed| ==> ClosedOk(s.users, s.listed[k]))
    && (forall i :: 0 <= i < |s.closed| ==> ClosedOk(s.users, s.closed[i]))
  }

  lemma KnownName(users: seq<User>, fd: int)
    requires KnownFd(users, fd)
    ensures HasUser(users, NameOfFd(users, fd))
  {
  }

  lemma RewriteKeepsRules(s: State, e: Event)
    requires Rules(s) && Enabled(s, e)
    ensures RulesBut(BeforeClose(s, e), ClosesAt(s, e))
  {
    match e {
      case WatchEv(fd, id) =>
        if Listed(s, id) {
          WatchKeepsRules(s, fd, id);
        }
      case LeaveEv(fd, id) =>
        if Listed(s, id) {
          LeaveKeepsRules(s, fd, id);
        }
      case BidEv(_, _, _) => BidKeepsRules(s, e);
      case TickEv => CountDownKeepsRules(s);
      case _ =>
    }
  }

  lemma BidKeepsRules(s: State, e: Event)
    requires Rules(s) && Enabled(s, e) && e.BidEv?
    ensures RulesBut(BeforeClose(s, e), ClosesAt(s, e))
  {
    KnownName(s.users, e.fd);
    if Raises(s, e) {
      var i := IndexOfId(s.listed, e.id);
      assert ListedOk(s.users, s.listed[i]);
      var b := BeforeClose(s, e).listed[i];
      assert AuctionOk(s.users, b);
      assert if BuysNow(s, e) then ClosedOk(s.users, b) else ListedOk(s.users, b);
    }
  }

  lemma CountDownKeepsRules(s: State)
    requires Rules(s)
    ensures RulesBut(BeforeClose(s, TickEv), Expiring(s.listed))
  {
    var k := Expiring(s.listed);
    var t := BeforeClose(s, TickEv);
    forall i | 0 <= i < |s.listed|
      ensures if i == k then ClosedOk(s.users, t.listed[i]) else ListedOk(s.users, t.listed[i])
    {
      assert ListedOk(s.users, s.listed[i]);
      assert AuctionOk(s.users, t.listed[i]);
    }
  }

  lemma WatchKeepsRules(s: State, fd: int, id: int)
    requires Rules(s) && KnownFd(s.users, fd) && Listed(s, id)
    ensures Rules(Watch(s, fd, id))
  {
    var i := IndexOfId(s.listed, id);
    KnownName(s.users, fd);
    var a := Watch(s, fd, id).listed[i];
    assert a.watchers == s.listed[i].watchers + [NameOfFd(s.users, fd)];
    assert ListedOk(s.users, a);
  }

  lemma LeaveKeepsRules(s: State, fd: int, id: int)
    requires Rules(s) && CanLeave(s, fd, id) && Listed(s, id)
    ensures Rules(Leave(s, fd, id))
  {
    var i := IndexOfId(s.listed, id);
    var a := Leave(s, fd, id).listed[i];
    assert forall k :: 0 <= k < |a.watchers| ==> a.watchers[k] in s.listed[i].watchers;
    assert ListedOk(s.users, a);
  }

  lemma CreateKeepsRules(s: State, e: Event)
    requires Sessions(s.users) && Rules(s) && Enabled(s, e) && Creates(s, e)
    ensures Rules(Step(s, e))
  {
    var t := Step(s, e);
    OneOwner(s.users, e.fd);
    KnownName(s.users, e.fd);
    forall a | AuctionOk(s.users, a) ensures AuctionOk(t.users, a) {
      AuctionOkPersists(s.users, t.users, a);
    }
    HasUserPersists(s.users, t.users, NameOfFd(s.users, e.fd));
    assert ListedOk(t.users, t.listed[|s.listed|]);
  }

  lemma CloseKeepsRules(s: State, k: nat)
    requires Sessions(s.users) && Ids(s) && k < |s.listed| && RulesBut(s, k)
    ensures Rules(Close(s, k))
  {
    var t := Close(s, k);
    CloseKeepsRecords(s, k);
    SettleKeepsSessions(s.users, s.listed[k]);
    forall i | 0 <= i < |t.listed| ensures ListedOk(t.users, t.listed[i]) {
      assert t.listed[i] == s.listed[if i < k then i else i + 1];
      AuctionOkPersists(s.users, t.users, t.listed[i]);
    }
    forall i | 0 <= i < |t.closed| ensures ClosedOk(t.users, t.closed[i]) {
      assert t.closed[i] == if i < |s.closed| then s.closed[i] else s.listed[k];
      AuctionOkPersists(s.users, t.users, t.closed[i]);
    }
  }

  lemma StepKeepsRules(s: State, e: Event)
    requires Sessions(s.users) && Ids(s) && Rules(s) && Enabled(s, e)
    ensures Rules(Step(s, e))
  {
    if Creates(s, e) {
      CreateKeepsRules(s, e);
    } else if ClosesAt(s, e) < |s.listed| {
      CloseStepKeepsRules(s, e);
    } else {
      OpenStepKeepsRules(s, e);
    }
  }

  lemma CloseStepKeepsRules(s: State, e: Event)
    requires Sessions(s.users) && Ids(s) && Rules(s) && Enabled(s, e) && !Creates(s, e) && ClosesAt(s, e) < |s.listed|
    ensures Rules(Step(s, e))
  {
    StepShape(s, e);
    RewriteKeepsRules(s, e);
    RewrittenKeepsIds(s, BeforeClose(s, e));
    CloseKeepsRules(BeforeClose(s, e), ClosesAt(s, e));
  }

  lemma OpenStepKeepsRules(s: State, e: Event)
    requires Sessions(s.users) && Rules(s) && Enabled(s, e) && !Creates(s, e) && ClosesAt(s, e) == |s.listed|
    ensures Rules(Step(s, e))
  {
    StepShape(s, e);
    StepKeepsSessions(s, e);
    RewriteKeepsRules(s, e);
    assert BeforeClose(s, e).users == s.users;
    RulesPersist(BeforeClose(s, e), Step(s, e));
  }

  // The buy-now branch does not compare with the current bid, and yet never lowers it.
  lemma RaiseIsHigher(s: State, e: Event)
    requires Rules(s) && Enabled(s, e)
    ensures Raises(s, e) <==> Eligible(s, e) && e.amount > Record(s, e.id).bid
  {
    if Eligible(s, e) {
      assert ListedOk(s.users, s.listed[IndexOfId(s.listed, e.id)]);
    }
  }
}
