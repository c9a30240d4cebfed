// Sessions, ids and the ledger: what holds in every reachable state, in a caller's terms.
module Theorems {
  import opened Wrappers
  import opened AuctionModel
  import opened Invariants
  import opened Accounts
  import opened Reachability

  // q is an earlier point of the run r.
  predicate Extends(r: Run, q: Run) {
    r == q || (r.Then? && Extends(r.before, q))
  }

  // ---- sessions ----

  // Names and descriptors determine each other.
  lemma LookupBijection(r: Run)
    requires Legal(r)
    ensures var us := After(r).users;
            && (forall name :: HasUser(us, name) ==>
                  KnownFd(us, FdOfName(us, name)) && NameOfFd(us, FdOfName(us, name)) == name)
            && (forall fd :: KnownFd(us, fd) ==> fd >= 0 && FdOfName(us, NameOfFd(us, fd)) == fd)
  {
    Reachable(r);
    var us := After(r).users;
    forall k | 0 <= k < |us| ensures IndexOfName(us, us[k].name) == k && IndexOfFd(us, us[k].fd) == k {
      IndexOfNameIs(us, k);
    }
  }

  // Accounts are never dropped, renamed or given another password.
  lemma {:induction false} AccountsForever(r: Run, q: Run)
    requires Legal(r) && Legal(q) && Extends(r, q)
    ensures AccountsPersist(After(q).users, After(r).users)
  {
    if r != q {
      AccountsForever(r.before, q);
      Reachable(r.before);
      StepKeepsSessions(After(r.before), r.event);
    }
  }

  // ---- ids ----

  // An auction that is closed stays closed, exactly as it was: none is closed twice.
  lemma {:induction false} ClosedForever(r: Run, q: Run)
    requires Legal(r) && Legal(q) && Extends(r, q)
    ensures After(q).closed <= After(r).closed
    ensures Unrepeated(After(r).closed)
  {
    Reachable(r);
    if r != q {
      ClosedForever(r.before, q);
      StepShape(After(r.before), r.event);
      ClosedGrows(After(r.before), r.event);
    }
  }

  lemma ClosedGrows(s: State, e: Event)
    requires Enabled(s, e)
    ensures s.closed <= Step(s, e).closed
  {
    StepShape(s, e);
    if Creates(s, e) || ClosesAt(s, e) == |s.listed| {
      SameClosed(s, e);
    }
  }

  // Ids rise along the list; every id issued is listed or closed, and not both; it is
  // owned by exactly one user, its creator, and won by its winner alone, once closed.
  lemma IdPartition(r: Run, id: int)
    requires Legal(r)
    ensures Increasing(After(r).listed)
    ensures 1 <= id <= After(r).lastId <==> Listed(After(r), id) || Closed(After(r), id)
    ensures !(Listed(After(r), id) && Closed(After(r), id))
    ensures 1 <= id <= After(r).lastId ==>
      var us := After(r).users;
      var k := IndexOfName(us, Record(After(r), id).creator);
      k < |us| && forall j :: 0 <= j < |us| ==> (id in us[j].owned <==> j == k)
    ensures forall j :: 0 <= j < |After(r).users| ==>
      (id in After(r).users[j].won <==>
        Closed(After(r), id) && Record(After(r), id).winner == Some(After(r).users[j].name))
  {
    Reachable(r);
    var s := After(r);
    assert Recorded(s, id) <==> 1 <= id <= s.lastId;
    if Recorded(s, id) {
      RecordRules(r, id);
      OwnedOnce(s, id);
    }
    forall j | 0 <= j < |s.users|
      ensures id in s.users[j].won <==> Closed(s, id) && Record(s, id).winner == Some(s.users[j].name)
    {
      WonMembers(s, s.users[j].name, id);
    }
  }

  lemma OwnedOnce(s: State, id: int)
    requires Sessions(s.users) && Owned(s) && Recorded(s, id) && HasUser(s.users, Record(s, id).creator)
    ensures forall j :: 0 <= j < |s.users| ==>
      (id in s.users[j].owned <==> j == IndexOfName(s.users, Record(s, id).creator))
  {
    forall j | 0 <= j < |s.users|
      ensures id in s.users[j].owned <==> j == IndexOfName(s.users, Record(s, id).creator)
    {
      assert OwnsExactly(s, s.users[j]);
      IndexOfNameIs(s.users, j);
    }
  }

  lemma {:induction false} WonIn(closed: seq<Auction>, name: string, id: int)
    ensures id in WonIds(closed, name) <==>
      exists k :: 0 <= k < |closed| && closed[k].id == id && closed[k].winner == Some(name)
  {
    var n := |closed|;
    if n > 0 {
      WonIn(closed[..n - 1], name, id);
      if id in WonIds(closed[..n - 1], name) {
        var k :| 0 <= k < n - 1 && closed[..n - 1][k].id == id && closed[..n - 1][k].winner == Some(name);
        assert closed[k].id == id && closed[k].winner == Some(name);
      }
    }
  }

  lemma WonMembers(s: State, name: string, id: int)
    requires Ids(s)
    ensures id in WonIds(s.closed, name) <==> Closed(s, id) && Record(s, id).winner == Some(name)
  {
    WonIn(s.closed, name, id);
    forall k | 0 <= k < |s.closed| && s.closed[k].id == id ensures Closed(s, id) && Record(s, id) == s.closed[k] {
      ClosedAt(s, k);
    }
    if Closed(s, id) {
      assert s.closed[IndexOfId(s.closed, id)].id == id;
    }
  }

  // ---- the ledger ----

  // What a user's closed auctions fetched.
  function Sales(closed: seq<Auction>, name: string): int {
    if |closed| == 0 then 0
    else
      var a := closed[|closed| - 1];
      Sales(closed[..|closed| - 1], name) + if a.creator == name then a.bid else 0
  }

  // The final prices of a list of closed auctions.
  function Prices(closed: seq<Auction>, ids: seq<int>): int {
    if |ids| == 0 then 0
    else
      var k := IndexOfId(closed, ids[|ids| - 1]);
      Prices(closed, ids[..|ids| - 1]) + if k < |closed| then closed[k].bid else 0
  }

  // A user's balance is what their own auctions fetched less the price of every auction
  // in their list of wins, which are the closed auctions they won in closing order.
  lemma BalanceIsLedger(r: Run, j: nat)
    requires Legal(r) && j < |After(r).users|
    ensures var s, u := After(r), After(r).users[j];
            && u.won == WonIds(s.closed, u.name)
            && u.balance == Sales(s.closed, u.name) - Prices(s.closed, u.won)
  {
    Reachable(r);
    var s, u := After(r), After(r).users[j];
    LedgerSplits(s.closed, s.closed, u.name);
  }

  lemma {:induction false} LedgerSplits(closed: seq<Auction>, all: seq<Auction>, name: string)
    requires Unrepeated(all) && closed <= all
    ensures Ledger(closed, name) == Sales(closed, name) - Prices(all, WonIds(closed, name))
  {
    var n := |closed|;
    if n > 0 {
      LedgerSplits(closed[..n - 1], all, name);
      var a := closed[n - 1];
      assert all[n - 1] == a;
      IndexOfIdIs(all, n - 1);
      if a.winner == Some(name) {
        assert WonIds(closed, name)[..|WonIds(closed, name)| - 1] == WonIds(closed[..n - 1], name);
      } else {
        assert WonIds(closed, name) == WonIds(closed[..n - 1], name);
      }
    }
  }

  // Between requests, all balances together are zero.
  lemma MoneyConserved(r: Run)
    requires Legal(r)
    ensures Money(After(r).users) == 0
  {
    Reachable(r);
  }
}
