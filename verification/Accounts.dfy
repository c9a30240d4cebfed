// Who owns, who won, who owes: the accounts follow from the record of closed auctions.
module Accounts {
  import opened Wrappers
  import opened Seqs
  import opened AuctionModel
  import opened Invariants
  import opened AuctionRules

  // ---- the ledger ----

  // The ids of the closed auctions a user has won, in closing order.
  function WonIds(closed: seq<Auction>, name: string): seq<int> {
    if |closed| == 0 then []
    else
      var a := closed[|closed| - 1];
      WonIds(closed[..|closed| - 1], name) + if a.winner == Some(name) then [a.id] else []
  }

  // Final bids of the closed auctions a user created, less those of the ones they won.
  function Ledger(closed: seq<Auction>, name: string): int {
    if |closed| == 0 then 0
    else
      var a := closed[|closed| - 1];
      Ledger(closed[..|closed| - 1], name)
      + (if a.creator == name then a.bid else 0) - (if a.winner == Some(name) then a.bid else 0)
  }

  ghost predicate Books(s: State) {
    forall j :: 0 <= j < |s.users| ==>
      && s.users[j].won == WonIds(s.closed, s.users[j].name)
      && s.users[j].balance == Ledger(s.closed, s.users[j].name)
  }

  lemma CloseKeepsBooks(s: State, k: nat)
    requires Sessions(s.users) && Books(s) && k < |s.listed|
    ensures Books(Close(s, k))
  {
    var t := Close(s, k);
    SettleEffect(s.users, s.listed[k]);
    assert t.closed[..|s.closed|] == s.closed;
  }

  lemma {:induction false} NobodysBusiness(users: seq<User>, closed: seq<Auction>, name: string)
    requires forall i :: 0 <= i < |closed| ==> AuctionOk(users, closed[i])
    requires !HasUser(users, name)
    ensures WonIds(closed, name) == [] && Ledger(closed, name) == 0
  {
    if |closed| > 0 {
      assert AuctionOk(users, closed[|closed| - 1]);
      NobodysBusiness(users, closed[..|closed| - 1], name);
    }
  }

  // How one step changes an existing account ...
  lemma StepAccount(s: State, e: Event, j: nat)
    requires Sessions(s.users) && Enabled(s, e) && j < |s.users|
    ensures var us, vs, k := s.users, Step(s, e).users, ClosesAt(s, e);
            && |us| <= |vs| && vs[j].name == us[j].name
            && (!Creates(s, e) ==> vs[j].owned == us[j].owned)
            && (Creates(s, e) || k == |s.listed| ==> vs[j].balance == us[j].balance && vs[j].won == us[j].won)
            && (!Creates(s, e) && k < |s.listed| ==> vs[j] == Settled(us[j], BeforeClose(s, e).listed[k]))
  {
    match e {
      case BidEv(_, _, _) => ClosingAccount(s, e, j);
      case TickEv => ClosingAccount(s, e, j);
      case _ =>
    }
  }

  lemma ClosingAccount(s: State, e: Event, j: nat)
    requires Sessions(s.users) && Enabled(s, e) && j < |s.users| && (e.BidEv? || e.TickEv?)
    ensures |Step(s, e).users| == |s.users|
    ensures Step(s, e).users[j] ==
      if ClosesAt(s, e) < |s.listed| then Settled(s.users[j], BeforeClose(s, e).listed[ClosesAt(s, e)])
      else s.users[j]
  {
    StepShape(s, e);
    if ClosesAt(s, e) < |s.listed| {
      SettleEffect(s.users, BeforeClose(s, e).listed[ClosesAt(s, e)]);
    }
  }

  // ... and which accounts it opens.
  lemma StepOpens(s: State, e: Event)
    requires Sessions(s.users) && Enabled(s, e)
    ensures var us, vs := s.users, Step(s, e).users;
            if e.LoginEv? && !HasUser(us, e.name)
            then vs == us + [User(e.name, e.password, true, 0, e.fd, [], [])] && !Creates(s, e) && ClosesAt(s, e) == |s.listed|
            else |vs| == |us|
  {
    StepShape(s, e);
    if !Creates(s, e) && ClosesAt(s, e) < |s.listed| {
      SettleEffect(s.users, BeforeClose(s, e).listed[ClosesAt(s, e)]);
    }
  }

  lemma StepKeepsBooks(s: State, e: Event)
    requires Sessions(s.users) && Rules(s) && Books(s) && Enabled(s, e)
    ensures Books(Step(s, e))
  {
    StepShape(s, e);
    if !Creates(s, e) && ClosesAt(s, e) < |s.listed| {
      CloseKeepsBooks(BeforeClose(s, e), ClosesAt(s, e));
    } else {
      OpenKeepsBooks(s, e);
    }
  }

  lemma OpenKeepsBooks(s: State, e: Event)
    requires Sessions(s.users) && Rules(s) && Books(s) && Enabled(s, e)
    requires Creates(s, e) || ClosesAt(s, e) == |s.listed|
    ensures Books(Step(s, e))
  {
    StepOpens(s, e);
    SameClosed(s, e);
    forall j | 0 <= j < |s.users| ensures
      && Step(s, e).users[j].name == s.users[j].name
      && Step(s, e).users[j].balance == s.users[j].balance && Step(s, e).users[j].won == s.users[j].won
    {
      StepAccount(s, e, j);
    }
    if e.LoginEv? && !HasUser(s.users, e.name) {
      NobodysBusiness(s.users, s.closed, e.name);
    }
  }

  lemma SameClosed(s: State, e: Event)
    requires Enabled(s, e) && (Creates(s, e) || ClosesAt(s, e) == |s.listed|)
    ensures Step(s, e).closed == s.closed
  {
    StepShape(s, e);
  }

  // ---- money ----

  function Balance(u: User): int { u.balance }

  function Money(users: seq<User>): int { Total(users, Balance) }

  lemma DebitMoney(users: seq<User>, name: string, amount: int, id: int)
    ensures Money(Debit(users, name, amount, id)) == Money(users) - if HasUser(users, name) then amount else 0
  {
    var k := IndexOfName(users, name);
    if k < |users| {
      TotalUpdate(users, k, Debit(users, name, amount, id)[k], Balance);
    }
  }

  lemma CreditMoney(users: seq<User>, name: string, amount: int)
    ensures Money(Credit(users, name, amount)) == Money(users) + if HasUser(users, name) then amount else 0
  {
    var k := IndexOfName(users, name);
    if k < |users| {
      TotalUpdate(users, k, Credit(users, name, amount)[k], Balance);
    }
  }

  lemma DebitKeepsUsers(users: seq<User>, name: string, amount: int, id: int, other: string)
    ensures HasUser(Debit(users, name, amount, id), other) == HasUser(users, other)
  {
    var vs := Debit(users, name, amount, id);
    assert forall j :: 0 <= j < |users| ==> vs[j].name == users[j].name;
  }

  // A close moves money between two accounts and makes none.
  lemma SettleMoney(users: seq<User>, a: Auction)
    requires AuctionOk(users, a)
    ensures Money(Settle(users, a)) == Money(users)
  {
    if a.winner.Some? {
      DebitMoney(users, a.winner.value, a.bid, a.id);
      DebitKeepsUsers(users, a.winner.value, a.bid, a.id, a.creator);
      CreditMoney(Debit(users, a.winner.value, a.bid, a.id), a.creator, a.bid);
    } else {
      CreditMoney(users, a.creator, a.bid);
    }
  }

  lemma StepKeepsMoney(s: State, e: Event)
    requires Sessions(s.users) && Ids(s) && Rules(s) && Enabled(s, e)
    ensures Money(Step(s, e).users) == Money(s.users)
  {
    StepOpens(s, e);
    if !Creates(s, e) && ClosesAt(s, e) < |s.listed| {
      StepShape(s, e);
      RewriteKeepsRules(s, e);
      SettleMoney(s.users, BeforeClose(s, e).listed[ClosesAt(s, e)]);
    } else if e.LoginEv? && !HasUser(s.users, e.name) {
      TotalAppend(s.users, User(e.name, e.password, true, 0, e.fd, [], []), Balance);
    } else {
      var vs := Step(s, e).users;
      forall j | 0 <= j < |s.users| ensures Balance(vs[j]) == Balance(s.users[j]) {
        StepAccount(s, e, j);
      }
      TotalSame(s.users, vs, Balance);
    }
  }

  // ---- ownership ----

  ghost predicate Ascending(ids: seq<int>) {
    forall i, j :: 0 <= i < j < |ids| ==> ids[i] < ids[j]
  }

  ghost predicate OwnsExactly(s: State, u: User) {
    && Ascending(u.owned)
    && forall id :: id in u.owned <==> Recorded(s, id) && Record(s, id).creator == u.name
  }

  // `owned` lists the auctions a user created, in order of creation.
  ghost predicate Owned(s: State) {
    forall j :: 0 <= j < |s.users| ==> OwnsExactly(s, s.users[j])
  }

  lemma StepKeepsCreator(s: State, e: Event, id: int)
    requires Ids(s) && Enabled(s, e) && Recorded(s, id)
    ensures Recorded(Step(s, e), id)
    ensures Record(Step(s, e), id).creator == Record(s, id).creator
  {
    StepTouches(s, e, id);
  }

  lemma StepRecords(s: State, e: Event)
    requires Ids(s) && Enabled(s, e)
    ensures Ids(Step(s, e))
    ensures forall id :: Recorded(s, id) ==>
      Recorded(Step(s, e), id) && Record(Step(s, e), id).creator == Record(s, id).creator
    ensures !Creates(s, e) ==> forall id :: Recorded(Step(s, e), id) ==> Recorded(s, id)
  {
    StepKeepsIds(s, e);
    StepShape(s, e);
    forall id | Recorded(s, id)
      ensures Recorded(Step(s, e), id) && Record(Step(s, e), id).creator == Record(s, id).creator
    {
      StepKeepsCreator(s, e, id);
    }
    if !Creates(s, e) {
      assert Step(s, e).lastId == s.lastId;
    }
  }

  lemma StepKeepsOwned(s: State, e: Event)
    requires Sessions(s.users) && Ids(s) && Rules(s) && Owned(s) && Enabled(s, e)
    ensures Owned(Step(s, e))
  {
    var t := Step(s, e);
    StepOpens(s, e);
    forall j | 0 <= j < |t.users| ensures OwnsExactly(t, t.users[j]) {
      if Creates(s, e) {
        CreateKeepsOwned(s, e, j);
      } else {
        StepRecords(s, e);
        if j < |s.users| {
          StepAccount(s, e, j);
          assert OwnsExactly(s, s.users[j]);
        } else {
          forall id | Recorded(s, id) ensures Record(s, id).creator != t.users[j].name {
            assert AuctionOk(s.users, Record(s, id));
          }
        }
      }
    }
  }

  lemma CreateKeepsOwned(s: State, e: Event, j: nat)
    requires Sessions(s.users) && Ids(s) && Owned(s) && Enabled(s, e) && Creates(s, e) && j < |s.users|
    ensures |Step(s, e).users| == |s.users| && OwnsExactly(Step(s, e), Step(s, e).users[j])
  {
    var t := Step(s, e);
    CreateKeepsRecords(s, e.fd, e.item, e.duration, e.price, e.junk);
    OneOwner(s.users, e.fd);
    var u := s.users[j];
    IndexOfNameIs(s.users, j);
    assert u.fd == e.fd <==> u.name == NameOfFd(s.users, e.fd);
    assert OwnsExactly(s, u);
    forall k | 0 <= k < |u.owned| ensures u.owned[k] < t.lastId {
      assert u.owned[k] in u.owned;
      assert Recorded(s, u.owned[k]);
    }
    forall id ensures id in t.users[j].owned <==> Recorded(t, id) && Record(t, id).creator == u.name {
      assert Recorded(t, id) <==> Recorded(s, id) || id == t.lastId;
    }
  }
}
