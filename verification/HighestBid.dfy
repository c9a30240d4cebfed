// Who wins: over any run, an auction is held by its earliest highest eligible offer.
module HighestBid {
  import opened Wrappers
  import opened AuctionModel
  import opened Invariants
  import opened AuctionRules
  import opened Reachability

  datatype Offer = Offer(bidder: string, amount: int)

  // All eligible offers on an auction, oldest first, whether accepted or not.
  function Offers(r: Run, id: int): seq<Offer>
    requires Legal(r)
  {
    match r
    case Start => []
    case Then(p, e) =>
      Offers(p, id)
      + if Eligible(After(p), e) && e.id == id then [Offer(NameOfFd(After(p).users, e.fd), e.amount)] else []
  }

  // The winner and price an auction should have: the first of the highest positive
  // offers, or nobody at 0 when no offer was positive.
  ghost predicate Wins(offers: seq<Offer>, winner: Option<string>, price: int) {
    match winner
    case None => price == 0 && forall k :: 0 <= k < |offers| ==> offers[k].amount <= 0
    case Some(w) =>
      price > 0 && exists k :: 0 <= k < |offers| && FirstHighest(offers, k) && offers[k] == Offer(w, price)
  }

  ghost predicate FirstHighest(offers: seq<Offer>, k: nat)
    requires k < |offers|
  {
    && (forall j :: 0 <= j < |offers| ==> offers[j].amount <= offers[k].amount)
    && (forall j :: 0 <= j < k ==> offers[j].amount < offers[k].amount)
  }

  lemma WinsIsUnique(offers: seq<Offer>, winner: Option<string>, price: int, winner': Option<string>, price': int)
    requires Wins(offers, winner, price) && Wins(offers, winner', price')
    ensures winner == winner' && price == price'
  {
    if winner.Some? && winner'.Some? {
      var k :| 0 <= k < |offers| && FirstHighest(offers, k) && offers[k] == Offer(winner.value, price);
      var k' :| 0 <= k' < |offers| && FirstHighest(offers, k') && offers[k'] == Offer(winner'.value, price');
    }
  }

  lemma WinsSnoc(offers: seq<Offer>, winner: Option<string>, price: int, o: Offer)
    requires Wins(offers, winner, price) && price >= 0
    ensures if o.amount > price then Wins(offers + [o], Some(o.bidder), o.amount)
            else Wins(offers + [o], winner, price)
  {
    var all := offers + [o];
    if o.amount > price {
      assert FirstHighest(all, |offers|) by {
        if winner.Some? {
          var k :| 0 <= k < |offers| && FirstHighest(offers, k) && offers[k] == Offer(winner.value, price);
        }
      }
      assert all[|offers|] == o;
    } else if winner.Some? {
      var k :| 0 <= k < |offers| && FirstHighest(offers, k) && offers[k] == Offer(winner.value, price);
      assert FirstHighest(all, k) && all[k] == offers[k];
    }
  }

  lemma {:induction false} NoOffersBeforeCreation(r: Run, id: int)
    requires Legal(r) && id > After(r).lastId
    ensures Offers(r, id) == [] && AcceptedPrices(r, id) == []
  {
    match r
    case Start =>
    case Then(p, e) =>
      NotYet(p, e, id);
      NoOffersBeforeCreation(p, id);
  }

  // What one more event does to (winner, price) of an auction on record.
  lemma PriceStep(p: Run, e: Event, id: int)
    requires Legal(Then(p, e)) && Recorded(After(p), id)
    ensures Recorded(After(Then(p, e)), id)
    ensures var s, a, b := After(p), Record(After(p), id), Record(After(Then(p, e)), id);
            && a.bid >= 0
            && (if Eligible(s, e) && e.id == id && e.amount > a.bid
                then b.winner == Some(NameOfFd(s.users, e.fd)) && b.bid == e.amount
                else b.winner == a.winner && b.bid == a.bid)
            && (e.BidEv? && e.id == id ==> (Raises(s, e) <==> Eligible(s, e) && e.amount > a.bid))
  {
    Survives(p, e, id);
    RecordRules(p, id);
    if e.BidEv? {
      Reachable(p);
      RaiseIsHigher(After(p), e);
    }
  }

  lemma StillWins(p: Run, e: Event, id: int)
    requires Legal(Then(p, e)) && Recorded(After(p), id)
    requires Wins(Offers(p, id), Record(After(p), id).winner, Record(After(p), id).bid)
    ensures Recorded(After(Then(p, e)), id)
    ensures Wins(Offers(Then(p, e), id), Record(After(Then(p, e)), id).winner, Record(After(Then(p, e)), id).bid)
  {
    PriceStep(p, e, id);
    var s, a := After(p), Record(After(p), id);
    if Eligible(s, e) && e.id == id {
      var o := Offer(NameOfFd(s.users, e.fd), e.amount);
      assert Offers(Then(p, e), id) == Offers(p, id) + [o];
      WinsSnoc(Offers(p, id), a.winner, a.bid, o);
    } else {
      assert Offers(Then(p, e), id) == Offers(p, id);
    }
  }

  lemma {:induction false} HighestBidWins(r: Run, id: int)
    requires Legal(r) && Recorded(After(r), id)
    ensures Wins(Offers(r, id), Record(After(r), id).winner, Record(After(r), id).bid)
  {
    match r
    case Start =>
      assert false;
    case Then(p, e) =>
      if Recorded(After(p), id) {
        HighestBidWins(p, id);
        StillWins(p, e, id);
      } else {
        Born(p, e, id);
        NoOffersBeforeCreation(p, id);
        assert Offers(r, id) == [];
      }
  }

  // ---- accepted bids ----

  // The prices an auction went through, on either branch of the bid handler.
  function AcceptedPrices(r: Run, id: int): seq<int>
    requires Legal(r)
  {
    match r
    case Start => []
    case Then(p, e) =>
      AcceptedPrices(p, id) + if e.BidEv? && Raises(After(p), e) && e.id == id then [e.amount] else []
  }

  ghost predicate RisesTo(prices: seq<int>, top: int) {
    && (forall i, j :: 0 <= i < j < |prices| ==> prices[i] < prices[j])
    && top == if prices == [] then 0 else prices[|prices| - 1]
  }

  lemma RiseHigher(prices: seq<int>, top: int, higher: int)
    requires RisesTo(prices, top) && top < higher
    ensures RisesTo(prices + [higher], higher)
  {
  }

  // Accepted bids on an auction strictly rise over its whole life, up to its price.
  lemma {:induction false} PricesRise(r: Run, id: int)
    requires Legal(r) && Recorded(After(r), id)
    ensures RisesTo(AcceptedPrices(r, id), Record(After(r), id).bid)
  {
    match r
    case Start =>
      assert false;
    case Then(p, e) =>
      if Recorded(After(p), id) {
        PricesRise(p, id);
        PriceStep(p, e, id);
        if e.BidEv? && Raises(After(p), e) && e.id == id {
          RiseHigher(AcceptedPrices(p, id), Record(After(p), id).bid, e.amount);
        } else {
          assert AcceptedPrices(r, id) == AcceptedPrices(p, id);
        }
      } else {
        Born(p, e, id);
        NoOffersBeforeCreation(p, id);
        assert AcceptedPrices(r, id) == [];
      }
  }

  // ---- buying now ----

  ghost predicate AllAtMost(offers: seq<Offer>, price: int) {
    forall k :: 0 <= k < |offers| ==> offers[k].amount <= price
  }

  // A buy-now auction is listed, or has run out, as long as no eligible offer exceeds
  // its buy-now price; any such offer has it bought.
  lemma BoughtWhenAbove(r: Run, id: int)
    requires Legal(r) && Recorded(After(r), id) && Record(After(r), id).binFlag
    ensures Listed(After(r), id) || Record(After(r), id).duration == 0
      <==> AllAtMost(Offers(r, id), Record(After(r), id).binPrice)
  {
    RecordRules(r, id);
    HighestBidWins(r, id);
    var a := Record(After(r), id);
    HighestAtMost(Offers(r, id), a.winner, a.bid, a.binPrice);
  }

  // And it is bought by the very first of them: all offers but the last are at most the price.
  lemma {:induction false} BoughtByFirstAbove(r: Run, id: int)
    requires Legal(r) && Recorded(After(r), id) && Record(After(r), id).binFlag
    requires |Offers(r, id)| > 0
    ensures AllAtMost(Offers(r, id)[..|Offers(r, id)| - 1], Record(After(r), id).binPrice)
  {
    match r
    case Start =>
      assert false;
    case Then(p, e) =>
      if Recorded(After(p), id) {
        OfferStep(p, e, id);
        TermsStep(p, e, id);
        BoughtWhenAbove(p, id);
        if Offers(r, id) == Offers(p, id) {
          BoughtByFirstAbove(p, id);
        }
      } else {
        Born(p, e, id);
        NoOffersBeforeCreation(p, id);
      }
  }

  lemma OfferStep(p: Run, e: Event, id: int)
    requires Legal(Then(p, e))
    ensures Offers(Then(p, e), id) != Offers(p, id) ==>
      && Listed(After(p), id) && |Offers(Then(p, e), id)| > 0
      && Offers(Then(p, e), id)[..|Offers(Then(p, e), id)| - 1] == Offers(p, id)
  {
    if Eligible(After(p), e) && e.id == id {
      assert Offers(Then(p, e), id)[..|Offers(p, id)|] == Offers(p, id);
    } else {
      assert Offers(Then(p, e), id) == Offers(p, id);
    }
  }

  lemma TermsStep(p: Run, e: Event, id: int)
    requires Legal(Then(p, e)) && Recorded(After(p), id)
    ensures Recorded(After(Then(p, e)), id)
    ensures Record(After(Then(p, e)), id).binFlag == Record(After(p), id).binFlag
    ensures Record(After(Then(p, e)), id).binPrice == Record(After(p), id).binPrice
  {
    Survives(p, e, id);
  }

  // The price of an auction is at most a bound exactly when all its offers are.
  lemma HighestAtMost(offers: seq<Offer>, winner: Option<string>, price: int, bound: int)
    requires Wins(offers, winner, price) && bound >= 0
    ensures price <= bound <==> AllAtMost(offers, bound)
  {
  }
}
