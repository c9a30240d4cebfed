// What a bid on a listed auction can do, and who is told.
module BidOutcome {
  import opened Wrappers
  import opened Seqs
  import opened AuctionModel
  import opened Invariants
  import opened AuctionRules
  import opened Reachability
  import Texts

  // One message of a kind per watcher entry, each to the descriptor of that watcher.
  ghost predicate TellsWatchers(users: seq<User>, watchers: seq<string>, msgs: seq<Msg>, kind: Kind, text: string) {
    && |msgs| == |watchers|
    && forall k :: 0 <= k < |msgs| ==>
         && msgs[k].kind == kind && msgs[k].text == text
         && KnownFd(users, msgs[k].fd) && NameOfFd(users, msgs[k].fd) == watchers[k]
  }

  ghost predicate Reaches(msgs: seq<Msg>, fd: int) {
    exists k :: 0 <= k < |msgs| && msgs[k].fd == fd
  }

  ghost predicate AllUsers(users: seq<User>, names: seq<string>) {
    forall k :: 0 <= k < |names| ==> HasUser(users, names[k])
  }

  lemma WatcherHasDescriptor(users: seq<User>, name: string)
    requires Sessions(users) && HasUser(users, name)
    ensures KnownFd(users, FdOfName(users, name)) && NameOfFd(users, FdOfName(users, name)) == name
  {
    IndexOfNameIs(users, IndexOfName(users, name));
  }

  ghost predicate Found(users: seq<User>, name: string) {
    KnownFd(users, FdOfName(users, name)) && NameOfFd(users, FdOfName(users, name)) == name
  }

  lemma BroadcastTells(users: seq<User>, watchers: seq<string>, kind: Kind, text: string)
    requires Sessions(users) && AllUsers(users, watchers)
    ensures TellsWatchers(users, watchers, Broadcast(users, watchers, kind, text), kind, text)
  {
    forall k | 0 <= k < |watchers| ensures Found(users, watchers[k]) {
      WatcherHasDescriptor(users, watchers[k]);
    }
    BroadcastFinds(users, watchers, kind, text);
  }

  lemma {:induction false} BroadcastFinds(users: seq<User>, watchers: seq<string>, kind: Kind, text: string)
    requires forall k :: 0 <= k < |watchers| ==> Found(users, watchers[k])
    ensures TellsWatchers(users, watchers, Broadcast(users, watchers, kind, text), kind, text)
  {
    var n := |watchers|;
    if n > 0 {
      BroadcastFinds(users, watchers[..n - 1], kind, text);
      TellsOneMore(users, watchers[..n - 1], Broadcast(users, watchers[..n - 1], kind, text), kind, text, watchers[n - 1]);
      assert watchers == watchers[..n - 1] + [watchers[n - 1]];
    }
  }

  lemma TellsOneMore(users: seq<User>, watchers: seq<string>, msgs: seq<Msg>, kind: Kind, text: string, name: string)
    requires TellsWatchers(users, watchers, msgs, kind, text)
    requires Found(users, name)
    ensures TellsWatchers(users, watchers + [name], msgs + [Msg(FdOfName(users, name), kind, text)], kind, text)
  {
  }

  // Nobody is skipped: every watcher has a descriptor.
  lemma {:induction false} NobodySkipped(users: seq<User>, watchers: seq<string>, kind: Kind, text: string)
    requires Sessions(users) && AllUsers(users, watchers)
    ensures BroadcastToKnown(users, watchers, kind, text) == Broadcast(users, watchers, kind, text)
  {
    var n := |watchers|;
    if n > 0 {
      NobodySkipped(users, watchers[..n - 1], kind, text);
      assert FdOfName(users, watchers[n - 1]) >= 0;
    }
  }

  lemma TellsBidder(users: seq<User>, watchers: seq<string>, msgs: seq<Msg>, kind: Kind, text: string, fd: int)
    requires Sessions(users) && KnownFd(users, fd)
    requires TellsWatchers(users, watchers, msgs, kind, text) && NameOfFd(users, fd) in watchers
    ensures Reaches(msgs, fd)
  {
    var k :| 0 <= k < |watchers| && watchers[k] == NameOfFd(users, fd);
    IndexOfNameIs(users, IndexOfFd(users, msgs[k].fd));
    IndexOfNameIs(users, IndexOfFd(users, fd));
    assert msgs[k].fd == fd;
  }

  // A refused bid changes nothing and is answered once.
  lemma Refused(s: State, e: Event)
    requires Enabled(s, e) && e.BidEv? && Listed(s, e.id) && !Raises(s, e)
    ensures Step(s, e) == s.(log := s.log + [Msg(e.fd, if Eligible(s, e) then EBIDLOW else EANDENIED, "")])
  {
    assert Record(s, e.id) == s.listed[IndexOfId(s.listed, e.id)];
  }

  // The auction with a new bid on it.
  function WithBid(s: State, e: Event): Auction
    requires Enabled(s, e) && e.BidEv? && Listed(s, e.id)
  {
    Record(s, e.id).(bid := e.amount, winner := Some(NameOfFd(s.users, e.fd)))
  }

  lemma RaisedState(s: State, e: Event)
    requires Enabled(s, e) && e.BidEv? && Raises(s, e) && !BuysNow(s, e)
    ensures var b := WithBid(s, e);
            Step(s, e) == s.(
              listed := s.listed[IndexOfId(s.listed, e.id) := b],
              log := s.log + BroadcastToKnown(s.users, b.watchers, ANUPDATE, UpdateText(b, NameOfFd(s.users, e.fd)))
                     + [Msg(e.fd, OK, "")])
  {
  }

  lemma BoughtState(s: State, e: Event)
    requires Ids(s) && Enabled(s, e) && e.BidEv? && BuysNow(s, e)
    ensures var b, i, t := WithBid(s, e), IndexOfId(s.listed, e.id), Step(s, e);
            && t.users == Settle(s.users, b)
            && t.listed == RemoveAt(s.listed, i)
            && t.closed == s.closed + [b] && t.lastId == s.lastId
            && t.log == s.log + Broadcast(t.users, b.watchers, ANCLOSED, ClosedText(b))
  {
    var m, i := BeforeClose(s, e), IndexOfId(s.listed, e.id);
    StepShape(s, e);
    RewrittenKeepsIds(s, m);
    CloseKeepsRecords(m, i);
    assert RemoveAt(m.listed, i) == RemoveAt(s.listed, i);
  }

  lemma Bidding(s: State, e: Event)
    requires Rules(s) && Enabled(s, e) && e.BidEv? && Raises(s, e)
    ensures e.amount > Record(s, e.id).bid
    ensures AllUsers(s.users, WithBid(s, e).watchers)
    ensures NameOfFd(s.users, e.fd) in WithBid(s, e).watchers
  {
    assert ListedOk(s.users, s.listed[IndexOfId(s.listed, e.id)]);
  }

  // An accepted bid below the buy-now price: the price rises, every watcher entry is
  // told once, the bidder among them, and then the bidder gets the OK.
  lemma Raised(s: State, e: Event) returns (told: seq<Msg>)
    requires Sessions(s.users) && Rules(s) && Enabled(s, e) && e.BidEv? && Raises(s, e) && !BuysNow(s, e)
    ensures e.amount > Record(s, e.id).bid
    ensures Step(s, e) == s.(
      listed := s.listed[IndexOfId(s.listed, e.id) := WithBid(s, e)],
      log := s.log + told + [Msg(e.fd, OK, "")])
    ensures TellsWatchers(s.users, WithBid(s, e).watchers, told, ANUPDATE, UpdateText(WithBid(s, e), NameOfFd(s.users, e.fd)))
    ensures Reaches(told, e.fd)
  {
    var b := WithBid(s, e);
    Bidding(s, e);
    RaisedState(s, e);
    told := BroadcastTo(s.users, b, ANUPDATE, UpdateText(b, NameOfFd(s.users, e.fd)), e.fd);
  }

  // A bid above the buy-now price: the auction closes for the bidder, and every watcher
  // entry is told once, the bidder among them.
  lemma Bought(s: State, e: Event) returns (told: seq<Msg>)
    requires Sessions(s.users) && Ids(s) && Rules(s) && Enabled(s, e) && e.BidEv? && BuysNow(s, e)
    ensures e.amount > Record(s, e.id).bid
    ensures var t := Step(s, e);
            && t.listed == RemoveAt(s.listed, IndexOfId(s.listed, e.id))
            && t.closed == s.closed + [WithBid(s, e)]
            && t.users == Settle(s.users, WithBid(s, e)) && t.lastId == s.lastId
            && t.log == s.log + told
    ensures TellsWatchers(s.users, WithBid(s, e).watchers, told, ANCLOSED, ClosedText(WithBid(s, e)))
    ensures Reaches(told, e.fd)
  {
    var b := WithBid(s, e);
    Bidding(s, e);
    BoughtState(s, e);
    told := BroadcastTo(s.users, b, ANCLOSED, ClosedText(b), e.fd);
    SettledBroadcast(s.users, b, ANCLOSED, ClosedText(b));
  }

  lemma BroadcastTo(users: seq<User>, a: Auction, kind: Kind, text: string, fd: int) returns (told: seq<Msg>)
    requires Sessions(users) && AllUsers(users, a.watchers)
    requires KnownFd(users, fd) && NameOfFd(users, fd) in a.watchers
    ensures told == Broadcast(users, a.watchers, kind, text) == BroadcastToKnown(users, a.watchers, kind, text)
    ensures TellsWatchers(users, a.watchers, told, kind, text)
    ensures Reaches(told, fd)
  {
    told := Broadcast(users, a.watchers, kind, text);
    BroadcastTells(users, a.watchers, kind, text);
    NobodySkipped(users, a.watchers, kind, text);
    TellsBidder(users, a.watchers, told, kind, text, fd);
  }

  lemma SettledBroadcast(users: seq<User>, a: Auction, kind: Kind, text: string)
    requires Sessions(users)
    ensures Broadcast(Settle(users, a), a.watchers, kind, text) == Broadcast(users, a.watchers, kind, text)
  {
    SettleEffect(users, a);
    SameBroadcast(users, Settle(users, a), a.watchers, kind, text);
  }

  // Settling the money does not change who is told.
  lemma {:induction false} SameBroadcast(us: seq<User>, vs: seq<User>, watchers: seq<string>, kind: Kind, text: string)
    requires |us| == |vs| && forall j :: 0 <= j < |us| ==> us[j].name == vs[j].name && us[j].fd == vs[j].fd
    ensures Broadcast(us, watchers, kind, text) == Broadcast(vs, watchers, kind, text)
  {
    var n := |watchers|;
    if n > 0 {
      SameBroadcast(us, vs, watchers[..n - 1], kind, text);
      assert IndexOfName(us, watchers[n - 1]) == IndexOfName(vs, watchers[n - 1]);
    }
  }

  // ---- over runs ----

  // All a bid can do, at any point of any run: nothing, one refusal, a higher price, or a
  // close for the bidder; and who reads what of it.
  lemma BidOutcomes(p: Run, e: Event) returns (told: seq<Msg>)
    requires Legal(Then(p, e)) && e.BidEv?
    ensures var s, t := After(p), After(Then(p, e));
            var i := IndexOfId(s.listed, e.id);
            if s.listed == [] then t == s.(log := s.log + [Msg(e.fd, EANNOTFOUND, "")])
            else if i == |s.listed| then t == s
            else
              var a, name := s.listed[i], NameOfFd(s.users, e.fd);
              if a.creator == name || name !in a.watchers then t == s.(log := s.log + [Msg(e.fd, EANDENIED, "")])
              else if e.amount <= a.bid then t == s.(log := s.log + [Msg(e.fd, EBIDLOW, "")])
              else
                var b := a.(bid := e.amount, winner := Some(name));
                && Reaches(told, e.fd)
                && if a.binFlag && e.amount > a.binPrice then
                     && t == State(Settle(s.users, b), RemoveAt(s.listed, i), s.closed + [b], s.lastId, s.log + told)
                     && TellsClosed(s.users, b, told)
                   else
                     && t == s.(listed := s.listed[i := b], log := s.log + told + [Msg(e.fd, OK, "")])
                     && TellsUpdate(s.users, b, name, told)
  {
    Reachable(p);
    var s := After(p);
    told := [];
    if Listed(s, e.id) {
      RaiseIsHigher(s, e);
      assert WithBid(s, e) == s.listed[IndexOfId(s.listed, e.id)].(bid := e.amount, winner := Some(NameOfFd(s.users, e.fd)));
      if !Raises(s, e) {
        Refused(s, e);
      } else if BuysNow(s, e) {
        told := Bought(s, e);
        Texts.ClosedTextReads(WithBid(s, e));
      } else {
        told := Raised(s, e);
        ItemIsOneLine(s, e.id);
        Texts.UpdateTextReads(WithBid(s, e), NameOfFd(s.users, e.fd));
      }
    }
  }

  lemma ItemIsOneLine(s: State, id: int)
    requires Rules(s) && Listed(s, id)
    ensures OneLine(Record(s, id).name)
  {
    assert ListedOk(s.users, s.listed[IndexOfId(s.listed, id)]);
  }

  // Every watcher entry reads, on the descriptor of that watcher, that the auction has
  // closed, to whom it was sold and for how much, or that it was not.
  ghost predicate TellsClosed(users: seq<User>, a: Auction, msgs: seq<Msg>) {
    && TellsWatchers(users, a.watchers, msgs, ANCLOSED, ClosedText(a))
    && forall k :: 0 <= k < |msgs| ==>
         Texts.ReadClosing(msgs[k].text)
         == Some(Texts.Closing(a.id, if a.winner.None? then None else Some((a.winner.value, a.bid))))
  }

  // Every watcher entry reads the auction, the item, the bidder and the bid.
  ghost predicate TellsUpdate(users: seq<User>, a: Auction, bidder: string, msgs: seq<Msg>) {
    && TellsWatchers(users, a.watchers, msgs, ANUPDATE, UpdateText(a, bidder))
    && forall k :: 0 <= k < |msgs| ==>
         Texts.ReadUpdate(msgs[k].text) == Some(Texts.Update(a.id, a.name, bidder, a.bid))
  }
}
