// Every request in a client's terms: the whole next state, and what the reply says to one
// that reads it, at any point of any run.
module Replies {
  import opened Wrappers
  import opened Seqs
  import opened AuctionModel
  import opened Invariants
  import opened AuctionRules
  import opened Reachability
  import opened BidOutcome
  import Listings
  import Texts

  // ---- which requests may come ----

  ghost predicate SomebodyOn(users: seq<User>, fd: int) {
    exists k :: 0 <= k < |users| && users[k].fd == fd
  }

  // Logout, list and tick always; a login on a descriptor nobody holds; bids and valid
  // creations on one that somebody holds; a watch of a listed auction likewise; a leave by
  // somebody who is on the auction's list, if it is listed.
  lemma WhenEnabled(s: State, e: Event)
    ensures Enabled(s, e) <==> match e
      case LoginEv(fd, _, _) => fd >= 0 && !SomebodyOn(s.users, fd)
      case CreateEv(fd, item, duration, price, _) =>
        && '\r' !in item && '\n' !in item
        && (item != "" && duration >= 1 && price >= 0 ==> SomebodyOn(s.users, fd))
      case WatchEv(fd, id) => IndexOfId(s.listed, id) < |s.listed| ==> SomebodyOn(s.users, fd)
      case LeaveEv(fd, id) =>
        && SomebodyOn(s.users, fd)
        && var i := IndexOfId(s.listed, id);
           i < |s.listed| ==> s.users[IndexOfFd(s.users, fd)].name in s.listed[i].watchers
      case BidEv(fd, _, _) => SomebodyOn(s.users, fd)
      case _ => true
  {
    if !e.TickEv? {
      SomebodyIsKnown(s.users, e.fd);
    }
  }

  lemma SomebodyIsKnown(users: seq<User>, fd: int)
    ensures SomebodyOn(users, fd) <==> KnownFd(users, fd)
  {
    if KnownFd(users, fd) {
      assert users[IndexOfFd(users, fd)].fd == fd;
    }
  }

  // An offer counts when the bidder watches the auction and did not create it.
  lemma EligibleMeans(s: State, e: Event)
    requires Enabled(s, e)
    ensures Eligible(s, e) <==>
      && e.BidEv?
      && var i := IndexOfId(s.listed, e.id);
         && i < |s.listed|
         && s.users[IndexOfFd(s.users, e.fd)].name != s.listed[i].creator
         && s.users[IndexOfFd(s.users, e.fd)].name in s.listed[i].watchers
  {
  }

  // ---- login and logout ----

  ghost predicate InUse(users: seq<User>, name: string) {
    exists k :: 0 <= k < |users| && users[k].name == name && users[k].loggedIn
  }

  ghost predicate Denied(users: seq<User>, name: string, password: string) {
    exists k :: 0 <= k < |users| && users[k].name == name && !users[k].loggedIn && users[k].password != password
  }

  ghost predicate SignedIn(users: seq<User>, fd: int, name: string, password: string) {
    exists k :: 0 <= k < |users|
      && users[k].name == name && users[k].loggedIn && users[k].fd == fd && users[k].password == password
  }

  // A login gets one reply: that the account is in use, that the password is wrong, or OK;
  // and OK exactly when it has led to that account being logged in on that descriptor.
  lemma LoginAnswered(p: Run, e: Event) returns (kind: Kind)
    requires Legal(Then(p, e)) && e.LoginEv?
    ensures var s, t := After(p), After(Then(p, e));
            && t == s.(users := t.users, log := s.log + [Msg(e.fd, kind, "")])
            && (kind == EUSRLGDIN <==> InUse(s.users, e.name))
            && (kind == EWRNGPWD <==> Denied(s.users, e.name, e.password))
            && (kind == OK <==> SignedIn(t.users, e.fd, e.name, e.password))
            && (kind == EUSRLGDIN || kind == EWRNGPWD || kind == OK)
            && (kind != OK ==> t.users == s.users)
            && (kind == OK ==> Signs(s.users, t.users, e))
  {
    Reachable(p);
    kind := LoginReplies(After(p), e);
  }

  lemma LoginReplies(s: State, e: Event) returns (kind: Kind)
    requires Sessions(s.users) && Enabled(s, e) && e.LoginEv?
    ensures var t := Step(s, e);
            && t == s.(users := t.users, log := s.log + [Msg(e.fd, kind, "")])
            && (kind == EUSRLGDIN <==> InUse(s.users, e.name))
            && (kind == EWRNGPWD <==> Denied(s.users, e.name, e.password))
            && (kind == OK <==> SignedIn(t.users, e.fd, e.name, e.password))
            && (kind == EUSRLGDIN || kind == EWRNGPWD || kind == OK)
            && (kind != OK ==> t.users == s.users)
            && (kind == OK ==> Signs(s.users, t.users, e))
  {
    var k := IndexOfName(s.users, e.name);
    if k < |s.users| {
      NamedOnce(s.users, e.name, e.password);
      var u := s.users[k];
      kind := if u.loggedIn then EUSRLGDIN else if u.password == e.password then OK else EWRNGPWD;
      if kind == OK {
        assert Step(s, e).users[k] == u.(loggedIn := true, fd := e.fd);
      } else {
        assert forall j :: 0 <= j < |s.users| ==> s.users[j].fd != e.fd;
      }
    } else {
      kind := OK;
      assert Step(s, e).users[|s.users|] == User(e.name, e.password, true, 0, e.fd, [], []);
    }
  }

  lemma NamedOnce(users: seq<User>, name: string, password: string)
    requires Sessions(users) && HasUser(users, name)
    ensures var u := users[IndexOfName(users, name)];
            && (InUse(users, name) <==> u.loggedIn)
            && (Denied(users, name, password) <==> !u.loggedIn && u.password != password)
    ensures forall j :: 0 <= j < |users| && users[j].name == name ==> j == IndexOfName(users, name)
  {
  }

  // One account is logged in, if it is there, or opened; no other changes.
  ghost predicate Signs(us: seq<User>, vs: seq<User>, e: Event)
    requires e.LoginEv?
  {
    if exists k :: 0 <= k < |us| && us[k].name == e.name then
      && |vs| == |us|
      && forall k :: 0 <= k < |us| ==>
           vs[k] == if us[k].name == e.name then us[k].(loggedIn := true, fd := e.fd) else us[k]
    else vs == us + [User(e.name, e.password, true, 0, e.fd, [], [])]
  }

  // A logout of a user is answered OK and logs that user out, and no other; of nobody, it
  // does and says nothing.
  lemma LogoutAnswered(p: Run, fd: int)
    requires Legal(Then(p, LogoutEv(fd)))
    ensures var s, t := After(p), After(Then(p, LogoutEv(fd)));
            if SomebodyOn(s.users, fd) then
              && t == s.(users := t.users, log := s.log + [Msg(fd, OK, "")])
              && |t.users| == |s.users|
              && forall k :: 0 <= k < |s.users| ==>
                   t.users[k] == if s.users[k].fd == fd then s.users[k].(loggedIn := false) else s.users[k]
            else t == s
  {
    Reachable(p);
    SomebodyIsKnown(After(p).users, fd);
  }

  // ---- creating ----

  // A creation is accepted exactly when it has an item, at least one tick to run and no
  // negative price; then a new auction with the next id stands last on the list, and the
  // reply is that id. Otherwise the one reply is EINVALIDARG.
  lemma CreateAnswered(p: Run, e: Event)
    requires Legal(Then(p, e)) && e.CreateEv?
    ensures var s, t := After(p), After(Then(p, e));
            if e.item != "" && e.duration >= 1 && e.price >= 0 then
              && t.lastId == s.lastId + 1
              && SomebodyOn(s.users, e.fd)
              && t.listed == s.listed + [Auction(t.lastId, e.item, e.duration, e.price, e.price > 0, 0, None,
                                                 s.users[IndexOfFd(s.users, e.fd)].name, [], e.junk)]
              && t.closed == s.closed
              && |t.users| == |s.users|
              && (forall k :: 0 <= k < |s.users| ==>
                    t.users[k] == if s.users[k].fd == e.fd then s.users[k].(owned := s.users[k].owned + [t.lastId]) else s.users[k])
              && |t.log| == |s.log| + 1 && t.log[..|s.log|] == s.log
              && t.log[|s.log|].fd == e.fd && t.log[|s.log|].kind == ANCREATE
              && Texts.ReadNumber(t.log[|s.log|].text) == Some(t.lastId)
            else t == s.(log := s.log + [Msg(e.fd, EINVALIDARG, "")])
  {
    var s := After(p);
    SomebodyIsKnown(s.users, e.fd);
    if !BadArguments(e.item, e.duration, e.price) {
      CreatorIs(p, e.fd);
      Texts.DecReads(s.lastId + 1);
    }
  }

  lemma CreatorIs(p: Run, fd: int)
    requires Legal(p) && KnownFd(After(p).users, fd)
    ensures LastNameOfFd(After(p).users, fd) == After(p).users[IndexOfFd(After(p).users, fd)].name
  {
    Reachable(p);
    OneOwner(After(p).users, fd);
  }

  // ---- watching, leaving, listing ----

  // A watch puts the user last on the auction's list; the reply is item and price.
  lemma WatchAnswered(s: State, e: Event)
    requires Enabled(s, e) && e.WatchEv?
    ensures var t, i := Step(s, e), IndexOfId(s.listed, e.id);
            if i == |s.listed| then t == s.(log := s.log + [Msg(e.fd, EANNOTFOUND, "")])
            else
              var a, name := s.listed[i], NameOfFd(s.users, e.fd);
              && t == s.(listed := s.listed[i := a.(watchers := a.watchers + [name],
                                                    numberOfWatchers := a.numberOfWatchers + 1)],
                         log := t.log)
              && |t.log| == |s.log| + 1 && t.log[..|s.log|] == s.log
              && t.log[|s.log|].fd == e.fd && t.log[|s.log|].kind == ANWATCH
              && Texts.ReadPriced(t.log[|s.log|].text) == Some((a.name, a.binPrice))
  {
    var i := IndexOfId(s.listed, e.id);
    if i < |s.listed| {
      Texts.PricedReads(s.listed[i].name, s.listed[i].binPrice);
    }
  }

  // A leave takes the user's first entry off the auction's list, and no other.
  lemma LeaveAnswered(s: State, e: Event) returns (k: nat)
    requires Enabled(s, e) && e.LeaveEv?
    ensures var t, i := Step(s, e), IndexOfId(s.listed, e.id);
            if i == |s.listed| then t == s.(log := s.log + [Msg(e.fd, EANNOTFOUND, "")])
            else
              var a, name := s.listed[i], NameOfFd(s.users, e.fd);
              && k < |a.watchers| && a.watchers[k] == name && (forall j :: 0 <= j < k ==> a.watchers[j] != name)
              && t == s.(listed := s.listed[i := a.(watchers := a.watchers[..k] + a.watchers[k + 1..],
                                                    numberOfWatchers := a.numberOfWatchers - 1)],
                         log := s.log + [Msg(e.fd, OK, "")])
  {
    var i := IndexOfId(s.listed, e.id);
    k := if i < |s.listed| then IndexOfWatcher(s.listed[i].watchers, NameOfFd(s.users, e.fd)) else 0;
  }

  // A listing is answered with one message, which reads back as the listed auctions, in
  // order, and changes nothing else.
  lemma ListAnswered(p: Run, fd: int)
    requires Legal(Then(p, ListEv(fd)))
    ensures var s, t := After(p), After(Then(p, ListEv(fd)));
            && t == s.(log := t.log)
            && |t.log| == |s.log| + 1 && t.log[..|s.log|] == s.log
            && t.log[|s.log|].fd == fd && t.log[|s.log|].kind == ANLIST
            && var rows := Listings.ReadListing(t.log[|s.log|].text);
               && |rows| == |s.listed|
               && forall i :: 0 <= i < |rows| ==>
                    var a := s.listed[i];
                    rows[i] == Some(Listings.Row(a.id, a.name, a.binPrice, a.numberOfWatchers, a.bid, a.duration))
  {
    ListReads(p);
    assert After(Then(p, ListEv(fd))).log[|After(p).log|].text == Listing(After(p).listed);
  }

  lemma ListReads(p: Run)
    requires Legal(p)
    ensures var rows := Listings.ReadListing(Listing(After(p).listed));
            && |rows| == |After(p).listed|
            && forall i :: 0 <= i < |rows| ==>
                 var a := After(p).listed[i];
                 rows[i] == Some(Listings.Row(a.id, a.name, a.binPrice, a.numberOfWatchers, a.bid, a.duration))
  {
    Listings.ServerListingDecodes(p);
    RowsAre(After(p).listed);
  }

  lemma {:induction false} RowsAre(auctions: seq<Auction>)
    ensures |Listings.Rows(auctions)| == |auctions|
    ensures forall i :: 0 <= i < |auctions| ==>
      var a := auctions[i];
      Listings.Rows(auctions)[i] == Some(Listings.Row(a.id, a.name, a.binPrice, a.numberOfWatchers, a.bid, a.duration))
  {
    if |auctions| > 0 {
      RowsAre(auctions[..|auctions| - 1]);
    }
  }

  // ---- the tick ----

  // The first auction that runs out on a tick, as it is closed.
  function Expired(s: State): Auction
    requires Expiring(s.listed) < |s.listed|
  {
    s.listed[Expiring(s.listed)].(duration := 0)
  }

  // A tick counts every auction down by one and says nothing, unless one runs out: then it
  // counts down to the first of these, closes it, tells its watchers, and leaves the
  // auctions behind it as they are.
  ghost predicate CountsDown(s: State, t: State, k: nat, told: seq<Msg>) {
    var counted :=
      && k <= |s.listed| && k <= |t.listed|
      && (forall i :: 0 <= i < k ==> s.listed[i].duration != 1)
      && (forall i :: 0 <= i < k ==> t.listed[i] == s.listed[i].(duration := s.listed[i].duration - 1))
      && if k == |s.listed| then t == s.(listed := t.listed) && |t.listed| == |s.listed|
         else
           var a := s.listed[k].(duration := 0);
           && s.listed[k].duration == 1
           && t.listed[k..] == s.listed[k + 1..]
           && t == State(Settle(s.users, a), t.listed, s.closed + [a], s.lastId, s.log + told)
           && TellsClosed(s.users, a, told);
    counted
  }

  lemma TickOutcome(p: Run) returns (k: nat, told: seq<Msg>)
    requires Legal(Then(p, TickEv))
    ensures CountsDown(After(p), After(Then(p, TickEv)), k, told)
  {
    var s := After(p);
    k := Expiring(s.listed);
    if k < |s.listed| {
      told := RunCountsDown(p);
    } else {
      told := [];
      NoneExpires(s);
    }
  }

  lemma RunCountsDown(p: Run) returns (told: seq<Msg>)
    requires Legal(p) && Expiring(After(p).listed) < |After(p).listed|
    ensures CountsDown(After(p), Tick(After(p)), Expiring(After(p).listed), told)
  {
    var s := After(p);
    told := Broadcast(s.users, Expired(s).watchers, ANCLOSED, ClosedText(Expired(s)));
    RunTells(p);
    RunCloses(p);
    FirstExpires(s, Tick(s), told);
  }

  lemma FirstExpires(s: State, t: State, told: seq<Msg>)
    requires Expiring(s.listed) < |s.listed| && TellsClosed(s.users, Expired(s), told)
    requires t == State(Settle(s.users, Expired(s)), RemoveAt(CountDown(s.listed, Expiring(s.listed) + 1), Expiring(s.listed)),
                        s.closed + [Expired(s)], s.lastId, s.log + told)
    ensures CountsDown(s, t, Expiring(s.listed), told)
  {
    Behind(s.listed, Expiring(s.listed));
  }

  lemma NoneExpires(s: State)
    requires Expiring(s.listed) == |s.listed|
    ensures CountsDown(s, Tick(s), |s.listed|, [])
  {
  }

  lemma Behind(auctions: seq<Auction>, k: nat)
    requires k < |auctions|
    ensures var after := RemoveAt(CountDown(auctions, k + 1), k);
            && |after| == |auctions| - 1 && after[k..] == auctions[k + 1..]
            && forall i :: 0 <= i < k ==> after[i] == auctions[i].(duration := auctions[i].duration - 1)
  {
  }

  lemma RunTells(p: Run)
    requires Legal(p) && Expiring(After(p).listed) < |After(p).listed|
    ensures var s, a := After(p), Expired(After(p));
            TellsClosed(s.users, a, Broadcast(s.users, a.watchers, ANCLOSED, ClosedText(a)))
  {
    Reachable(p);
    TickTells(After(p));
  }

  lemma RunCloses(p: Run)
    requires Legal(p) && Expiring(After(p).listed) < |After(p).listed|
    ensures var s, a := After(p), Expired(After(p));
            Tick(s) == State(Settle(s.users, a), RemoveAt(CountDown(s.listed, Expiring(s.listed) + 1), Expiring(s.listed)),
                             s.closed + [a], s.lastId, s.log + Broadcast(s.users, a.watchers, ANCLOSED, ClosedText(a)))
  {
    InOrder(p);
    ExpiredPlace(After(p).listed);
    SettledWatchers(p, Expired(After(p)));
    TickCloses(After(p));
  }

  lemma InOrder(p: Run)
    requires Legal(p)
    ensures Increasing(After(p).listed)
  {
    Reachable(p);
  }

  lemma ExpiredPlace(auctions: seq<Auction>)
    requires Increasing(auctions) && Expiring(auctions) < |auctions|
    ensures var k := Expiring(auctions); IndexOfId(CountDown(auctions, k + 1), auctions[k].id) == k
  {
    IndexOfIdIs(CountDown(auctions, Expiring(auctions) + 1), Expiring(auctions));
  }

  lemma TickCloses(s: State)
    requires Expiring(s.listed) < |s.listed|
    requires var k := Expiring(s.listed); IndexOfId(CountDown(s.listed, k + 1), s.listed[k].id) == k
    requires var a := Expired(s);
             Broadcast(Settle(s.users, a), a.watchers, ANCLOSED, ClosedText(a)) == Broadcast(s.users, a.watchers, ANCLOSED, ClosedText(a))
    ensures var a := Expired(s);
            Tick(s) == State(Settle(s.users, a), RemoveAt(CountDown(s.listed, Expiring(s.listed) + 1), Expiring(s.listed)),
                             s.closed + [a], s.lastId, s.log + Broadcast(s.users, a.watchers, ANCLOSED, ClosedText(a)))
  {
    assert CountDown(s.listed, Expiring(s.listed) + 1)[Expiring(s.listed)] == Expired(s);
  }

  lemma SettledWatchers(p: Run, a: Auction)
    requires Legal(p)
    ensures Broadcast(Settle(After(p).users, a), a.watchers, ANCLOSED, ClosedText(a))
         == Broadcast(After(p).users, a.watchers, ANCLOSED, ClosedText(a))
  {
    Reachable(p);
    SettledBroadcast(After(p).users, a, ANCLOSED, ClosedText(a));
  }

  lemma TickTells(s: State)
    requires Sessions(s.users) && Rules(s) && Expiring(s.listed) < |s.listed|
    ensures var a := Expired(s);
            TellsClosed(s.users, a, Broadcast(s.users, a.watchers, ANCLOSED, ClosedText(a)))
  {
    var a := Expired(s);
    assert ListedOk(s.users, s.listed[Expiring(s.listed)]);
    BroadcastTells(s.users, a.watchers, ANCLOSED, ClosedText(a));
    Texts.ClosedTextReads(a);
  }
}
