// The dispatcher of src/finalsample.c over the heap server. Each request is one step
// of AuctionModel, so what is proved there of every run holds of the objects.
module Dispatch {
  import opened AuctionModel
  import opened Invariants
  import opened AuctionRules
  import Reachability
  import Server

  // What a close needs is there in every reachable state.
  lemma ReachableIsConsistent(r: Run)
    requires Legal(r)
    ensures Server.Consistent(After(r))
  {
    var s := After(r);
    Reachability.Reachable(r);
    forall i | 0 <= i < |s.listed|
      ensures HasUser(s.users, s.listed[i].creator)
      ensures s.listed[i].winner.Some? ==> HasUser(s.users, s.listed[i].winner.value)
      ensures IndexOfId(s.listed, s.listed[i].id) == i
    {
      assert ListedOk(s.users, s.listed[i]);
      ListedAt(s, i);
    }
  }

  // The request switch, with login and the tick thread beside it: the server is where
  // the run leads, and one more event takes it to where the longer run leads.
  method ProcessJob(server: Server.Server, e: Event, ghost r: Run)
    requires server.Valid() && Legal(Then(r, e)) && server.State() == After(r)
    modifies server, server.users.repr, server.auctions.repr
    ensures server.Valid() && server.State() == After(Then(r, e))
    ensures fresh(server.users.repr - old(server.users.repr))
    ensures fresh(server.auctions.repr - old(server.auctions.repr))
  {
    ReachableIsConsistent(r);
    match e
    case LoginEv(fd, name, password) => var _ := server.Login(fd, name, password);
    case LogoutEv(fd) => server.Logout(fd);
    case CreateEv(fd, item, duration, price, junk) => server.CreateAuction(fd, item, duration, price, junk);
    case WatchEv(fd, id) => server.WatchAuction(fd, id);
    case LeaveEv(fd, id) => server.LeaveAuction(fd, id);
    case BidEv(fd, id, amount) => server.BidAuction(fd, id, amount);
    case ListEv(fd) => server.ListAuctions(fd);
    case TickEv => server.Tick();
  }

  function RunOf(events: seq<Event>): Run {
    if |events| == 0 then Start else Then(RunOf(events[..|events| - 1]), events[|events| - 1])
  }

  lemma {:induction false} NextIsLegal(events: seq<Event>, i: nat)
    requires Legal(RunOf(events)) && i < |events|
    ensures RunOf(events[..i + 1]) == Then(RunOf(events[..i]), events[i])
    ensures Legal(RunOf(events[..i + 1]))
  {
    assert events[..i + 1][..i] == events[..i];
    if i + 1 < |events| {
      var n := |events| - 1;
      NextIsLegal(events[..n], i);
      assert events[..n][..i + 1] == events[..i + 1];
    } else {
      assert events[..i + 1] == events;
    }
  }

  // A new server through a whole run.
  method Serve(events: seq<Event>) returns (server: Server.Server)
    requires Legal(RunOf(events))
    ensures fresh(server) && server.Valid() && server.State() == After(RunOf(events))
  {
    server := new Server.Server();
    var i := 0;
    while i < |events|
      invariant 0 <= i <= |events|
      invariant fresh(server) && fresh(server.users.repr) && fresh(server.auctions.repr)
      invariant server.Valid() && Legal(RunOf(events[..i])) && server.State() == After(RunOf(events[..i]))
    {
      NextIsLegal(events, i);
      ProcessJob(server, events[i], RunOf(events[..i]));
      i := i + 1;
    }
    assert events[..i] == events;
  }
}
