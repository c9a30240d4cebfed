// Who is told that an auction has closed: over any run, every close is announced once.
module Announcements {
  import opened AuctionModel
  import opened Invariants
  import opened AuctionRules
  import opened Reachability
  import opened BidOutcome
  import Texts

  // The messages of a kind, in the order they were sent.
  function Only(log: seq<Msg>, kind: Kind): seq<Msg> {
    if |log| == 0 then []
    else Only(log[..|log| - 1], kind) + if log[|log| - 1].kind == kind then [log[|log| - 1]] else []
  }

  function Flat<T>(xss: seq<seq<T>>): seq<T> {
    if |xss| == 0 then [] else Flat(xss[..|xss| - 1]) + xss[|xss| - 1]
  }

  lemma {:induction false} OnlySplits(log: seq<Msg>, more: seq<Msg>, kind: Kind)
    ensures Only(log + more, kind) == Only(log, kind) + Only(more, kind)
  {
    if |more| > 0 {
      OnlySplits(log, more[..|more| - 1], kind);
      assert (log + more)[..|log + more| - 1] == log + more[..|more| - 1];
    } else {
      assert log + more == log;
    }
  }

  lemma {:induction false} OnlyOneKind(msgs: seq<Msg>, kind: Kind, other: Kind)
    requires forall k :: 0 <= k < |msgs| ==> msgs[k].kind == other
    ensures Only(msgs, kind) == if kind == other then msgs else []
  {
    if |msgs| > 0 {
      OnlyOneKind(msgs[..|msgs| - 1], kind, other);
    }
  }

  function Announcement(users: seq<User>, a: Auction): seq<Msg> {
    Broadcast(users, a.watchers, ANCLOSED, ClosedText(a))
  }

  // ---- one step ----

  lemma QuietReply(s: State, t: State, msgs: seq<Msg>, kind: Kind)
    requires t.log == s.log + msgs && kind != ANCLOSED
    requires forall k :: 0 <= k < |msgs| ==> msgs[k].kind == kind
    ensures Only(t.log, ANCLOSED) == Only(s.log, ANCLOSED)
  {
    OnlySplits(s.log, msgs, ANCLOSED);
    OnlyOneKind(msgs, ANCLOSED, kind);
  }

  lemma {:induction false} UpdatesOnly(users: seq<User>, watchers: seq<string>, kind: Kind, text: string)
    ensures forall k :: 0 <= k < |BroadcastToKnown(users, watchers, kind, text)| ==>
      BroadcastToKnown(users, watchers, kind, text)[k].kind == kind
  {
    if |watchers| > 0 {
      UpdatesOnly(users, watchers[..|watchers| - 1], kind, text);
    }
  }

  lemma {:induction false} BroadcastOnly(users: seq<User>, watchers: seq<string>, kind: Kind, text: string)
    ensures forall k :: 0 <= k < |Broadcast(users, watchers, kind, text)| ==>
      Broadcast(users, watchers, kind, text)[k].kind == kind
  {
    if |watchers| > 0 {
      BroadcastOnly(users, watchers[..|watchers| - 1], kind, text);
    }
  }

  lemma CloseAnnounces(s: State, k: nat)
    requires Sessions(s.users) && k < |s.listed|
    ensures Only(Close(s, k).log, ANCLOSED) == Only(s.log, ANCLOSED) + Announcement(s.users, s.listed[k])
  {
    var a := s.listed[k];
    var msgs := Announcement(s.users, a);
    SettledBroadcast(s.users, a, ANCLOSED, ClosedText(a));
    BroadcastOnly(s.users, a.watchers, ANCLOSED, ClosedText(a));
    OnlySplits(s.log, msgs, ANCLOSED);
    OnlyOneKind(msgs, ANCLOSED, ANCLOSED);
  }

  // A raised bid announces no close.
  lemma RaiseAnnounces(s: State, e: Event)
    requires Enabled(s, e) && e.BidEv? && Raises(s, e) && !BuysNow(s, e)
    ensures Only(Step(s, e).log, ANCLOSED) == Only(s.log, ANCLOSED)
  {
    var b := WithBid(s, e);
    var text := UpdateText(b, NameOfFd(s.users, e.fd));
    var updates := BroadcastToKnown(s.users, b.watchers, ANUPDATE, text);
    RaisedState(s, e);
    UpdatesOnly(s.users, b.watchers, ANUPDATE, text);
    QuietReply(s, s.(log := s.log + updates), updates, ANUPDATE);
    QuietReply(s.(log := s.log + updates), Step(s, e), [Msg(e.fd, OK, "")], OK);
  }

  // What a step that closes nothing sends, but for a raised bid: at most one reply.
  lemma OneReply(s: State, e: Event)
    requires Enabled(s, e) && ClosesAt(s, e) == |s.listed| && !(e.BidEv? && Raises(s, e))
    ensures var t := Step(s, e);
            s.log <= t.log && |t.log| <= |s.log| + 1 && (|t.log| > |s.log| ==> t.log[|s.log|].kind != ANCLOSED)
  {
    if e.BidEv? && Listed(s, e.id) {
      Refused(s, e);
    }
  }

  lemma QuietAnnounces(s: State, e: Event)
    requires Enabled(s, e) && ClosesAt(s, e) == |s.listed|
    ensures Only(Step(s, e).log, ANCLOSED) == Only(s.log, ANCLOSED)
  {
    if e.BidEv? && Raises(s, e) {
      RaiseAnnounces(s, e);
    } else {
      OneReply(s, e);
      var t := Step(s, e);
      if |t.log| > |s.log| {
        QuietReply(s, t, [t.log[|s.log|]], t.log[|s.log|].kind);
      }
    }
  }

  predicate Closes(s: State, e: Event)
    requires Enabled(s, e)
  {
    !Creates(s, e) && ClosesAt(s, e) < |s.listed|
  }

  // The auction as a step closes it.
  function ClosedBy(s: State, e: Event): Auction
    requires Enabled(s, e) && Closes(s, e)
  {
    StepShape(s, e);
    BeforeClose(s, e).listed[ClosesAt(s, e)]
  }

  lemma StepAnnounces(s: State, e: Event)
    requires Sessions(s.users) && Enabled(s, e)
    ensures Closes(s, e) ==>
      && Step(s, e).closed == s.closed + [ClosedBy(s, e)]
      && Only(Step(s, e).log, ANCLOSED) == Only(s.log, ANCLOSED) + Announcement(s.users, ClosedBy(s, e))
    ensures !Closes(s, e) ==>
      && Step(s, e).closed == s.closed
      && Only(Step(s, e).log, ANCLOSED) == Only(s.log, ANCLOSED)
  {
    StepShape(s, e);
    if Closes(s, e) {
      CloseAnnounces(BeforeClose(s, e), ClosesAt(s, e));
    } else {
      QuietAnnounces(s, e);
    }
  }

  // ---- over runs ----

  // The announcements of all closes, in closing order.
  function Announced(r: Run): seq<seq<Msg>>
    requires Legal(r)
  {
    match r
    case Start => []
    case Then(p, e) =>
      Announced(p)
      + if Closes(After(p), e) then [Announcement(After(p).users, ClosedBy(After(p), e))] else []
  }

  // The users when the k-th close was announced.
  function UsersThen(r: Run, k: nat): seq<User>
    requires Legal(r)
  {
    match r
    case Start => []
    case Then(p, e) => if k < |After(p).closed| then UsersThen(p, k) else After(p).users
  }

  lemma NextAnnounces(p: Run, e: Event)
    requires Legal(Then(p, e))
    ensures var s, t := After(p), After(Then(p, e));
            var more := if Closes(s, e) then [ClosedBy(s, e)] else [];
            && t.closed == s.closed + more
            && Only(t.log, ANCLOSED) == Only(s.log, ANCLOSED) + Flat(Announced(Then(p, e))[|Announced(p)|..])
            && Announced(Then(p, e))[..|Announced(p)|] == Announced(p)
            && |Announced(Then(p, e))| == |Announced(p)| + |more|
  {
    DistinctUsers(p);
    StepAnnounces(After(p), e);
    if Closes(After(p), e) {
      FlatOne(Announcement(After(p).users, ClosedBy(After(p), e)));
    }
  }

  lemma DistinctUsers(r: Run)
    requires Legal(r)
    ensures Sessions(After(r).users)
  {
    Reachable(r);
  }

  lemma FlatOne<T>(xs: seq<T>)
    ensures Flat([xs]) == xs
  {
  }

  lemma {:induction false} FlatSplits<T>(xss: seq<seq<T>>, yss: seq<seq<T>>)
    ensures Flat(xss + yss) == Flat(xss) + Flat(yss)
  {
    if |yss| > 0 {
      FlatSplits(xss, yss[..|yss| - 1]);
      assert (xss + yss)[..|xss + yss| - 1] == xss + yss[..|yss| - 1];
    } else {
      assert xss + yss == xss;
    }
  }

  lemma {:induction false} LogAnnounces(r: Run)
    requires Legal(r)
    ensures Only(After(r).log, ANCLOSED) == Flat(Announced(r))
    ensures |Announced(r)| == |After(r).closed|
  {
    match r
    case Start =>
    case Then(p, e) =>
      LogAnnounces(p);
      NextAnnounces(p, e);
      FlatSplits(Announced(p), Announced(r)[|Announced(p)|..]);
      assert Announced(r) == Announced(p) + Announced(r)[|Announced(p)|..];
  }

  lemma {:induction false} EachTold(r: Run, k: nat)
    requires Legal(r) && k < |After(r).closed|
    ensures k < |Announced(r)|
    ensures var a := After(r).closed[k];
            TellsClosed(UsersThen(r, k), a, Announced(r)[k])
  {
    match r
    case Start =>
      assert false;
    case Then(p, e) =>
      LogAnnounces(p);
      NextAnnounces(p, e);
      if k < |After(p).closed| {
        EachTold(p, k);
      } else {
        ToldByStep(p, e);
      }
  }

  // Every auction closed, by a bid or by a tick, was announced once, to each of its watcher
  // entries, with its final winner and price, on the descriptor the watcher had; and
  // nothing else was ever announced as closed.
  lemma AnnouncedOnce(r: Run)
    requires Legal(r)
    ensures Only(After(r).log, ANCLOSED) == Flat(Announced(r))
    ensures |Announced(r)| == |After(r).closed|
    ensures forall k :: 0 <= k < |After(r).closed| ==>
      var a := After(r).closed[k];
      TellsClosed(UsersThen(r, k), a, Announced(r)[k])
  {
    LogAnnounces(r);
    forall k | 0 <= k < |After(r).closed|
      ensures var a := After(r).closed[k];
              TellsClosed(UsersThen(r, k), a, Announced(r)[k])
    {
      EachTold(r, k);
    }
  }

  lemma ToldByStep(p: Run, e: Event)
    requires Legal(Then(p, e)) && Closes(After(p), e)
    ensures var a := ClosedBy(After(p), e);
            TellsClosed(After(p).users, a, Announcement(After(p).users, a))
  {
    var a := ClosedBy(After(p), e);
    Reachable(p);
    NamesItsWatchers(p, e);
    BroadcastTells(After(p).users, a.watchers, ANCLOSED, ClosedText(a));
    Texts.ClosedTextReads(a);
  }

  lemma NamesItsWatchers(p: Run, e: Event)
    requires Legal(Then(p, e)) && Closes(After(p), e)
    ensures AllUsers(After(p).users, ClosedBy(After(p), e).watchers)
  {
    Reachable(p);
    StepShape(After(p), e);
    RewriteKeepsRules(After(p), e);
  }
}
