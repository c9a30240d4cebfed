// The watcher list of an auction, and the counter kept beside it, over whole runs.
module Watchers {
  import opened Seqs
  import opened AuctionModel
  import opened Invariants
  import opened Reachability

  // What the counter happened to hold when the auction was allocated.
  function Junk(r: Run, id: int): int
    requires Legal(r)
  {
    match r
    case Start => 0
    case Then(p, e) =>
      if id > After(p).lastId && Creates(After(p), e) then e.junk else Junk(p, id)
  }

  // Does this event put a user on the auction's list, or take them off it?
  function Joins(s: State, e: Event, id: int, name: string): nat
    requires Enabled(s, e)
  {
    if e.WatchEv? && e.id == id && Listed(s, id) && NameOfFd(s.users, e.fd) == name then 1 else 0
  }

  function Parts(s: State, e: Event, id: int, name: string): nat
    requires Enabled(s, e)
  {
    if e.LeaveEv? && e.id == id && Listed(s, id) && NameOfFd(s.users, e.fd) == name then 1 else 0
  }

  // How often a user has started watching the auction, and how often they have left it.
  function Watches(r: Run, id: int, name: string): nat
    requires Legal(r)
  {
    match r
    case Start => 0
    case Then(p, e) => Watches(p, id, name) + Joins(After(p), e, id, name)
  }

  function Leaves(r: Run, id: int, name: string): nat
    requires Legal(r)
  {
    match r
    case Start => 0
    case Then(p, e) => Leaves(p, id, name) + Parts(After(p), e, id, name)
  }

  lemma RemovalCounts(watchers: seq<string>, k: nat, name: string)
    requires k < |watchers|
    ensures multiset(RemoveAt(watchers, k))[name]
         == multiset(watchers)[name] - if watchers[k] == name then 1 else 0
  {
    assert watchers == watchers[..k] + [watchers[k]] + watchers[k + 1..];
  }

  lemma {:induction false} NobodyBeforeCreation(r: Run, id: int, name: string)
    requires Legal(r) && id > After(r).lastId
    ensures Watches(r, id, name) == Leaves(r, id, name) == 0
  {
    match r
    case Start =>
    case Then(p, e) =>
      NotYet(p, e, id);
      NobodyBeforeCreation(p, id, name);
  }

  lemma TouchedWatchers(s: State, e: Event, id: int, name: string)
    requires Enabled(s, e) && Recorded(s, id)
    ensures var a, b := Record(s, id), Touched(s, e, id);
            && b.numberOfWatchers - |b.watchers| == a.numberOfWatchers - |a.watchers|
            && multiset(b.watchers)[name] == multiset(a.watchers)[name] + Joins(s, e, id, name) - Parts(s, e, id, name)
  {
    var a := Record(s, id);
    if e.LeaveEv? && e.id == id && Listed(s, id) {
      RemovalCounts(a.watchers, IndexOfWatcher(a.watchers, NameOfFd(s.users, e.fd)), name);
    }
  }

  // One more event: how the multiplicity of a watcher and the counter move together.
  lemma WatcherStep(p: Run, e: Event, id: int, name: string)
    requires Legal(Then(p, e)) && Recorded(After(p), id)
    ensures Recorded(After(Then(p, e)), id)
    ensures var a, b := Record(After(p), id), Record(After(Then(p, e)), id);
            && b.numberOfWatchers - |b.watchers| == a.numberOfWatchers - |a.watchers|
            && multiset(b.watchers)[name] == multiset(a.watchers)[name]
                 + (Watches(Then(p, e), id, name) - Watches(p, id, name))
                 - (Leaves(Then(p, e), id, name) - Leaves(p, id, name))
  {
    Survives(p, e, id);
    TouchedWatchers(After(p), e, id, name);
  }

  // The counter is off by a constant: the junk it started from.
  lemma {:induction false} CounterDrift(r: Run, id: int)
    requires Legal(r) && Recorded(After(r), id)
    ensures Record(After(r), id).numberOfWatchers == |Record(After(r), id).watchers| + Junk(r, id)
  {
    match r
    case Start =>
      assert false;
    case Then(p, e) =>
      if Recorded(After(p), id) {
        CounterDrift(p, id);
        WatcherStep(p, e, id, "");
        Survives(p, e, id);
      } else {
        Born(p, e, id);
      }
  }

  // A user appears in the watcher list once for every watch not yet taken back.
  lemma {:induction false} Multiplicity(r: Run, id: int, name: string)
    requires Legal(r) && Recorded(After(r), id)
    ensures multiset(Record(After(r), id).watchers)[name] == Watches(r, id, name) - Leaves(r, id, name)
  {
    match r
    case Start =>
      assert false;
    case Then(p, e) =>
      if Recorded(After(p), id) {
        Multiplicity(p, id, name);
        WatcherStep(p, e, id, name);
      } else {
        Born(p, e, id);
        NobodyBeforeCreation(p, id, name);
      }
  }
}
