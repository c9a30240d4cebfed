// The three mutexes under the interleaved handlers: each is held by at most one thread and
// given back, and nobody waits in vain.
module Mutexes {
  import opened Seqs
  import opened AuctionModel
  import opened Invariants
  import opened Interleaving
  import opened Linearization

  // ---- who is inside ----

  function InUsers(pc: Pc): int {
    if pc.LoggingIn? || pc.LoginOut? || pc.Debiting? || pc.DebitOut? || pc.Crediting? || pc.CreditOut? then 1 else 0
  }

  function InIds(pc: Pc): int { if pc.NumberIn? || pc.NumberOut? then 1 else 0 }

  ghost predicate Counted(v: Server) {
    && v.auctionsMutex == 1 - Total(v.threads, Holds) && v.auctionsMutex >= 0
    && v.usersMutex == 1 - Total(v.threads, InUsers) && v.usersMutex >= 0
    && v.idMutex == 1 - Total(v.threads, InIds) && v.idMutex >= 0
  }

  lemma InsideOnward(s: State, pc: Pc)
    requires Defined(s, pc)
    ensures InUsers(Onward(s, pc)) == InUsers(pc)
      + Taken(pc.LoginWait? || pc.DebitWait? || pc.CreditWait?) - Taken(pc.LoginOut? || pc.DebitOut? || pc.CreditOut?)
    ensures InIds(Onward(s, pc)) == InIds(pc) + Taken(pc.NumberWait?) - Taken(pc.NumberOut?)
  {
  }

  lemma CountedNext(v: Server, a: Action)
    requires Counted(v) && Can(v, a)
    ensures Counted(Next(v, a))
  {
    ExclusiveNext(v, a);
    match a {
      case Spawn =>
        TotalAppend(v.threads, Resting, InUsers);
        TotalAppend(v.threads, Resting, InIds);
      case Begin(i, e) =>
        TotalUpdate(v.threads, i, First(e), InUsers);
        TotalUpdate(v.threads, i, First(e), InIds);
      case Go(i) =>
        InsideOnward(v.state, v.threads[i]);
        TotalUpdate(v.threads, i, Onward(v.state, v.threads[i]), InUsers);
        TotalUpdate(v.threads, i, Onward(v.state, v.threads[i]), InIds);
    }
  }

  // Under every interleaving a mutex is 1 less the number of threads inside, and so never
  // held by two, and free again when they have left.
  lemma {:induction false} AlwaysCounted(r: Schedule)
    requires Possible(r)
    ensures Counted(Reached(r))
  {
    match r
    case Opened =>
    case More(p, a) =>
      AlwaysCounted(p);
      CountedNext(Reached(p), a);
  }

  // ---- nobody waits in vain ----

  // A thread at a request the code gives no meaning to: a descriptor of nobody, a leave by
  // somebody who is not watching, a login on a descriptor in use.
  predicate Meaningless(v: Server, k: nat) {
    && k < |v.threads|
    && var pc := v.threads[k];
       && (pc.Inside? || pc.Owning? || pc.LoggingIn?)
       && !Enabled(v.state, pc.e)
  }

  ghost predicate AllFormed(v: Server) {
    forall i :: 0 <= i < |v.threads| ==> Formed(v.state, v.threads[i])
  }

  lemma Unblocked(v: Server, k: nat)
    requires AllFormed(v) && k < |v.threads| && !v.threads[k].Resting? && Granted(v, v.threads[k])
    ensures Can(v, Go(k)) || Meaningless(v, k)
  {
    assert Formed(v.state, v.threads[k]);
  }

  lemma UsersHolderGoes(v: Server) returns (k: nat)
    requires Counted(v) && AllFormed(v) && v.usersMutex == 0
    ensures Can(v, Go(k)) || Meaningless(v, k)
  {
    k := TotalWitness(v.threads, InUsers);
    Unblocked(v, k);
  }

  lemma IdsHolderGoes(v: Server) returns (k: nat)
    requires Counted(v) && AllFormed(v) && v.idMutex == 0
    ensures Can(v, Go(k)) || Meaningless(v, k)
  {
    k := TotalWitness(v.threads, InIds);
    Unblocked(v, k);
  }

  lemma InsiderGoes(v: Server, i: nat) returns (k: nat)
    requires Counted(v) && AllFormed(v) && i < |v.threads| && !v.threads[i].Resting? && !v.threads[i].Waiting?
    ensures Can(v, Go(k)) || Meaningless(v, k)
  {
    var pc := v.threads[i];
    if (pc.LoginWait? || pc.DebitWait? || pc.CreditWait?) && v.usersMutex == 0 {
      k := UsersHolderGoes(v);
    } else if pc.NumberWait? && v.idMutex == 0 {
      k := IdsHolderGoes(v);
    } else {
      k := i;
      Unblocked(v, i);
    }
  }

  // As long as a thread serves a request, some thread can go on, or one is at a request
  // that has no meaning.
  lemma SomebodyGoes(r: Schedule, i: nat) returns (k: nat)
    requires Possible(r) && i < |Reached(r).threads| && !Reached(r).threads[i].Resting?
    ensures Can(Reached(r), Go(k)) || Meaningless(Reached(r), k)
  {
    AlwaysCounted(r);
    Follow(r);
    var v := Reached(r);
    if !v.threads[i].Waiting? {
      k := InsiderGoes(v, i);
    } else if v.auctionsMutex > 0 {
      k := i;
      Unblocked(v, i);
    } else {
      var h := TotalWitness(v.threads, Holds);
      k := InsiderGoes(v, h);
    }
  }
}
