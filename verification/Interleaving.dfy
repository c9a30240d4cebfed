// The handlers of src/helpers.c interleaved: any number of threads run them over the same
// users and auctions, each access to the shared data a step of its own. Replies are left
// out; the scan of a tick is taken to be made under auctionsMutex.
module Interleaving {
  import opened Wrappers
  import opened Seqs
  import opened AuctionModel
  import opened Invariants

  // Where a thread is. `e` is the request it serves, `id` the auction it closes or creates.
  datatype Pc =
    | Resting
    | LoginWait(e: Event) | LoggingIn(e: Event) | LoginOut       // login, under usersMutex
    | LoggingOut(e: Event)                                       // logout takes no mutex
    | Waiting(e: Event)                                          // P(auctionsMutex)
    | Inside(e: Event)                                           // the request itself
    | NumberWait(e: Event) | NumberIn(e: Event) | NumberOut(e: Event, id: int)   // createAuction: the id,
    | Owning(e: Event, id: int)                                  // the owner and creator,
    | Appending(a: Auction)                                      // the list
    | DebitWait(id: int) | Debiting(id: int) | DebitOut(id: int)     // closeAuction: the winner,
    | CreditWait(id: int) | Crediting(id: int) | CreditOut(id: int)  // the creator,
    | Removing(id: int)                                          // removeByIndex
    | Leaving                                                    // V(auctionsMutex)

  datatype Server = Server(state: State, auctionsMutex: int, usersMutex: int, idMutex: int, threads: seq<Pc>)

  const INIT := Server(EMPTY, 1, 1, 1, [])

  function Bare(s: State): State { s.(log := []) }

  predicate Admitted(e: Event) { e.CreateEv? && !BadArguments(e.item, e.duration, e.price) }

  function First(e: Event): Pc {
    if e.LoginEv? then LoginWait(e) else if e.LogoutEv? then LoggingOut(e) else Waiting(e)
  }

  // Mutexes apart, when can a thread go on? Requests need what Enabled says of them when
  // they look at the data; pointers must not dangle.
  predicate Defined(s: State, pc: Pc) {
    match pc
    case Resting => false
    case Inside(e) => Admitted(e) || Enabled(s, e)
    case Owning(e, _) => e.CreateEv? && Enabled(s, e)
    case LoggingIn(e) => Enabled(s, e)
    case LoggingOut(e) => Enabled(s, e)
    case Debiting(id) => Listed(s, id) && s.listed[IndexOfId(s.listed, id)].winner.Some?
    case Crediting(id) => Listed(s, id)
    case Removing(id) => Listed(s, id)
    case _ => true
  }

  predicate Granted(v: Server, pc: Pc) {
    && (pc.Waiting? ==> v.auctionsMutex > 0)
    && (pc.LoginWait? || pc.DebitWait? || pc.CreditWait? ==> v.usersMutex > 0)
    && (pc.NumberWait? ==> v.idMutex > 0)
  }

  // The next access to the data.
  function Effect(s: State, pc: Pc): State
    requires Defined(s, pc)
  {
    match pc
    case Inside(e) => if Admitted(e) then s else Bare(BeforeClose(s, e))
    case NumberIn(_) => s.(lastId := s.lastId + 1)
    case Owning(e, id) => s.(users := MarkOwned(s.users, e.fd, id))
    case Appending(a) => s.(listed := s.listed + [a])
    case Debiting(id) =>
      var a := s.listed[IndexOfId(s.listed, id)];
      s.(users := Debit(s.users, a.winner.value, a.bid, a.id))
    case Crediting(id) =>
      var a := s.listed[IndexOfId(s.listed, id)];
      s.(users := Credit(s.users, a.creator, a.bid))
    case Removing(id) =>
      var i := IndexOfId(s.listed, id);
      s.(listed := RemoveAt(s.listed, i), closed := s.closed + [s.listed[i]])
    case LoggingIn(e) => Bare(Step(s, e))
    case LoggingOut(e) => Bare(Step(s, e))
    case _ => s
  }

  function Onward(s: State, pc: Pc): Pc
    requires Defined(s, pc)
  {
    match pc
    case LoginWait(e) => LoggingIn(e)
    case LoggingIn(_) => LoginOut
    case LoginOut => Resting
    case LoggingOut(_) => Resting
    case Waiting(e) => Inside(e)
    case Inside(e) => if Admitted(e) then NumberWait(e) else ThenCloses(s, e)
    case NumberWait(e) => NumberIn(e)
    case NumberIn(e) => NumberOut(e, s.lastId + 1)
    case NumberOut(e, id) => Owning(e, id)
    case Owning(e, id) =>
      Appending(Auction(id, e.item, e.duration, e.price, e.price != 0, 0, None, LastNameOfFd(s.users, e.fd), [], e.junk))
    case Appending(_) => Leaving
    case DebitWait(id) => Debiting(id)
    case Debiting(id) => DebitOut(id)
    case DebitOut(id) => CreditWait(id)
    case CreditWait(id) => Crediting(id)
    case Crediting(id) => CreditOut(id)
    case CreditOut(id) => Removing(id)
    case Removing(_) => Leaving
    case Leaving => Resting
  }

  // After the request itself: the close it leads to, if any.
  function ThenCloses(s: State, e: Event): Pc
    requires Enabled(s, e)
  {
    var t, k := BeforeClose(s, e), ClosesAt(s, e);
    if k < |t.listed| && k < |s.listed| then
      if t.listed[k].winner.Some? then DebitWait(t.listed[k].id) else CreditWait(t.listed[k].id)
    else Leaving
  }

  function Taken(yes: bool): int { if yes then 1 else 0 }

  datatype Action =
    | Spawn
    | Begin(i: nat, e: Event)
    | Go(i: nat)

  predicate Can(v: Server, a: Action) {
    match a
    case Spawn => true
    case Begin(i, _) => i < |v.threads| && v.threads[i].Resting?
    case Go(i) => i < |v.threads| && Defined(v.state, v.threads[i]) && Granted(v, v.threads[i])
  }

  function Next(v: Server, a: Action): Server
    requires Can(v, a)
  {
    match a
    case Spawn => v.(threads := v.threads + [Resting])
    case Begin(i, e) => v.(threads := v.threads[i := First(e)])
    case Go(i) =>
      var pc := v.threads[i];
      Server(
        Effect(v.state, pc),
        v.auctionsMutex - Taken(pc.Waiting?) + Taken(pc.Leaving?),
        v.usersMutex - Taken(pc.LoginWait? || pc.DebitWait? || pc.CreditWait?)
          + Taken(pc.LoginOut? || pc.DebitOut? || pc.CreditOut?),
        v.idMutex - Taken(pc.NumberWait?) + Taken(pc.NumberOut?),
        v.threads[i := Onward(v.state, pc)])
  }

  // ---- schedules ----

  datatype Schedule = Opened | More(before: Schedule, action: Action)

  predicate Possible(r: Schedule)
    decreases r, 0
  {
    match r
    case Opened => true
    case More(p, a) => Possible(p) && Can(Reached(p), a)
  }

  function Reached(r: Schedule): Server
    requires Possible(r)
    decreases r, 1
  {
    match r
    case Opened => INIT
    case More(p, a) => Next(Reached(p), a)
  }
}
