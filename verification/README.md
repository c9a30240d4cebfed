# ZBid: a verified model

ZBid is a multi-threaded auction server. Clients log in, create auctions, watch them, leave
them and bid; a tick thread counts every auction down and closes it when its time is up; money
moves from the winner to the creator when an auction closes. Client threads hand their requests
to job threads through a bounded ring buffer, and three mutexes guard the users, the auctions
and the id counter.

This project models the server and proves, over every run and every interleaving: who wins an
auction, when it closes, where the money goes, that no request is lost or reordered on its way
to a job thread, that the threads never deadlock, and that handlers run by many threads at once
do what they would do one after the other.

## Layout

| file | what it holds |
|---|---|
| `AuctionModel.dfy` | the server state and every handler as functions; events and runs |
| `Invariants.dfy`, `AuctionRules.dfy`, `Accounts.dfy`, `Reachability.dfy` | what every step keeps: sessions, ids, auction rules, ledger |
| `HighestBid.dfy`, `ClosingTime.dfy`, `Watchers.dfy`, `Theorems.dfy`, `BidOutcome.dfy`, `Announcements.dfy`, `Replies.dfy`, `Listings.dfy`, `Texts.dfy` | theorems about whole runs, about each single request with its reply, and about what a client reads in the texts sent |
| `LinkedList.dfy`, `Server.dfy`, `Dispatch.dfy` | the same server on the heap: nodes, user and auction objects, loops and in-place updates, each handler proved equal to its function in `AuctionModel` |
| `Ring.dfy`, `JobBuffer.dfy`, `JobFlow.dfy`, `Sbuf.dfy` | the job buffer, step by step under interleaving, what becomes of each job in it, and the buffer as a class |
| `Locks.dfy`, `LockTheorems.dfy`, `Serial.dfy` | the locking protocol and the two-section money transfer under interleaving; logins, logouts and closes are serializable |
| `Threads.dfy` | buffer and mutexes together: all threads of the server, waiting for either |
| `Interleaving.dfy`, `Linearization.dfy`, `Commuting.dfy`, `Mutexes.dfy` | the handlers access by access over shared users and auctions, for any number of threads: the whole state is serializable, and nobody waits in vain |
| `Numerals.dfy`, `Sio.dfy` | numerals, and the in-place number printer |
| `Wrappers.dfy`, `Seqs.dfy` | `Option`, and small facts about sequences and sums |

`dafny verify dfyconfig.toml` checks the whole project.

## What is assumed

- In `AuctionModel` and `Server` one request, one login and one tick are each one atomic step.
  `Interleaving` breaks them up into their accesses to the shared data, and
  `Linearization.Serializable` shows that the atomic steps are enough. There a tick is taken to
  scan the list under auctionsMutex, which the code takes only for the close.
- Replies are part of `AuctionModel` and `Server` only: their order among threads is not followed.
- A login comes on a descriptor that no account holds: `accept` never returns an open one, and
  logout closes none. Bids, watches, leaves and valid creations come on a descriptor of a user;
  the code dereferences the result of `findUsername` unchecked. A login refused with EUSRLGDIN
  still gets a client thread, and its descriptor belongs to no user.
- A leave by somebody who is not watching, on a listed auction, has no meaning in the code (it
  asks `removeByIndex` for index -1), so `CanLeave` excludes it and nothing else.
- Item names are `strtok` tokens, so they hold no CR and no LF. They may hold `;`.
- `numberOfWatchers` starts from whatever the allocation holds: a parameter, called `junk`.
- Users are identified by name where the code compares name pointers; `Sessions` shows that
  names are distinct and `Theorems.AccountsForever` that they never change. Lists of owned
  and won auctions are lists of ids.
- Balances, ids, counters and durations are unbounded integers; `sio_ltoa` alone models the
  machine's `long`, with its least value. Negating that value is undefined in C; it is modelled
  as wrapping around.
- Sending is appending to a log; the text buffers are large enough.

Three facts of the code shape the theorems. A tick stops at the first auction it closes, so
auctions behind it lose that tick: `ClosingTime.Countdown` accounts for each such tick.
The buy-now branch does not compare with the current bid: that it never lowers the price is an
invariant (`AuctionRules.RaiseIsHigher`). And two claims hold only under a condition, which is
proved exactly: the printed number reads back if and only if it is not the least `long`
(`Sio.RoundTrip`), and a buy-now auction escapes being bought if and only if no eligible offer
exceeds its price (`HighestBid.BoughtWhenAbove`). A bid on an id that is not listed gets no
reply when other auctions are listed, and `EANNOTFOUND` when none is; `AuctionModel.Bid` keeps
both.

## Model

| member | source | states |
|---|---|---|
| HighestBid.HighestBidWins | src/helpers.c:581-671 | over every run, the winner and price of an auction, listed or closed, are those of the earliest among its highest positive eligible offers; no winner and price 0 exactly when no offer was positive |
| HighestBid.WinsIsUnique | src/helpers.c:581-671 | an offer history determines winner and price |
| HighestBid.PriceStep | src/helpers.c:604-668 | one more event changes winner and price exactly when it is an eligible offer above the price, on either branch of the handler |
| HighestBid.PricesRise | src/helpers.c:627-651 | the accepted bids of an auction strictly rise over its whole life and end at its price |
| HighestBid.BoughtWhenAbove | src/helpers.c:627-634 | a buy-now auction is listed or has run out if and only if no eligible offer exceeded its buy-now price |
| HighestBid.BoughtByFirstAbove | src/helpers.c:627-634 | a buy-now auction is bought by the first eligible offer above its price: no earlier offer exceeds it |
| ClosingTime.Countdown | src/finalsample.c:247-267 | exact account over every run: duration is what it was at creation less the ticks while listed plus the ticks lost to a close ahead of it; place is what it was less the auctions ahead that closed |
| ClosingTime.TickLowersRank | src/finalsample.c:251-267 | each tick lowers duration plus place of an auction that stays listed by exactly one; no other step raises it |
| ClosingTime.StepClock | src/finalsample.c:251-267 | what one step does to duration and place: an auction behind the one that closes keeps its duration and moves up by one |
| ClosingTime.GoneInTime | src/finalsample.c:251-267 | an auction created with duration d behind i others is closed once d + i ticks have passed |
| ClosingTime.NeverEarly | src/finalsample.c:256-263 | an auction that ran out was listed for d ticks plus the lost ones, at most d + i; one closed within fewer than d ticks was bought |
| Theorems.BalanceIsLedger | src/helpers.c:342-371 | a balance is the sum of final bids of the user's closed auctions less the prices of the auctions in their list of wins, which are the closed auctions they won, in closing order |
| Theorems.LedgerSplits | src/helpers.c:342-371 | the running ledger of a user splits into sales less the prices of the list of wins |
| Theorems.MoneyConserved | src/helpers.c:352-371 | between requests all balances together are zero |
| Theorems.IdPartition | src/helpers.c:299-318 | ids rise along the list; the ids issued are the disjoint union of listed and closed; each is owned by exactly its creator, and won by exactly its winner once closed |
| Theorems.ClosedForever | src/finalsample.c:256-263 | the closed auctions of an earlier point of a run are a prefix of those later, and no id repeats among them: none is closed twice, reopened or changed |
| Theorems.LookupBijection | src/helpers.c:45-100 | in every reachable state the lookups by name and by descriptor are inverse to each other |
| Theorems.AccountsForever | src/helpers.c:143-207 | accounts are never dropped, reordered, renamed or given another password |
| Reachability.Reachable | src/finalsample.c:274-385 | every reachable state keeps sessions distinct, ids partitioned, the auction rules, the ledger, ownership and zero total money |
| Reachability.StepKeepsGood | src/finalsample.c:274-385 | every request and every tick keeps all of these |
| Reachability.Survives | src/helpers.c:244-671 | an auction on record stays on record, changed by an event only as its own handler changes it |
| Reachability.Born | src/helpers.c:274-318 | the only new record an event makes is the auction it creates, at the end of the list, under the next id |
| Reachability.RecordRules | src/helpers.c:258-286 | every auction on record: bid at least 0, winner absent exactly at 0 and never the creator, all names are users; while listed at least one tick to run and a price not above buy-now; once closed it ran out or, with time left, was bought |
| AuctionRules.StepKeepsRules | src/helpers.c:604-668 | every event keeps the rules of listed and closed auctions |
| AuctionRules.RaiseIsHigher | src/helpers.c:627-641 | the handler puts a bid on an auction exactly when it is eligible and above the current bid, though the buy-now branch does not compare |
| Accounts.StepKeepsBooks | src/helpers.c:342-371 | every event keeps each balance and list of wins equal to what the closed auctions say |
| Accounts.StepKeepsOwned | src/helpers.c:304-316 | every event keeps each list of owned auctions exact, without repetition |
| Accounts.StepKeepsMoney | src/helpers.c:352-371 | no event changes the sum of all balances |
| Accounts.SettleMoney | src/helpers.c:342-371 | the debit of the winner and the credit of the creator cancel |
| Invariants.StepKeepsSessions | src/helpers.c:143-207 | every event keeps names and descriptors pairwise distinct and all accounts in place |
| Invariants.SettleEffect | src/helpers.c:342-371 | a close touches exactly the winner (debited, auction won) and the creator (credited), found by name |
| Invariants.StepKeepsIds | src/helpers.c:299-318 | every event keeps the ids rising along the list and partitioned into listed and closed |
| Invariants.StepShape | src/finalsample.c:247-267 | every event creates one auction, or rewrites the list in place and then closes at most one |
| Invariants.StepTouches | src/helpers.c:452-671 | the record of an auction after any event, read off its record before; a closed one no longer changes |
| Invariants.CloseKeepsRecords | src/finalsample.c:256-263 | closing removes exactly the given auction, keeps the order of the others and every record |
| Watchers.CounterDrift | src/helpers.c:452-491 | over every run the counter of watchers is off from the watcher list by the constant it started from |
| Watchers.Multiplicity | src/helpers.c:500-539 | a user is on the watcher list as many times as they watched and have not left since |
| Watchers.WatcherStep | src/helpers.c:452-539 | one event moves the counter with the list, and a multiplicity by the watches and leaves of that user |
| BidOutcome.Refused | src/helpers.c:604-668 | a bid that is not accepted changes nothing and gets exactly one reply: EANDENIED if not eligible, EBIDLOW if it is |
| BidOutcome.Raised | src/helpers.c:638-651 | an accepted bid raises the price, sends one ANUPDATE to each watcher entry, the bidder among them, then one OK |
| BidOutcome.Bought | src/helpers.c:627-634 | a buy-now bid closes the auction for the bidder, settles winner and creator, changes no other auction, and sends one ANCLOSED to each watcher entry, the bidder among them |
| BidOutcome.BidOutcomes | src/helpers.c:581-671 | at any point of any run a bid does exactly one of: nothing, or EANNOTFOUND on an empty list, for an unlisted id; EANDENIED to a creator or non-watcher; EBIDLOW up to the current bid; above it a close beyond the buy-now price, else a raise, each with messages that read as winner or bidder and the new price; the whole next state is given |
| Announcements.AnnouncedOnce | src/helpers.c:332-385 | over every run the ANCLOSED messages sent are, close by close in closing order, one per watcher entry of the closed auction, on the descriptor the watcher then had, and each reads as its id, its final winner and its final price, or as unsold; no other ANCLOSED is ever sent |
| Announcements.StepAnnounces | src/helpers.c:373-384 | a step closes at most one auction and announces exactly that one |
| Replies.LoginAnswered | src/helpers.c:143-207 | at any point of any run a login gets one message: EUSRLGDIN exactly when the account is logged in, EWRNGPWD exactly when it is logged out with another password, OK exactly when afterwards it is logged in on that descriptor with that password; only an OK changes an account, and only that one |
| Replies.LogoutAnswered | src/helpers.c:210-241 | a logout of a user logs out that user alone and is answered OK; a logout of nobody changes and sends nothing |
| Replies.CreateAnswered | src/helpers.c:244-330 | a creation with an item, a duration of at least 1 and a price of at least 0 is accepted: next id, record last on the list, owner, and one ANCREATE that reads as that id; any other changes nothing and is answered EINVALIDARG |
| Replies.WatchAnswered | src/helpers.c:452-497 | a watch adds the user at the end of the watcher list and is answered with item and buy-now price; for an unlisted id EANNOTFOUND and no change |
| Replies.LeaveAnswered | src/helpers.c:500-539 | a leave takes off the user's first entry and is answered OK; for an unlisted id EANNOTFOUND and no change |
| Replies.ListAnswered | src/helpers.c:419-449 | a listing request changes nothing and is answered with one message that reads as exactly the listed auctions, in order |
| Replies.TickOutcome | src/finalsample.c:247-267 | the whole next state of a tick: all counted down and nothing sent, or counted down to the first that runs out, that one closed and announced, those behind it as they were |
| Replies.WhenEnabled | src/finalsample.c:300-352 | exactly which requests the runs admit, written out |
| Replies.EligibleMeans | src/helpers.c:604-623 | an offer counts exactly when its bidder watches the auction and did not create it |
| Texts.ClosedTextReads | src/helpers.c:332-359 | the text of an announcement reads back as the id, and the winner and price or the lack of them |
| Texts.UpdateTextReads | src/helpers.c:542-561 | the text of an update reads back as id, item, bidder and bid |
| BidOutcome.BroadcastTells | src/helpers.c:373-384 | a broadcast is one message per watcher entry, each on that watcher's descriptor |
| BidOutcome.NobodySkipped | src/helpers.c:563-577 | the update skips nobody: every watcher entry has a descriptor |
| Listings.ListingDecodes | src/helpers.c:388-449 | the listing of any auctions whose names hold no LF, though they may hold `;`, decodes to their ids, names, buy-now prices, watcher counts, bids and durations |
| Listings.ServerListingDecodes | src/helpers.c:419-449 | so does the listing of the server at any point of any run |
| Listings.ReadLineOf | src/helpers.c:388-416 | one line decodes, by its first `;` and its last four |
| LinkedList.List.InsertAtHead | src/linkedlist.c:46-62 | prepends to the sequence and keeps the chain; nothing for a null value |
| LinkedList.List.InsertAtTail | src/linkedlist.c:64-82 | appends to the sequence and keeps the chain; nothing for a null value |
| LinkedList.List.InsertInOrder | src/linkedlist.c:85-124 | inserts at `OrderedPosition` and keeps the chain; the pointer loop ends |
| LinkedList.List.InsertBehindHead | src/linkedlist.c:102-123 | the pointer loop: the node goes in front of the first later node that is not smaller |
| LinkedList.List.RemoveFront | src/linkedlist.c:126-144 | takes the first value and frees its node; nothing on an empty list |
| LinkedList.List.RemoveRear | src/linkedlist.c:146-168 | takes the last value and frees its node; nothing on an empty list |
| LinkedList.List.RemoveByIndex | src/linkedlist.c:171-205 | takes exactly the value at the index, keeps the nodes and order of the others, frees that node; nothing beyond the end |
| LinkedList.OrderedInsertion | src/linkedlist.c:85-124 | for any total preorder, ordered insertion keeps a sorted list sorted and adds exactly one element |
| LinkedList.OrderedTies | src/linkedlist.c:99-122 | among equal values the new one goes in front of all but the head |
| LinkedList.PositionSplits | src/linkedlist.c:99-122 | the insertion point has no greater value before it and no smaller one behind it |
| Server.UserTable.FindUsername | src/helpers.c:45-58 | the first user on a descriptor, or null |
| Server.UserTable.FindUserStruct | src/helpers.c:60-81 | the first user of a name, or null |
| Server.UserTable.FindClientFd | src/helpers.c:83-100 | the descriptor of the first user of a name, or -1 |
| Server.FindUserIndex | src/helpers.c:120-141 | the first place of a name on a watcher list, or -1 |
| Server.AuctionTable.FindAuctionIndex | src/helpers.c:102-118 | the place of the first auction with the id, or -1 |
| Server.AuctionTable.FindNode | src/helpers.c:460-466 | the scan of the handlers ends at the node of the first auction with the id, or at null |
| Server.AuctionTable.Unlist | src/finalsample.c:260-261 | removal by index deletes exactly the given auction from the list and keeps the order of the others |
| Server.UserTable.MarkOwners | src/helpers.c:305-316 | every account on the descriptor is recorded as owner, and the last one found is the creator |
| Server.Server.Login | src/helpers.c:143-207 | the heap login takes the state where `Login` says, and returns -1 exactly for an account that is logged out and has another password |
| Server.Server.Logout | src/helpers.c:210-241 | the heap logout takes the state where `Logout` says |
| Server.Server.CreateAuction | src/helpers.c:244-330 | the heap handler takes the state where `Create` says |
| Server.Server.WatchAuction | src/helpers.c:452-497 | the heap handler takes the state where `Watch` says |
| Server.Server.LeaveAuction | src/helpers.c:500-539 | the heap handler takes the state where `Leave` says |
| Server.Server.BidAuction | src/helpers.c:581-671 | the heap handler takes the state where `Bid` says |
| Server.Server.CloseAuction | src/helpers.c:332-385 | settles winner and creator, then tells every watcher entry |
| Server.Server.CloseAndRemove | src/finalsample.c:258-262 | close, index and removal take the state where `Close` says, and exactly one node off the chain |
| Server.Server.UpdateAuction | src/helpers.c:542-578 | tells every watcher with a descriptor, changing nothing else |
| Server.Server.ListAuctions | src/helpers.c:419-449 | sends the listing of the list in order, changing nothing else |
| Server.Server.Tick | src/finalsample.c:247-267 | the scan over the nodes takes the state where `Tick` says and never follows the node it freed |
| Dispatch.ReachableIsConsistent | src/helpers.c:352-371 | in every reachable state the accounts a close settles exist and an id finds its own auction |
| Dispatch.ProcessJob | src/finalsample.c:300-352 | on any legal run, the next event (login, logout, create, list, watch, leave, bid, tick) takes the heap server from where the run leads to where the longer run leads |
| Dispatch.Serve | src/finalsample.c:387-399 | a new heap server driven through the events of any legal run ends where the run leads, so every theorem about runs holds of its objects |
| JobBuffer.FirstInFirstOut | src/sbuf.c:19-50 | under every interleaving the jobs removed, followed by those in the ring, are exactly the jobs inserted, in mutex order: none lost, repeated or overwritten |
| JobFlow.ClientsInOrder | src/finalsample.c:144-191 | each client thread inserts the jobs it receives, in order and each once: received equals inserted by it, followed by the one in its hands |
| JobFlow.ClientLife | src/finalsample.c:129-198 | over every run: only the last message a client thread takes can be a logout; the thread has returned exactly when that was one and is posted, and otherwise listens once all its jobs are posted |
| JobFlow.WorkersInOrder | src/finalsample.c:387-399 | each job thread processes the jobs it removes, in order and each once: removed by it equals processed, followed by the one in its hands |
| JobFlow.AlwaysDrains | src/sbuf.c:19-50 | under every schedule without new messages the threads have an exact number of steps to take; until all are taken some thread can go on, and then all jobs inserted have been removed and nobody holds one |
| JobFlow.StepsShrink | src/sbuf.c:19-50 | every step of a client or job thread lowers the number of steps left by exactly one |
| JobBuffer.RefinesQueue | src/sbuf.c:19-50 | every step of every thread is an enqueue with room to spare, a dequeue of the oldest job, or leaves the queue as it is |
| JobBuffer.SlotsAccountedFor | src/sbuf.c:8-50 | slots, items and the threads in between add up to n in every reachable state, and 0 <= rear - front <= n |
| JobBuffer.NeverReturnsHoldingTheMutex | src/sbuf.c:41-43 | the early return that keeps the mutex is never reached |
| JobBuffer.MutualExclusion | src/sbuf.c:21-29 | at most one thread is between P(mutex) and V(mutex) |
| JobBuffer.InsertersNeverStuck | src/sbuf.c:19-50 | with cells and at least one job thread, while a client thread is inserting some thread can step, processing counted as a step |
| JobBuffer.StuckOnlyWhenIdle | src/sbuf.c:19-50 | all threads wait if and only if nothing is being inserted, every job thread waits for a job and the ring is empty, processing counted as a step |
| JobBuffer.NextKeepsInv | src/sbuf.c:19-50 | every step keeps the semaphore accounts, the histories and the absence of null jobs |
| Ring.WriteEnqueues | src/sbuf.c:26-26 | a write into a ring that is not full appends to its queue and overwrites nothing unread |
| Ring.ReadDequeues | src/sbuf.c:44-44 | a read from a ring that is not empty takes the oldest job |
| Sbuf.Sbuf.constructor | src/sbuf.c:8-16 | an empty ring of n cells with its three semaphores |
| Sbuf.Sbuf.Insert | src/sbuf.c:19-31 | run without interruption: one job appended, one slot turned into one item |
| Sbuf.Sbuf.Remove | src/sbuf.c:33-50 | run without interruption: the oldest job taken, one item turned into one slot; with no cells it returns null and keeps the mutex |
| LockTheorems.MoneyInFlight | src/helpers.c:352-371 | at every step of every interleaving all balances plus what closes in progress have debited and not credited are zero, and at most one thread is in the middle of a transfer |
| LockTheorems.MoneyWhenFree | src/finalsample.c:258-262 | all balances are zero together whenever auctionsMutex is free |
| LockTheorems.QuietLedger | src/helpers.c:352-371 | whenever no thread is working each balance is the ledger of the closes begun, however they interleaved |
| LockTheorems.NoDeadlock | src/finalsample.c:315-380 | in every reachable state of any number of threads, no thread can execute if and only if all are idle |
| LockTheorems.SomebodyMoves | src/helpers.c:299-371 | from any thread at work a chain of threads, each waiting for a mutex the next one holds and each for one of higher rank, ends at a thread that can execute |
| LockTheorems.CanFinish | src/finalsample.c:315-380 | from every reachable state the threads can finish all their work |
| LockTheorems.AlwaysFinishes | src/finalsample.c:315-380 | every schedule without new work executes exactly the instructions the threads have left; it cannot go on if and only if all are executed |
| Threads.NobodyStuck | src/finalsample.c:129-399 | with cells and a job thread, in every reachable state of client threads, job threads, tick and accepting thread together, waiting for the ring or for mutexes, no thread at work can step if and only if there is nothing to do |
| Threads.WorkEnds | src/finalsample.c:129-399 | every schedule without new connections, messages, logins or ticks is finite, within a bound computed from the state |
| Threads.AllDone | src/finalsample.c:129-399 | where such a schedule ends, all jobs inserted have been removed in order and processed, and every mutex is free |
| Threads.NextKeepsInv | src/finalsample.c:129-399 | every step of any thread keeps the invariants of buffer and mutexes, and a thread is in a code path only while reading a message or processing a job |
| Threads.Roles | src/finalsample.c:129-480 | each thread runs only its own code paths: clients read messages under buffer_lock, ticks and logins have their threads, job threads do the rest |
| Linearization.Serializable | src/helpers.c:143-671 | under every interleaving of any number of threads running the handlers access by access, the requests form a legal run of the atomic model, and whenever auctionsMutex is free users, listed auctions, closed auctions and id counter are exactly where that run leads |
| Linearization.Follow | src/helpers.c:244-671 | and while a thread holds auctionsMutex, they are so but for what that thread has yet to do or has done ahead |
| Linearization.EveryRequestOnce | src/finalsample.c:300-352 | each request begun has exactly one place in that run, or is still ahead of its thread |
| Linearization.PlacesAreFinal | src/finalsample.c:300-352 | places once taken are kept, so a request served before another begins comes before it |
| Linearization.NeverDangles | src/finalsample.c:256-263 | the auction a thread is closing is on the list at each of its accesses, whatever other threads do |
| Mutexes.AlwaysCounted | src/helpers.c:299-371 | under every interleaving each of the three mutexes is 1 less the number of threads inside it and never negative: no two are inside, and it is free when they have left |
| Mutexes.SomebodyGoes | src/helpers.c:143-671 | while any thread serves a request some thread can go on, or stands at a request the code gives no meaning to, which is written out |
| Linearization.InterleavedAuctions | src/helpers.c:581-671 | under every interleaving, whenever auctionsMutex is free, every auction ever created is held by its first highest eligible offer, and all balances are zero together |
| Linearization.SessionCommutes | src/helpers.c:143-241 | a login or logout beside a request in progress does what it would do after it |
| Linearization.ClosingDecides | src/helpers.c:332-371 | a request that closes an auction leaves, once its debit, credit and removal are done, exactly what the atomic step leaves |
| Commuting.SignInCommutes | src/helpers.c:143-207 | a login and a payment give the same accounts in either order |
| Serial.Serializable | src/helpers.c:352-371 | whenever no thread is in the middle of its work, under any interleaving, all accounts (names, passwords, flags, balances, descriptors and lists of wins) are exactly those left by the same logins, logouts and closes done one at a time, each once |
| Serial.EveryWorkOnce | src/helpers.c:352-371 | at every moment, each login, logout or close begun has taken effect once or is still ahead of its thread |
| Serial.OrderIsFinal | src/helpers.c:352-371 | the serial order never changes afterwards, so work finished before other work begins stays ahead of it |
| Serial.Reachable | src/helpers.c:352-371 | at every step of every interleaving the accounts are those of the serial order, and of the debit of the one close that is between its two sections |
| Serial.SessionCommutes | src/helpers.c:143-241 | a login or logout between the debit and the credit of a close does what it would have done before the close |
| Serial.AtOnceIsOneStep | src/helpers.c:342-371 | one piece of serial work is what the atomic login, logout and close do to the accounts |
| LockTheorems.OneHolder | src/finalsample.c:315-380 | no two threads hold the same mutex |
| LockTheorems.RaceFree | src/finalsample.c:315-380 | no two threads are ever about to touch data of the same guard |
| LockTheorems.PathAccesses | src/finalsample.c:129-480 | what each code path touches, in order, and under which mutex |
| LockTheorems.Reachable | src/finalsample.c:387-480 | every interleaving keeps semaphore values, lock discipline, money and ledger |
| LockTheorems.UninterruptedClose | src/helpers.c:352-371 | a buy or tick path run without interruption settles as `Settle` does in the atomic model |
| LockTheorems.ServerClosesAreClosable | src/finalsample.c:256-262 | every close of the atomic model meets what the interleaved model asks of a close |
| Locks.PathsDisciplined | src/finalsample.c:315-380 | every code path takes mutexes in rising rank, releases what it takes, and is in the middle of a transfer only under auctionsMutex |
| Sio.RoundTrip | src/csapp.c:241-258 | in any base from 2 to 36 the printed text reads back as the number if and only if it is not the least long |
| Sio.NoLeadingZero | src/csapp.c:241-258 | no leading zero, for any long, but in 0 itself and in the `-0` printed for the least long in the bases that divide it |
| Sio.LeastLong | src/csapp.c:241-258 | what is printed for the least long: a sign and the one character below '0' that its last digit gives |
| Sio.TextLength | src/csapp.c:279-285 | between 1 and 64 characters, so the 128-byte buffer holds text and terminator |
| Sio.TextHasNoTerminator | src/csapp.c:241-258 | no terminator inside the text |
| Sio.EmittedIsNumeral | src/csapp.c:249-251 | the digits in the order they are computed are the numeral reversed |
| Sio.ReversedTwice | src/csapp.c:229-238 | reversal is its own inverse |
| Sio.SioReverse | src/csapp.c:229-238 | exact in-place reversal up to the terminator, nothing else touched |
| Sio.SioLtoa | src/csapp.c:241-258 | leaves exactly the text and its terminator in the buffer, nothing else touched |
| Sio.SioStrlen | src/csapp.c:261-268 | the place of the first terminator |
| Sio.SioPutl | src/csapp.c:279-285 | prints the decimal text of any long within 128 bytes |
| Numerals.ReadNumeral | src/csapp.c:249-251 | reading a numeral in its base gives the number back |
| Numerals.DigitIs | src/csapp.c:250-250 | the digits are 0-9 and a-z |

## Left out

- Sockets, `accept`, reading messages and `wr_msg`: a request is an event and a reply an entry of the log.
- Splitting a message into its fields (`strtok`, `atoi`) before a handler is called.
- `printUsers`, `usersWins`, `usersSales` and `userBalance`: they only print what `won`, `owned` and `balance` hold, which is proved exact.
- Unlocked traversal of the auction list by the tick thread: the scan is taken to be made under auctionsMutex.
- Unlocked reads of the users inside a handler, between its accesses to the data: in `Interleaving` looking up a user and using it is one access.
- Dispatch.ProcessJob: the requests USRLIST, USRWINS, USRSALES and USRBLNC are no events; they change nothing.
- Server.UserTable.FindUsername: the list of users, and the watcher list of an auction, are sequence fields here and not linked nodes.
- Raw allocation sizes and the fixed 1024-byte text buffers; the ring is n cells for jobs.
- SIGINT handling and shutdown, `main`, its options and the auction file, `PrintLinkedList`, and the wrappers of csapp.c around system calls.
- Wall-clock timing of the tick thread: both of its branches have the same body, and a tick is an event.
- Machine overflow of balances, ids, durations and ring counters.
- Starvation: while new work keeps coming a thread may wait for ever; `Threads.WorkEnds` bounds what happens once it stops.
- LinkedList.List.RemoveByIndex: does not model a negative index, which has no meaning in the original.
- Server.Server.LeaveAuction: asks that the caller be watching, as the code does without checking it.
- Server.Server.WatchAuction: asks, when the auction exists, for a descriptor of a user; the code would follow a null pointer.
- Server.Server.BidAuction: asks for a descriptor of a user; the code would follow a null pointer.
- Server.Server.CreateAuction: asks, when the arguments are valid, for a descriptor of a user; the code would leave the creator unset.
