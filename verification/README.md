# Verified models of the hashing service and the contracts

This project models two parts of the repository and proves what every run of them keeps.

The first is the hashing-job service in `pss/pss-protocol/service`. A requester caches the requests it sends in a ring
with an index. A worker admits jobs, searches for a nonce, keeps results in a dense array with an index until they are
thanked for or expire, and answers. The second are three Solidity contracts: the deposit ledger, the upgradeable
contract, and the escrow.

SHA-1 is an arbitrary total function from bytes to 20 bytes, passed as a parameter `H`. All results hold for every such
function.

## Modules

- `Arithmetic`, `Bytes`: powers of two, big-endian values, the carry increment, trailing zero bits.
- `Minipow`: the search and its mask, in place over arrays, against a meaning given by divisibility.
- `Work`, `Rendezvous`: one job in one piece, and as two goroutines over unbuffered channels.
- `Results`, `Submits`: the two stores, as values, as specifications (a map, a queue), and as classes over arrays.
- `WorkerSide`, `RequesterSide`, `Service`: a node's state and steps, and the system of nodes with its network.
- `ServiceSafety`, `ServiceRuns`: what every run keeps, and a run that needs its assumption.
- `ServiceEffects`, `ServiceNetwork`: what each event does to the nodes and the network, and what that means over runs.
- `Demo`: the service object with its handlers, which takes the steps of its node.
- `Accounts`, `Pss`, `Upgrade`, `Escrow`: the contracts.

The network is a set of packets that only grows: delivery may be late, repeated or never, and anyone can forge a packet
with any source and content. Each packet carries a mark that no handler reads and that says whether it and all its causes
were sent by the node they name.

## Where the code departs from its intent

- `del` on the last slot of several puts the deleted key back. `RemoveAsWritten` and `PruneAsWritten` say exactly when
  the code as written is right. Members named *Repaired*, or called with `repaired` true, use the guard `n != counter`.
- `Put` on the result store does not look for the id. `PutIsInsert` says that it must be fresh.
- An id depends on the data only. Two requests for the same data share it, whatever their difficulty.
- A job that is given up stays counted for ever. A submission that finds no worker leaves the service locked. An accepted
  result is saved each time it arrives (`SavedAgain`), and its difficulty is not looked at: `ForgedResultIsSaved` shows
  why `SavedDifficultyIsMet` is about honest results only. `PutsBetweenReads` says when an eviction during the handler
  makes it save difficulty 0 or nil data.
- doJob can deadlock with its search, exactly on the jobs that can be solved (`DeadlockIff`).
- Difficulty 0 acts like 8, the mask has at most 152 bits, and from 160 on a digest that gets past the mask crashes.
- The escrow's payout sends 0. Its comment says that a cancelled participant can withdraw; the loop also needs everyone
  listed before the first cancelled one to have released. After one payout to a listed participant, the others cannot be
  paid unless they cancel.
- A second `create` replaces the store.
- `upgrade` does not notice that a main was killed earlier in the same transaction, since it keeps its code until the end.
  `TransactSoundIff` says exactly which transactions lose the current main, `KilledMainIsAccepted` is such a one, and
  `EtherIsConserved` says what Ether is lost.

## Model

| member | source | states |
|---|---|---|
| Bytes.BigEndianIncrement | pss/pss-protocol/service/minipow/minipow.go:46-52 | one carry loop adds one to the buffer read as a big-endian number, and turns all-0xff into zero |
| Bytes.BigEndianIncrementN | pss/pss-protocol/service/minipow/minipow.go:46-52 | k increments leave (start + k) mod 256^len in the buffer |
| Bytes.LowBitsMeaning | pss/pss-protocol/service/minipow/minipow.go:63-71 | clearing bits byte by byte from the end is divisibility of the value by a power of two |
| Minipow.MaskValue | pss/pss-protocol/service/minipow/minipow.go:18-32 | the mask with n bits, read as a number, is 2^n - 1 |
| Minipow.JudgeMeaning | pss/pss-protocol/service/minipow/minipow.go:34-71 | for every int difficulty: a digest is rejected exactly when its value is not divisible by 2^RequiredBits, and otherwise accepted exactly below difficulty 160 |
| Minipow.EarlyStopIsFullCheck | pss/pss-protocol/service/minipow/minipow.go:34-71 | for 1..159, comparing down to the threshold, comparing all twenty bytes, divisibility by 2^min(difficulty,152), and acceptance are the same |
| Minipow.DifficultyEdges | pss/pss-protocol/service/minipow/minipow.go:18-34 | difficulty 0 acts like 8, 152..159 like 152, and from 160 on nothing is accepted: what would be indexes -1 |
| Minipow.SearchStops | pss/pss-protocol/service/minipow/minipow.go:38-78 | the search has an end exactly when some poll finds a quit or some digest is not rejected |
| Minipow.SearchIsDeterministic | pss/pss-protocol/service/minipow/minipow.go:38-78 | the end of a search, its increment count and what it sends are unique |
| Minipow.GenerateMask | pss/pss-protocol/service/minipow/minipow.go:18-32 | the nested loops with the labelled break build the mask of MaskBits(difficulty) bits, for every difficulty |
| Minipow.IncrementNonce | pss/pss-protocol/service/minipow/minipow.go:46-52 | the in-place loop computes Increment of the whole buffer |
| Minipow.CompareBytes | pss/pss-protocol/service/minipow/minipow.go:63-71 | the masking loop accepts exactly when all bytes from the threshold on pass, and indexes -1 exactly when they pass and the threshold is negative |
| Minipow.CompareMask | pss/pss-protocol/service/minipow/minipow.go:34-71 | the in-place comparison of a digest against its mask returns Judge |
| Minipow.Attempt | pss/pss-protocol/service/minipow/minipow.go:46-71 | one turn of the loop: the buffer is incremented once, the unmasked digest of it is kept, and the verdict is its own |
| Minipow.Mine | pss/pss-protocol/service/minipow/minipow.go:10-79 | for any number of turns: still mining exactly when no poll or digest stops the search in them; otherwise it sends the unmasked digest of the least accepted k >= 1 (or nil on a quit, or panics), with the buffer incremented k times; the same algorithm as misc/minipow/minipow.go |
| Work.NonceRoundTrip | pss/pss-protocol/service/work.go:24-41 | for k < 2^64 tries the nonce reads k in big-endian and the data in front of it is unchanged |
| Work.CounterIntact | pss/pss-protocol/service/work.go:24-25 | without a bound on the tries: the data in front of the counter is unchanged exactly when the carries went round it a whole number of times |
| Work.CheckAcceptsFound | pss/pss-protocol/service/work.go:45-50 | checkJob accepts the found hash and nonce against the original data after fewer than 2^64 tries |
| Work.CheckAcceptsIff | pss/pss-protocol/service/work.go:24-50 | without a bound on the tries: it does so for every hash function exactly when floor(tries / 2^64) is divisible by 256^len(data) |
| Work.DoJob | pss/pss-protocol/service/work.go:20-43 | returns the data, the digest of the first accepted nonce and the last eight bytes of the buffer; gives up when the quit came first; still works exactly while nothing stops the search; below 2^64 tries the nonce reads the number of tries and the result passes checkJob |
| Work.CheckJobIff | pss/pss-protocol/service/work.go:45-50 | checkJob passes exactly for a hash, data and nonce that are not nil and of which the hash is the digest of the other two |
| Rendezvous.ReturnIsSolved | pss/pss-protocol/service/work.go:27-43 | in every interleaving, a return without error carries the non-nil digest of the first accepted nonce, and after fewer than 2^64 tries checkJob accepts it |
| Rendezvous.NonceIsFinal | pss/pss-protocol/service/work.go:37-41 | after the return, no further step writes the buffer that the nonce is a slice of |
| Rendezvous.StuckStates | pss/pss-protocol/service/work.go:20-43 | in every run, short of a panic, neither goroutine can move exactly when both are done, or quit-send meets result-send, or the nil-send is left over |
| Rendezvous.DeadlockIsFinal | pss/pss-protocol/service/work.go:30-33 | a quit-send facing a result-send lasts for ever |
| Rendezvous.DeadlockAfter | pss/pss-protocol/service/work.go:30-33 | whatever number of tries solves the job, a deadline that passes during the last of them ends in that deadlock |
| Rendezvous.DeadlockIff | pss/pss-protocol/service/work.go:20-43 | doJob can deadlock in some interleaving exactly when the job can be solved at all |
| Rendezvous.SolvableCanReturn | pss/pss-protocol/service/work.go:27-35 | a solvable job returns in some interleaving, after exactly the solving number of tries |
| Rendezvous.ExpiredCanFail | pss/pss-protocol/service/work.go:28-33 | after any number of tries that all reject, a deadline met at the poll ends in the error, with the nil offered |
| Rendezvous.FailsOnlyExpired | pss/pss-protocol/service/work.go:28-33 | in every run, doJob quits or fails only after the deadline |
| Rendezvous.QuitIsTaken | pss/pss-protocol/service/minipow/minipow.go:39-44 | a quit offered while the search is before its poll is taken there: no other nonce is tried, and doJob can only fail |
| Rendezvous.CrashIff | pss/pss-protocol/service/minipow/minipow.go:63-71 | the search can crash in some interleaving exactly when the first digest that is not rejected indexes -1 |
| Rendezvous.CrashIsFinal | pss/pss-protocol/service/minipow/minipow.go:63-71 | after a crash neither goroutine does anything |
| Results.PutSafe | pss/pss-protocol/service/result.go:49-63 | as written, for any id, a put keeps every index entry on a non-nil slot and the counter below the high-water mark |
| Results.RemoveSafe | pss/pss-protocol/service/result.go:81-93 | so does a removal, as written or repaired, in any such state |
| Results.StepSafe | pss/pss-protocol/service/result.go:49-143 | so does every operation, so no operation of any sequence can fault |
| Results.PutIsInsert | pss/pss-protocol/service/result.go:49-63 | a put into a coherent store is a map insertion exactly when the id is fresh |
| Results.RemoveAsWritten | pss/pss-protocol/service/result.go:81-93 | a removal as written is a map removal exactly unless the slot is the last of several |
| Results.RemoveAnyState | pss/pss-protocol/service/result.go:81-93 | in any safe state: the id goes, the last counted entry takes its slot unless it is the only one, and the counter never goes below 0 |
| Results.RemoveRepaired | pss/pss-protocol/service/result.go:81-93 | repaired version, guarded by n != counter: always a map removal |
| Results.CountIsSize | pss/pss-protocol/service/result.go:95-99 | the counter is the number of stored ids |
| Results.StepRefines | pss/pss-protocol/service/result.go:49-143 | one operation does what the bounded map does, and keeps the bijection, exactly when it is proper |
| Results.RunRefines | pss/pss-protocol/service/result.go:49-143 | every sequence of proper operations (Put, Get, Del, Count, expiry of one key) is answered exactly like a bounded map |
| Results.PruneRepaired | pss/pss-protocol/service/result.go:127-143 | repaired removal: a sweep over distinct keys in any order leaves exactly the unexpired entries and hands each expired result to the sink once, in visiting order |
| Results.PruneAsWritten | pss/pss-protocol/service/result.go:127-143 | as written, the sweep does so for every visiting order if and only if each expired slot plus the number of expired slots is below the counter (or at most one entry is stored) |
| Results.BadSweep | pss/pss-protocol/service/result.go:88-91 | a visiting order that leaves an expired key in the index, whenever that condition fails |
| Results.DoubleRemoveLosesEntry | pss/pss-protocol/service/result.go:81-93 | in any coherent store of two entries or more: removing the last one twice leaves the entry before it indexed but not counted, and the next or second next put takes over its id |
| Results.ResultStore.constructor | pss/pss-protocol/service/result.go:38-47 | a new store is empty and coherent |
| Results.ResultStore.Put | pss/pss-protocol/service/result.go:49-63 | refuses exactly when full, otherwise stores the entry with its expiry at the counter and indexes it |
| Results.ResultStore.Get | pss/pss-protocol/service/result.go:65-73 | returns the indexed result, which in a coherent store is the map look-up, and never faults |
| Results.ResultStore.Del | pss/pss-protocol/service/result.go:75-93 | the in-place swap-remove as written; in a coherent store a map removal off the failing branch |
| Results.ResultStore.Count | pss/pss-protocol/service/result.go:95-99 | the number of stored ids in a coherent store |
| Results.ResultStore.IsFull | pss/pss-protocol/service/result.go:101-109 | whether the counter has reached the capacity |
| Results.ResultStore.Prune | pss/pss-protocol/service/result.go:127-143 | the loop computes the sweep as written, and is right whenever the condition of PruneAsWritten holds |
| Results.LateVisit | pss/pss-protocol/service/result.go:127-143 | whatever operations come between a visit's reading of its slot number and its lock: the visit cannot fault, and does what a visit in one step does exactly when the entry in that slot is expired like the key's own and has its result, as it is while the key has not moved |
| Submits.InsertIsEnqueue | pss/pss-protocol/service/submit.go:35-50 | a put is refused exactly when its id is among the last capacity accepted ones; an accepted put appends and evicts the oldest, exactly when the request carries the id it is put under |
| Submits.InsertAllIsQueue | pss/pss-protocol/service/submit.go:35-50 | after any sequence of puts the cache is the queue of the last min(accepted, capacity) accepted requests with distinct ids, and the cursor is accepted mod capacity |
| Submits.RingAt | pss/pss-protocol/service/submit.go:42-47 | slot (j + 1) mod capacity holds accepted request j while it is among the last capacity, and is nil before its first write |
| Submits.LookupsAgree | pss/pss-protocol/service/submit.go:52-79 | Have, GetData and GetDifficulty are look-ups in that queue |
| Submits.LookupsAfterPuts | pss/pss-protocol/service/submit.go:35-79 | whatever is put after it, a queued request is found exactly until the accepted puts after it reach the capacity; then its id is unknown or stands for a later put of it |
| Submits.SubmitStore.constructor | pss/pss-protocol/service/submit.go:26-32 | a new cache stands for the empty queue |
| Submits.SubmitStore.Put | pss/pss-protocol/service/submit.go:35-50 | for any request and id, the in-place put refuses an id that is queued and enqueues another; it keeps standing for the queue exactly when refused or when the request carries the id |
| Submits.SubmitStore.Have | pss/pss-protocol/service/submit.go:52-61 | whether the queue holds the id |
| Submits.SubmitStore.GetData | pss/pss-protocol/service/submit.go:63-70 | the data of the queued request, or nil |
| Submits.SubmitStore.GetDifficulty | pss/pss-protocol/service/submit.go:72-79 | the difficulty of the queued request, or 0 |
| Submits.SubmitStore.IncSerial | pss/pss-protocol/service/submit.go:81-86 | the serial after an increment, as a uint64 |
| WorkerSide.AdmitInv | pss/pss-protocol/service/service.go:220-245 | admitting or refusing a request keeps the job counter equal to running plus given-up jobs and within the limit |
| WorkerSide.AdmitBooks | pss/pss-protocol/service/service.go:220-245 | handling a request books exactly one ticket, for the packet handled: Busy, else AreYouKidding, else a counted job of its own; no other ticket, answer or limit changes |
| WorkerSide.JobSteps | pss/pss-protocol/service/service.go:248-273 | what the steps of a job leave: the search its result, the uncounting that result as the answer, giving up the Gaveup without uncounting, and the send one log entry; each for its own ticket only |
| WorkerSide.FindInv | pss/pss-protocol/service/service.go:259-265 | a found result is what the search returns for the request |
| WorkerSide.ReleaseInv | pss/pss-protocol/service/service.go:266-270 | uncounting a finished job keeps the count and queues its result as the answer |
| WorkerSide.GiveUpInv | pss/pss-protocol/service/service.go:250-257 | giving up keeps the job counted and answers Gaveup |
| WorkerSide.ReplyInv | pss/pss-protocol/service/service.go:228-231 | sending an answer logs it once for its ticket |
| WorkerSide.AnswersOnce | pss/pss-protocol/service/service.go:220-276 | at most one answer per request, the right one, and none exactly for those running or about to be answered |
| WorkerSide.AdmitExhausted | pss/pss-protocol/service/service.go:227-234 | once as many jobs as the limit allows were given up, every request is refused as busy |
| RequesterSide.ReceiveInv | pss/pss-protocol/service/service.go:278-299 | what is saved is one submitted request with a hash of its data and the nonce |
| RequesterSide.SubmitInv | pss/pss-protocol/service/service.go:163-177 | a submission makes up exactly one request for the data and difficulty, named by the first eight bytes of the digest of the data, for the chosen worker |
| RequesterSide.SubmissionSteps | pss/pss-protocol/service/service.go:165-176 | a submission is sent once, waits for its put exactly if the send went through, and is then offered to the cache once under its own id; others are not touched |
| RequesterSide.PutInv | pss/pss-protocol/service/service.go:171-175 | caching keeps every cached request one that was submitted, under its own id |
| RequesterSide.AnyPutsBetweenReads | pss/pss-protocol/service/service.go:286-297 | the handler's four cache accesses with any puts in between: it saves what one step would save until the accepted puts evict the request, and after that each read shows nothing or a later put of the id |
| RequesterSide.PutsBetweenReads | pss/pss-protocol/service/service.go:286-297 | without a put of the id itself, exactly: an eviction before the check saves nothing, one after it difficulty 0, and one after the difficulty was read nil data; an accepted result is saved as in one step exactly without an eviction |
| ServiceSafety.SavesAreOwnRequests | pss/pss-protocol/service/service.go:278-299 | in every run over a network that repeats, reorders, drops and forges: each save carries id, data and difficulty submitted together by this node, and a hash equal to H(data ++ nonce) |
| ServiceSafety.SavesWhatIsCached | pss/pss-protocol/service/service.go:286-297 | in every run, an event saves at most once, for the data and difficulty cached under the id at that moment |
| ServiceSafety.CacheIsQueue | pss/pss-protocol/service/submit.go:35-50 | in every run, the cache of every node is the queue of its accepted requests, all submitted by it, and each id it knows is that of a queued one |
| ServiceSafety.SavedAgain | pss/pss-protocol/service/service.go:286-297 | in every run, a result that checks is saved at each of any number of deliveries, with any other events in between, as long as its data stay cached and messages are handled |
| ServiceSafety.ForgedResultIsSaved | pss/pss-protocol/service/service.go:286-297 | in any state, a forged result with any nonce and the digest of the cached data and that nonce is saved with the cached difficulty, which it meets exactly when the digest happens to |
| ServiceSafety.SavedDifficultyIsMet | pss/pss-protocol/service/service.go:220-299 | end to end: if requests of the node that share an id ask for equally many bits, an honestly produced saved hash is divisible by 2^min(difficulty,152) for the saved difficulty, with no bound on the tries |
| ServiceRuns.ReusedIdBreaksDifficulty | pss/pss-protocol/service/service.go:163-172 | without that, and with both nodes honest: a run that ends with a save below its difficulty, for every hash function and data whose first nonce meets one demand and not the other |
| ServiceRuns.UnequalDemandsAreUnsafe | pss/pss-protocol/service/service.go:301-309 | the condition cannot be weakened: any two unequal demands for the same data allow such a run for some hash function |
| ServiceSafety.JobsAreAccounted | pss/pss-protocol/service/service.go:220-276 | in every run: currentJobs is running plus given up and at most maxJobs; each request is answered at most once, rightly, and unanswered exactly while running or pending |
| ServiceSafety.AnswersAreFinal | pss/pss-protocol/service/service.go:220-276 | from any reached state on: tickets stay, decided answers never change, submissions and saves only grow |
| ServiceSafety.ExhaustedForever | pss/pss-protocol/service/service.go:250-257 | in every run, after maxJobs given-up jobs the worker refuses everything as busy |
| ServiceSafety.LockedBySubmit | pss/pss-protocol/service/service.go:157-162 | an action leaves the lock held exactly when it submits for a difficulty above every known worker |
| ServiceSafety.LockedForever | pss/pss-protocol/service/service.go:157-162 | in every run, a node whose lock was left held never again handles a message, submits, saves or uncounts a job |
| ServiceSafety.RunInv | pss/pss-protocol/service/service.go:157-299 | the invariant behind these results holds after every event of every run |
| ServiceEffects.DeliveryHappensIff | pss/pss-protocol/service/service.go:180-299 | any packet on the network, honest or forged, can be delivered to its addressee exactly while that is neither locked nor crashed |
| ServiceEffects.JobsHappenIff | pss/pss-protocol/service/service.go:246-273 | a job can be given up at any time, found or crash exactly as its search would, uncounted once its result is there and the lock is free, and answered then |
| ServiceEffects.SubmissionsHappenIff | pss/pss-protocol/service/service.go:157-176 | a submission can go to any known worker of sufficient difficulty, and to none exactly if none is known; sends and puts need no lock |
| ServiceEffects.OthersStay | pss/pss-protocol/service/service.go:64-82 | a node does not change by what happens elsewhere, nor after a crash |
| ServiceEffects.CrashedForever | pss/pss-protocol/service/minipow/minipow.go:63-71 | in every run, a node whose search panicked never changes again |
| ServiceEffects.SkillsDelivered | pss/pss-protocol/service/service.go:180-186 | skills record the sender with its difficulty and change nothing else |
| ServiceEffects.StatusDelivered | pss/pss-protocol/service/service.go:188-218 | only thanks to a worker do anything: the store loses exactly that id if coherent and not the last of several, and nothing else changes |
| ServiceEffects.RequestDelivered | pss/pss-protocol/service/service.go:220-245 | a request changes the book only: one ticket for this packet, Busy, AreYouKidding or searching in that order |
| ServiceEffects.ResultDelivered | pss/pss-protocol/service/service.go:278-299 | a result is saved with the cached data and difficulty, and its sender thanked, exactly if the id is cached and the hash checks; nothing else changes |
| ServiceEffects.Submitting | pss/pss-protocol/service/service.go:157-178 | a submission to a fitting worker makes up its request, and without one only the lock is taken |
| ServiceEffects.Sending | pss/pss-protocol/service/service.go:171 | the request goes to the chosen worker, and nowhere if the send fails |
| ServiceEffects.Putting | pss/pss-protocol/service/service.go:172-174 | the put changes the cache and the pending puts only, and sends nothing |
| ServiceEffects.FoundIsStored | pss/pss-protocol/service/service.go:259-265 | a found result can be looked up under its id if there was room, with its expiry; otherwise the store is as before |
| ServiceEffects.Releasing | pss/pss-protocol/service/service.go:266-268 | uncounting changes the book only and sends nothing yet |
| ServiceEffects.GivingUp | pss/pss-protocol/service/service.go:250-257 | giving up changes the book only |
| ServiceEffects.Crashing | pss/pss-protocol/service/minipow/minipow.go:63-71 | a panic ends the node, whatever it was doing, and sends nothing |
| ServiceEffects.Answering | pss/pss-protocol/service/service.go:251-270 | the answer goes to the peer that asked, and nowhere if the send fails |
| ServiceEffects.Announcing | pss/pss-protocol/service/service.go:138-146 | the hook sends the own difficulty to the new peer |
| ServiceEffects.SettingDifficulty | pss/pss-protocol/service/api.go:21-26 | setting the difficulty changes nothing else |
| ServiceEffects.SweepHappensIff | pss/pss-protocol/service/result.go:111-143 | a sweep over the keys in any order can happen whatever the service lock |
| ServiceEffects.Sweeping | pss/pss-protocol/service/result.go:127-143 | a sweep changes the store only, and leaves the unexpired entries under the condition of PruneAsWritten |
| ServiceEffects.EveryRequestIsBooked | pss/pss-protocol/service/service.go:220-276 | in every run from a reached state, the tickets of a node are those it had and one for each request delivered to it since, in order; with JobsAreAccounted, each request gets its own answer at most once |
| ServiceNetwork.HonestPacketsAreSent | pss/pss-protocol/service/service.go:140-299 | in every run, the source of an honest packet has submitted that request, logged that answer to a request of the addressee, or saved a result with the thanked id |
| ServiceNetwork.AnswersAreSent | pss/pss-protocol/service/service.go:228-270 | in every run in which no send of an answer fails, every logged answer is on the network, to the peer that asked |
| ServiceNetwork.SavesAreThanked | pss/pss-protocol/service/service.go:290-297 | in every run, each save is of a result that was on the network, and its sender is thanked for that id |
| Demo.DemoService.constructor | pss/pss-protocol/service/service.go:64-82 | a new service object is a new node |
| Demo.DemoService.SkillsHandler | pss/pss-protocol/service/service.go:180-186 | the object takes the step of the node: the peer is recorded with its difficulty |
| Demo.DemoService.StatusHandler | pss/pss-protocol/service/service.go:188-218 | thanks to a worker remove exactly that id from a coherent store off the failing branch of del; any other code, or on a node that is no worker, changes nothing |
| Demo.DemoService.RequestHandler | pss/pss-protocol/service/service.go:220-243 | Busy exactly when too many jobs are counted or the store is full, else AreYouKidding exactly when too hard, else a counted job; one ticket is booked, for the packet handled |
| Demo.DemoService.ResultHandler | pss/pss-protocol/service/service.go:278-299 | saves exactly when the id is cached and the hash checks, with the cached data and difficulty |
| Demo.DemoService.Submit | pss/pss-protocol/service/service.go:157-178 | picks a worker of sufficient difficulty and returns the first eight bytes of the digest of the data; with none, returns an error and keeps the lock |
| Demo.DemoService.GetNextWorker | pss/pss-protocol/service/service.go:148-155 | finds a fitting worker exactly when there is one |
| Demo.DemoService.SendReturned | pss/pss-protocol/service/service.go:171-172 | the goroutine of a submission goes on to its put only after a send without an error |
| Demo.DemoService.PutSent | pss/pss-protocol/service/service.go:172-175 | the goroutine then caches the request it captured, whatever ran since the send |
| Demo.DemoService.StoreResult | pss/pss-protocol/service/service.go:259-265 | the goroutine stores its result, whatever the store answers: it can be looked up exactly if there was room, and else the store is as before |
| Demo.DemoService.ReleaseJob | pss/pss-protocol/service/service.go:266-268 | the goroutine uncounts its job |
| Pss.ExecConserves | pss/pss-protocol/contracts/pss.sol:8-25 | one call with everything nested in its send: balance = deposits + credits (+ forced Ether) and total Ether are kept, and 256-bit arithmetic equals exact arithmetic |
| Pss.RunsConserve | pss/pss-protocol/contracts/pss.sol:8-25 | so it is in every reachable state from a fresh contract, for any sequence of calls with any nesting |
| Pss.WithdrawIsFunded | pss/pss-protocol/contracts/pss.sol:18-22 | a withdrawal that passes its guard is always covered by the balance |
| Pss.WordArithmetic | pss/pss-protocol/contracts/pss.sol:8-25 | the contract's additions and subtractions are modulo 2^256 |
| Pss.DepositEffect | pss/pss-protocol/contracts/pss.sol:8-10 | a deposit moves the value from the sender's wallet to the sender's deposit and touches no credit |
| Pss.RefusedCallsDoNothing | pss/pss-protocol/contracts/pss.sol:12-20 | a deposit, transfer or withdrawal of more than there is changes nothing |
| Pss.OutsideEther | pss/pss-protocol/contracts/pss.sol:8-25 | Ether that moves elsewhere, or is forced in, touches no deposit or credit |
| Pss.RefusedWithdrawIsUndone | pss/pss-protocol/contracts/pss.sol:21-24 | a withdrawal whose send fails leaves every account as it was |
| Pss.TransferEffect | pss/pss-protocol/contracts/pss.sol:12-16 | a transfer moves the amount from the sender's deposit to the beneficiary's credit and touches nothing else |
| Pss.WithdrawEffect | pss/pss-protocol/contracts/pss.sol:18-22 | an accepted withdrawal has debited the credit and paid the sender before any nested call runs |
| Pss.OnlyOwnerSpends | pss/pss-protocol/contracts/pss.sol:12-25 | calls by others, however deeply nested, leave an account's deposit as it is and never lower its credit |
| Pss.PssContract.DepositEther | pss/pss-protocol/contracts/pss.sol:8-10 | the object takes the step and stays solvent |
| Pss.PssContract.TransferDeposit | pss/pss-protocol/contracts/pss.sol:12-16 | the object takes the step and stays solvent |
| Pss.PssContract.WithdrawCredit | pss/pss-protocol/contracts/pss.sol:18-25 | debit, send with nested calls on the same object, and refund on failure |
| Pss.PssContract.Nested | pss/pss-protocol/contracts/pss.sol:21-22 | the calls made during a send run on the same object and keep it solvent |
| Upgrade.ExecProper | solidity/upgrade/Upgrader.sol:26-50 | whatever call anyone makes, within a transaction too: a current main that has code stays owned by the upgrader and bound to a store with foo set |
| Upgrade.ExecStoreIff | solidity/upgrade/Upgrader.sol:26-50 | its store changes exactly on a create that goes through |
| Upgrade.OutsidersCannotTouch | solidity/upgrade/AbstractMain.sol:15-37 | on the current main, outsiders' setStore and kill revert and transfer does nothing, at any point of a transaction |
| Upgrade.TransactSoundIff | solidity/upgrade/Upgrader.sol:26-50 | after a transaction of any calls of outsiders the current main is alive, owned by the upgrader and bound to its store, exactly unless the last create or upgrade that goes through in it is an upgrade to a main killed earlier in it |
| Upgrade.KilledMainIsAccepted | solidity/upgrade/Upgrader.sol:41-50 | from every sound chain with a current main, any caller reaches that with four calls in one transaction: new main, kill, transfer to the upgrader, upgrade; both mains are gone, check reverts, and exactly the current main's Ether is lost |
| Upgrade.RunSoundIff | solidity/upgrade/Upgrader.sol:26-50 | the chain is sound after every transaction of a run exactly if none of them ends that way |
| Upgrade.TransactStoreIff | solidity/upgrade/Upgrader.sol:26-50 | a transaction that does not end that way keeps the store exactly unless a create goes through in it |
| Upgrade.DeadUntilCreate | solidity/upgrade/Upgrader.sol:41-59 | once the current main is lost, every check and upgrade reverts, in every run, until a create |
| Upgrade.StorePersists | solidity/upgrade/Upgrader.sol:41-59 | between creates, in every run of transactions of outsiders: check still reports exactly if no transaction lost the current main, and then with the original store, foo set and a balance that has not shrunk |
| Upgrade.CreateChecks | solidity/upgrade/Upgrader.sol:26-33 | after a create, even one that follows a loss, the chain is sound, and check reports the set flag and all the upgrader's Ether |
| Upgrade.CreateSucceedsIff | solidity/upgrade/Upgrader.sol:26-33 | a create goes through exactly when its two addresses are fresh and differ, whatever the upgrader holds; then the new main is current, owned by the upgrader and bound to the new store with foo set, the upgrader's Ether has moved to it, and nothing else changes |
| Upgrade.KillPays | solidity/upgrade/AbstractMain.sol:26-29 | a kill goes through exactly for the owner, and pays the beneficiary at once, or nobody if that is the main itself |
| Upgrade.StoreIsSetOnce | solidity/upgrade/AbstractMain.sol:15-19 | anyone can set the store of a main exactly while it is empty, and then nobody can again |
| Upgrade.OwnerHandsOver | solidity/upgrade/AbstractMain.sol:35-37 | transfer by the owner changes the owner only, and the old one can no longer kill; by another it does nothing |
| Upgrade.NewContracts | solidity/upgrade/lib/owned.sol:12-14 | a new main is owned by its creator and has no store; a new store's flag is set exactly by poke |
| Upgrade.PaymentsToMains | solidity/upgrade/AbstractMain.sol:49-52 | a main takes any payment that its sender can afford, a store and the upgrader take none |
| Upgrade.SettleDeletes | solidity/upgrade/AbstractMain.sol:26-29 | the end of a transaction deletes exactly the mains that destroyed themselves, with their Ether |
| Upgrade.UpgradeSucceedsIff | solidity/upgrade/Upgrader.sol:41-50 | an upgrade goes through exactly when both mains have code, killed in the same transaction or not, and the new one is owned by the upgrader and has no store; otherwise nothing changes |
| Upgrade.UpgradeMovesAll | solidity/upgrade/Upgrader.sol:41-50 | a successful upgrade moves store and whole balance to the new main, dooms the old one, and changes no other balance |
| Upgrade.NoWayBack | solidity/upgrade/Upgrader.sol:41-50 | a main that has been current is refused by every later upgrade, in the same transaction and after any run |
| Upgrade.EtherIsConserved | solidity/upgrade/AbstractMain.sol:26-29 | the Ether lost in a transaction of any calls is exactly what mains held that killed themselves in their own favour, and what had reached doomed mains by its end |
| Upgrade.DeployedIsSound | solidity/upgrade/Upgrader.sol:18-19 | the freshly deployed upgrader is sound |
| Upgrade.World.CreateMain | solidity/upgrade/Upgrader.sol:26-33 | create as calls on new contracts |
| Upgrade.World.UpgradeTo | solidity/upgrade/Upgrader.sol:41-50 | upgrade as its four calls in turn, undone when one reverts |
| Upgrade.World.EndTransaction | solidity/upgrade/AbstractMain.sol:26-29 | the mains that destroyed themselves are deleted with their Ether; the chain is sound exactly unless the current one is among them |
| Escrow.PayoutSucceedsIff | solidity/escrow/escrow.sol:79-108 | anyone's payout returns exactly when its status is past paid and all listed have released (at most 255 of them), or it has cancelled and all listed before the first cancelled one have released |
| Escrow.FirstPayoutBlocksOthers | solidity/escrow/escrow.sol:85-91 | once a listed participant has withdrawn, nobody is paid unless it has cancelled |
| Escrow.CancelSucceedsIff | solidity/escrow/escrow.sol:120-132 | a cancellation returns exactly before the own payout and before any own cancellation, with at most 255 listed and not all of them released |
| Escrow.CreateAppends | solidity/escrow/escrow.sol:37-45 | a new escrow belongs to its sender, comes last and has nobody in it |
| Escrow.AddSucceedsIff | solidity/escrow/escrow.sol:47-59 | an add goes through exactly for the owner of that escrow and an inactive address, which is then active with the given amount and beneficiary, and listed last; nothing else changes |
| Escrow.PutSucceedsIff | solidity/escrow/escrow.sol:62-69 | a payment goes through exactly with a beneficiary and at least the amount asked, in any status; it records the value cut to 80 bits as paid and keeps all of it |
| Escrow.ReleaseSucceedsIff | solidity/escrow/escrow.sol:71-76 | a release goes through exactly for one that has paid, and changes its status only |
| Escrow.CancelLeaves | solidity/escrow/escrow.sol:120-132 | a cancellation changes the sender's status only, and keeps its amount |
| Escrow.PayoutLeaves | solidity/escrow/escrow.sol:79-115 | a payout changes the sender's record only |
| Escrow.PayoutSets | solidity/escrow/escrow.sol:107-114 | a delivered payout leaves nothing and withdrawn; a failed send restores the amount, with the status the loop ended in, which for a listed sender is its own |
| Escrow.SendsNothing | solidity/escrow/escrow.sol:108-109 | the record is zeroed before it is read, so every payout sends 0 |
| Escrow.NothingIsEverPaid | solidity/escrow/escrow.sol:79-115 | so the balance never shrinks in any run |
| Escrow.ExecSolvent | solidity/escrow/escrow.sol:37-132 | every transaction keeps listed addresses distinct and the balance at least the sum of paid and released amounts over all escrows, with 80-bit truncation, repeated puts and failed sends |
| Escrow.RunSolvent | solidity/escrow/escrow.sol:37-132 | so does every run |
| Escrow.DeployedStaysSolvent | solidity/escrow/escrow.sol:37-132 | so the contract is solvent in every run from its deployment |
| Escrow.NoSecondPayout | solidity/escrow/escrow.sol:79-115 | in every run without a new payment by it, a withdrawn participant stays withdrawn and cannot be paid |
| Escrow.OthersCannotTouch | solidity/escrow/escrow.sol:47-132 | a participant's record changes only by its own calls, or when the owner of that escrow adds it while it is inactive |
| Escrow.OwnersStay | solidity/escrow/escrow.sol:37-132 | in every run, an escrow keeps its owner and its name, and its list only grows |
| Escrow.EscrowContract.Create | solidity/escrow/escrow.sol:37-45 | a new escrow of the sender at the end of the list, counted |
| Escrow.EscrowContract.Add | solidity/escrow/escrow.sol:47-59 | only the owner, only an inactive address; it becomes active and listed |
| Escrow.EscrowContract.PutIn | solidity/escrow/escrow.sol:62-69 | records the value cut to 80 bits and keeps the contract solvent |
| Escrow.EscrowContract.Release | solidity/escrow/escrow.sol:71-76 | only from paid to released |
| Escrow.EscrowContract.ScanListed | solidity/escrow/escrow.sol:84-91 | the loop with its uint8 counter finds all released, a cancelled one first, something else first, or never ends |
| Escrow.EscrowContract.PayOut | solidity/escrow/escrow.sol:79-115 | the payout computes the specified state and outcome and leaves the balance as it was |
| Escrow.EscrowContract.CountReleases | solidity/escrow/escrow.sol:122-129 | the loop counts the released participants, and ends exactly for at most 255 |
| Escrow.EscrowContract.CancelParticipation | solidity/escrow/escrow.sol:120-132 | the cancellation computes the specified state and outcome |

## Left out

- Minipow.Mine: the debug callback is not modelled. `turns` says how far the loop is followed; nothing says that it ends.
- Work.DoJob: the timeout is the poll at which the quit is found; the select, the timer and the deadlock of the two goroutines are in `Rendezvous`.
- Results.ResultStore.Prune: visits are atomic here, and `LateVisit` covers a single visit that is not; keys that come or go during the sweep are not modelled; a nil sink is one that drops what it gets; the capacity is a parameter (1000 in the source).
- ServiceSafety.SavesWhatIsCached: in the runs the result handler is one step; `AnyPutsBetweenReads` and `PutsBetweenReads` say what the code saves when other goroutines put requests between its cache accesses, from any state of a run by `CacheIsQueue`.
- Delivery and scheduling: no result says that something eventually happens; timeouts are nondeterministic and the clock is a parameter.
- The peer is not disconnected when a handler returns an error.
- devp2p, pss, RLP, RPC, flags, logging and simulations (`main*.go`, `sim*.go`, `bzz/`, `protocol/` beyond the message shapes): library wiring.
- Gas, ABI encoding and events: not modelled, except that a loop whose uint8 counter can never end counts as running out of gas.
- Upgrade.ExecProper: only main contracts derived from `AbstractMain` are modelled, so hostile code passed to `upgrade` is not covered; their callers may be any code.
- Escrow.ExecSolvent: calls made back into the escrow during its send are not modelled; the send only succeeds or fails.
- `evm/`, `swarm/`, `misc/namehash`, `resource/`: byte code, file and network access, and user interface pages.
- `solidity/escrow/escrow.go`: a generated binding without logic of its own.
