# Verified models of the core-go building blocks

This project models, in Dafny 4.11, the parts of the library whose correctness is a matter of
interleavings, arithmetic or bookkeeping rather than of plumbing, and proves what they promise.

* **Leases** (`dkit`): the distributed mutex, leader election and number allocation, each on MongoDB
  and on Redis. Every protocol is a transition system with any number of clients. On MongoDB the read
  and the conditional write are separate steps, and the clock, the TTL index and all other clients may
  act between them; on Redis each command or script is one step. A run is any list of events; an event
  that is not enabled changes nothing. Theorems quantify over all runs. Beside each transition system a
  `...Code` module gives the source's own methods (loops, early returns, error paths) over a shared
  cluster object whose log is a run of that system, so the theorems apply to what the methods do.
* **Configuration** (`config`): the layered merge, the table that records which layer said what, and
  the validations that rely on that table.
* **Repository** (`model`, `model/mongox`): keyset pagination over a changing collection, and optimistic
  locking on `updated_at`.
* **HTTP client** (`httpx`): the timeout budget over a chain of hops, the retry loop with its backoff,
  and weighted choice of an instance.
* **Resource reader** (`resource`): the size-limiting reader.
* **Redis keys** (`dkit/redis`): the key builders and the unpadded base64url codec of section 5 of
  RFC 4648.

`dafny verify dfyconfig.toml` checks everything.

## How to read it

| files | contents |
|---|---|
| `Common`, `GoInt64` | optional values, the nanosecond clock and its millisecond truncation, int64 wrap-around |
| `LeaseRegister` | the abstract object all lease protocols implement |
| `MongoMutex`, `MongoMutexCode`, `MongoCriticalSection`, `LockOptions` | the lock on MongoDB, `MutexDo`, the lock options |
| `RedisMutex`, `RedisMutexCode`, `RedisCriticalSection` | the lock on Redis, `MutexTryDo` |
| `MongoElection`, `RedisElection`, their `...Code`, `LeaderEvents` | leader election |
| `MongoNumbers`, `RedisNumbers` | number allocation |
| `Base64Url`, `RedisKeys` | key codec, heartbeat scan |
| `ConfigTree`, `ConfigLayers`, `ConfigLoad` | configuration |
| `FeedPaging`, `FeedReadAll` | pagination |
| `OptimisticLock`, `OptimisticLockCode` | optimistic locking |
| `TimeoutBudget`, `RetryDelay`, `HttpRetry`, `WeightedPick` | HTTP client |
| `LimitReader` | size-limited reading |

## Assumptions

* All clients of one store read one monotone clock, in nanoseconds. MongoDB keeps dates to the
  millisecond, so every stored time is truncated. A lease counts as expired once its end is strictly
  before the clock, on both backends. The TTL index removes a document only later than one second
  after its expiry.
* Redis keeps TTLs in whole milliseconds: the client drops the fraction, and rounds a positive TTL below
  one millisecond up to one. An entry lives exactly its stored TTL from the moment it was set. Lock TTLs
  are positive, as `NewLockOption` makes them.
* Store commands are atomic with a definite outcome. A call made by `MutexDo` or `MutexTryDo` may lose
  its reply: its mutex is dropped and its last command may still land at any time.
* Running nodes of one isolation domain have different node keys.
* Redis lock tokens of different processes differ (the process part stands for start time and counter
  origin), the in-process counter does not wrap around, and no reentrant identity equals a token.
* A document id is created once (`OptimisticLock.MayCreate`).

## What turned out differently from the obvious claim

* **The context of `MutexDo` can outlive its lease, by less than a millisecond.** MongoDB truncates the end
  of the lease, Redis its length; the context is exact. On MongoDB two calls on a key can overlap within
  both their deadlines if and only if both have begun by the earlier deadline and that deadline is not a
  whole millisecond (`MongoCriticalSection.OverlapIff`); a call with a whole deadline is therefore still
  exposed to one whose earlier deadline is not. On Redis they can overlap if and only if the stored TTL of
  one of them runs out before the earlier deadline (`RedisCriticalSection.OverlapIff`). Calls whose
  deadlines (MongoDB) or TTLs (Redis) are all whole milliseconds never overlap.
* **Mixing identities on a MongoDB lock breaks exclusion.** `Unlock` filters on key and expiry; a reentrant
  handle keeps a copy of an expiry and can later delete a stranger's unexpired lock stored with the same
  one. The unexpired leases on a key belong to one party in every run if and only if no identity used on
  that key meets another identity or an attempt without one (`ExcludesIff`). Other keys do not matter.
* **A lock attempt on MongoDB can be refused although nobody holds the key**: the expired document it read
  is reaped before its swap (`SpuriousRefusal`) or replaced, or a document that is already expired lands
  before its insert. `MongoMutexCode.Wins` is the exact condition of success, `RefusalReasons` lists the
  reasons. Number allocation is the same.
* **A handle that failed to unlock keeps believing in its lock**, and `TryLock` then returns true without
  asking the server; the contracts of `TryLock` promise a stored lock only from an empty handle.
* **The leader flag alone is not unique**, whatever the domain, keys and durations (`TwoFlagsReachable`);
  flag plus unexpired lease is.
* **A Redis renewal with a lease below one millisecond deletes the entry** and keeps the flag.
* **A refused `Update` leaves its new stamp in the caller's document.** Updating it again without reading
  passes, and breaks the chain of versions, if and only if that stamp fell into the millisecond of the
  stored version and the documents differ (`BlindRetryPassesIff`). Two sessions on one version both pass
  if and only if the first stamp fell into that version's millisecond (`SecondPassesIff`).
* **A budget below a millisecond is announced as zero and then ignored** by the receiver, which starts
  its own default (`BudgetKeptIff`). **A huge budget header overflows** to a negative duration and
  escapes the receiver's maximum (`MaximumBoundsIff`, `HugeHeaderEscapesMaximum`). **A recorded deadline
  without a matching cancellation can be extended** by an inbound request (`RecordedKeptIff`).
* **Backoff disappears for late attempts**, because the shift runs out of 64 bits
  (`LateAttemptsDoNotWait`, `BackoffHoldsIff`). **Weights whose int64 sum wraps** are not kept to, unless
  all are equal and the sum wraps to zero or below (`ProportionalIff`).
* **The source table of a configuration can name the wrong layer.** It names the layer that defines a leaf
  if and only if no layer above writes the leaf's flattened key (`Provenance`). Clean keys guarantee that;
  with an empty key, a secret of the default file is attributed to the local file and accepted
  (`ForgedSecretAccepted`).
* **The order of merging layers matters** unless no scalar of the middle layer hides anything of the first
  that the last does not say again (`MergeAssociatesIff`).

## Model

| member | source | states |
|---|---|---|
| `LeaseRegister.Handover` | dkit/mongo/elect.go:258-324 | in any legal run of a lease register, ownership passes to another holder only through the first one's expiry or own release |
| `LeaseRegister.KeptUntilExpiry` | dkit/mongo/mutex.go:113-189 | while its end has not come and its holder does nothing, a lease cannot change |
| `MongoMutex.TidyRun` | dkit/mongo/mutex.go:113-189 | every run keeps version numbers fresh, what was read equal to the version it names, and what was judged expired expired |
| `MongoMutex.CommandSpares` | dkit/mongo/mutex.go:126-189 | no insert, compare-and-set or delete of one handle disturbs another handle's unexpired lease |
| `MongoMutex.ExclusiveRun` | dkit/mongo/mutex.go:113-189 | in every run without identities on a key, each unexpired lease a handle of that key claims is exactly the stored document, whatever happens on other keys |
| `MongoMutex.MutualExclusion` | dkit/mongo/mutex.go:113-189 | at most one handle per key holds an unexpired lease, and the stored document is exactly that lease, in every interleaving without identities on that key |
| `MongoMutex.WinningWriteHolds` | dkit/mongo/mutex.go:126-161 | a lock write leaves its handle locked if and only if it took effect; it then holds if its lease is running, and no other handle on the key does |
| `MongoMutex.RegisterStep` | dkit/mongo/mutex.go:113-189 | each step grants only when free or lapsed, rewrites only by the holder, clears only by the holder or after expiry |
| `MongoMutex.RefinesRegister` | dkit/mongo/mutex.go:113-189 | every run without identities on a key is a legal run of the lease register of that key |
| `MongoMutex.LockPassesOn` | dkit/mongo/mutex.go:113-189 | the lock passes between handles only after expiry or the first one's own unlock |
| `MongoMutex.StaleCommandSpares` | dkit/mongo/mutex.go:171-189 | without identities on a key, an unlock or late write of a stale handle never removes or changes another holder's unexpired document, even one with an equal expiry |
| `MongoMutex.EntitledRun` | dkit/mongo/mutex.go:126-189 | in every run a handle attached to the stored version wrote it itself or carries its non-empty identity |
| `MongoMutex.SharedOnlyByIdentity` | dkit/mongo/mutex.go:126-189 | two handles attached to the stored version are one handle or carry one non-empty identity, in every run |
| `MongoMutex.VersionNeverReturns` | dkit/mongo/mutex.go:126-189 | a version that is gone never comes back |
| `MongoMutex.UnlockEndsSharing` | dkit/mongo/mutex.go:171-189 | one successful unlock ends the version for every handle attached to it, for good |
| `MongoMutex.InsertWins` | dkit/mongo/mutex.go:113-145 | an undisturbed attempt on a free key ends with the lock |
| `MongoMutex.SwapWins` | dkit/mongo/mutex.go:113-168 | an undisturbed attempt on an expired lock with a TTL of a millisecond or more ends with the lock |
| `MongoMutex.AttachWins` | dkit/mongo/mutex.go:126-168 | an undisturbed attempt with the stored identity attaches to the stored version |
| `MongoMutex.UnlockWins` | dkit/mongo/mutex.go:171-189 | an unlock removes whatever document has the remembered expiry |
| `MongoMutex.ExcludesIff` | dkit/mongo/mutex.go:113-189 | the unexpired leases on a key belong to one handle or one non-empty identity in every run if and only if no identity used on the key meets another one or an attempt without identity |
| `MongoMutex.MixedRun` | dkit/mongo/mutex.go:113-189 | for any identity and any other identity or none on a key, a run in which two of their handles hold unexpired leases at once |
| `MongoMutex.SpuriousRefusal` | dkit/mongo/mutex.go:142-161 | an attempt on an expired document can find it reaped before its swap and be refused on an empty store |
| `MongoMutexCode.TryLock` | dkit/mongo/mutex.go:100-168 | true exactly with a lock in hand; from an empty handle it fails if and only if a command it needs fails, and otherwise locks if and only if what it met at its look, its clock reading and its write, each right behind its gap, lets it; the lock is the lease asked for or the shared document; without identities a reported lock is the stored document or has run out; a remembered lock is reported without asking |
| `MongoMutexCode.Attempt` | dkit/mongo/mutex.go:113-168 | an attempt of an empty handle fails if and only if its find fails, or its write is needed and fails; otherwise it locks if and only if an absent key is still absent at the insert, an unexpired document carries the caller's identity, or an expired one is still stored at the swap and is changed by it |
| `MongoMutexCode.RefusalReasons` | dkit/mongo/mutex.go:113-168 | an attempt is refused because the key was held when it looked, a document came before its insert, the expired document it read was gone or replaced, or its TTL is below a millisecond |
| `MongoMutexCode.Judge` | dkit/mongo/mutex.go:142-167 | an unexpired document decides the attempt by its identity, an expired one is left to swap |
| `MongoMutexCode.Look` | dkit/mongo/mutex.go:113-135 | the read leaves the handle knowing exactly what was stored for the key at that moment |
| `MongoMutexCode.Read` | dkit/mongo/mutex.go:113-167 | the reading half fails if and only if the find does, and decides the attempt if and only if it found an unexpired document |
| `MongoMutexCode.Write` | dkit/mongo/mutex.go:126-161 | the conditional write fails if and only if its gap does, and else reports a lock if and only if it takes effect on what is stored when it is executed |
| `MongoMutexCode.Lock` | dkit/mongo/mutex.go:62-97 | the retry loop makes one attempt at once and one on every tick, each beginning where the last one ended and answering by what it met, until one locks or fails or something else fires; each of its five answers is given exactly for its reason, and nil exactly with a lock |
| `MongoMutexCode.Unlock` | dkit/mongo/mutex.go:171-189 | it fails if and only if the handle is locked and the command fails; a delete that is executed succeeds if and only if the document it meets has the remembered expiry, and removes just that; without identities on the key a lease still running then is given back and leaves the key free; a plain handle whose lock was gone stays as it was |
| `MongoMutexCode.RunningLeaseDeletes` | dkit/mongo/mutex.go:171-189 | in every run without identities on the key, a delete executed while the lease still runs finds its document |
| `MongoMutexCode.MutexDo` | dkit/dkit.go:249-285 | the action runs if and only if Lock got the lock, wholly inside the critical section; the lock is given back if and only if the delete finds it, the error tells action and unlock failures apart exactly, and without identities on the key a lease that still runs at the delete gives no unlock error and a free key |
| `MongoCriticalSection.BudgetedRun` | dkit/dkit.go:206-285 | in every run no lease of a `MutexDo` call is asked for that ends before its context |
| `MongoCriticalSection.DeadlineNearLease` | dkit/dkit.go:206-285 | a running action's deadline exceeds its stored lease by less than a millisecond, and not at all if it is a whole millisecond |
| `MongoCriticalSection.ActionsNeverOverlap` | dkit/dkit.go:206-285 | without identities on a key, two actions on it are never both within their deadlines counted in whole milliseconds, across any clients and lost replies |
| `MongoCriticalSection.OverlapIff` | dkit/dkit.go:206-285 | two calls on a key can overlap within both their exact deadlines if and only if both have begun by the earlier deadline and that deadline is not a whole millisecond |
| `MongoCriticalSection.WholeDeadlinesNeverOverlap` | dkit/dkit.go:206-285 | calls whose deadlines are whole milliseconds never overlap within them |
| `LockOptions.NewLockOption` | dkit/dmutex.go:42-63 | every option function that is not nil runs once, in order, on what the one before left; TTL and spin interval come out positive, callers' positive values are kept, and without options the TTL is the default one |
| `LockOptions.LastSettingWins` | dkit/dmutex.go:65-97 | of any settings passed, for each field the last one that says something wins; durations that are not positive say nothing; a field nobody sets keeps its default |
| `RedisMutex.InvRun` | dkit/redis/mutex.go:127-205 | every run keeps tokens unique to their handles and token leases stored unchanged |
| `RedisMutex.TokenLeaseKept` | dkit/redis/mutex.go:127-205 | a handle locked without identity keeps its entry, value and end until its own unlock or expiry, in every run, reentrant handles included |
| `RedisMutex.MutualExclusion` | dkit/redis/mutex.go:127-186 | at most one handle per key holds an unexpired token lease |
| `RedisMutex.SharedOnlyByIdentity` | dkit/redis/mutex.go:147-186 | two handles attached to the stored entry are one handle or carry one non-empty identity |
| `RedisMutex.EntryNeverReturns` | dkit/redis/mutex.go:127-186 | an entry that is gone never comes back |
| `RedisMutex.UnlockEndsSharing` | dkit/redis/mutex.go:168-186 | one successful unlock removes the entry for every handle attached to it, for good |
| `RedisCriticalSection.LeaseNearDeadline` | dkit/dkit.go:206-285 | the lease of a running action ends no earlier than the call's start plus its TTL as stored |
| `RedisCriticalSection.ActionsNeverOverlap` | dkit/dkit.go:206-285 | actions whose leases are running never overlap on Redis, across any clients and lost replies |
| `RedisCriticalSection.OverlapIff` | dkit/dkit.go:206-285 | two calls on a key can overlap within both their exact deadlines if and only if both have begun by the earlier deadline and the stored TTL of one of them has run out before it |
| `RedisCriticalSection.WholeTTLsNeverOverlap` | dkit/dkit.go:206-285 | calls whose TTLs are whole milliseconds, or below one, never overlap within their deadlines |
| `RedisMutex.RefinesRegister` | dkit/redis/mutex.go:127-186 | every run, reentrant ones included, is a legal run of the lease register held by stored values |
| `RedisMutex.LockPassesOn` | dkit/redis/mutex.go:127-186 | the lock passes between values only after expiry or that value's own delete |
| `RedisMutexCode.TryLock` | dkit/redis/mutex.go:114-165 | true exactly with a lock in hand; from an empty handle it fails if and only if a command it needs fails, locks if and only if the key is dead at SETNX or the live entry carries its identity at GET, and that lock is the stored entry |
| `RedisMutexCode.SetFirst` | dkit/redis/mutex.go:127-149 | the claim fails if and only if its command does, and else takes the key if and only if it is not live at that moment, for the TTL as stored |
| `RedisMutexCode.AskHolder` | dkit/redis/mutex.go:147-165 | the reentrant half reports a lock if and only if the live entry carried the caller's own identity when asked |
| `RedisMutexCode.Unlock` | dkit/redis/mutex.go:168-186 | it fails if and only if the handle is locked and the script fails; a script that is executed succeeds if and only if the live entry has the handle's value, and removes just that; a token whose lease still runs is given back in every run; a plain handle whose lock was gone stays as it was |
| `RedisMutexCode.TokenFound` | dkit/redis/mutex.go:168-186 | in every run a token whose lease runs is the live stored value |
| `RedisMutexCode.Lock` | dkit/redis/mutex.go:76-111 | the retry loop makes one attempt at once and one on every tick, each answering by what it met, until one locks or fails or something else fires; each of its answers is given exactly for its reason, and nil exactly with a lock |
| `RedisMutexCode.MutexTryDo` | dkit/dkit.go:206-246 | the action runs if and only if the attempt locked, wholly inside the critical section; the lock is given back if and only if the script finds it, the error tells action and unlock failures apart exactly, and a lease that still runs at the script gives no unlock error |
| `MongoElection.LeaderKeyInjective` | dkit/mongo/elect.go:363-368 | isolation domains never share a leader document |
| `MongoElection.InvRun` | dkit/mongo/elect.go:199-324 | every run keeps each unexpired grant equal to the stored document and node keys of a domain distinct |
| `MongoElection.CommandSpares` | dkit/mongo/elect.go:258-324 | no insert, takeover, renewal or resignation of one node disturbs another node's unexpired grant |
| `MongoElection.UniqueLeader` | dkit/mongo/elect.go:258-324 | at every instant at most one node of a domain has an unexpired grant, and the stored document is that grant |
| `MongoElection.RenewalTellsTruth` | dkit/mongo/elect.go:310-324 | a renewal keeps the flag if and only if the document is still the node's own, and then extends it |
| `MongoElection.RunningLeaseIsRenewed` | dkit/mongo/elect.go:310-324 | in every run a renewal that arrives while the node's lease is running is not refused |
| `MongoElection.RefinesRegister` | dkit/mongo/elect.go:199-324 | every run is a legal run of the lease register held by node keys, per domain |
| `MongoElection.LeadershipPassesOn` | dkit/mongo/elect.go:199-324 | leadership passes to another node only after expiry or the owner's own resignation |
| `MongoElection.CampaignWins` | dkit/mongo/elect.go:258-308 | an undisturbed campaign in an empty domain wins it |
| `MongoElection.TakeOverWins` | dkit/mongo/elect.go:258-308 | an undisturbed campaign in a domain whose leader's lease has expired takes it over |
| `MongoElection.TwoFlagsReachable` | dkit/mongo/elect.go:258-324 | for every domain, any two node keys and any lease durations, both nodes can have the leader flag at once |
| `MongoElectionCode.RunElectionOnce` | dkit/mongo/elect.go:235-256 | a leader that may lead sends a renewal and stays leader if and only if the command does not fail and meets its own document, whose expiry is then the new one; in particular while its lease runs; another node campaigns; a node that may not lead gives the flag up and sends nothing; published events alternate |
| `MongoElectionCode.ContinueLeader` | dkit/mongo/elect.go:310-324 | a renewal keeps the flag if and only if it does not fail and meets the node's own document, and then exactly the expiry changes; a node whose lease runs at that moment stays leader |
| `MongoElectionCode.Campaign` | dkit/mongo/elect.go:258-308 | a campaign sets the flag for its own document, not for another's unexpired one, and else if and only if its write is executed and finds what was read; the domain is then its own for the lease from the clock reading; a failed find leaves the flag down |
| `MongoElectionCode.OpenDomainIsWon` | dkit/mongo/elect.go:258-308 | a campaign whose commands do not fail wins a domain it found free or expired and that stays so until its write |
| `MongoElectionCode.Write` | dkit/mongo/elect.go:283-308 | the write of a campaign sets the flag if and only if it is executed and finds what was read, and leaves the domain the node's own for its lease, or else the store alone |
| `MongoElectionCode.CloseNode` | dkit/mongo/elect.go:199-217 | closing a leader removes the domain's document if and only if the command does not fail and meets the node's own, and nothing else; any other node removes nothing |
| `LeaderEvents.Publish` | dkit/mongo/elect.go:129-139 | events alternate, starting with true, and always end with the current flag |
| `RedisElection.InvRun` | dkit/redis/elect.go:175-279 | every run keeps each unexpired grant equal to the stored entry |
| `RedisElection.UniqueLeader` | dkit/redis/elect.go:234-279 | at every instant at most one node of a domain has an unexpired grant, and the stored entry is that grant |
| `RedisElection.RenewalTellsTruth` | dkit/redis/elect.go:261-279 | a renewal keeps the flag if and only if the live entry is the node's own; it extends it, or deletes it if the lease is below a millisecond |
| `RedisElection.RunningLeaseIsRenewed` | dkit/redis/elect.go:261-279 | in every run a renewal that arrives while the node's lease is running is not refused |
| `RedisElection.RefinesRegister` | dkit/redis/elect.go:175-279 | every run is a legal run of the lease register held by node keys, per domain |
| `RedisElection.LeadershipPassesOn` | dkit/redis/elect.go:175-279 | leadership passes to another node only after expiry or the owner's own resignation |
| `RedisElectionCode.RunElectionOnce` | dkit/redis/elect.go:211-232 | a leader that may lead sends a renewal and stays leader if and only if the command does not fail and meets its own live entry; in particular while its lease runs, and with a running lease if that is at least a millisecond; another node campaigns; a node that may not lead sends nothing; published events alternate |
| `RedisElectionCode.Campaign` | dkit/redis/elect.go:234-259 | a campaign takes a dead entry for the lease, and else sets the flag if and only if the GET does not fail and meets a live entry of the node's own |
| `RedisElectionCode.ContinueLeader` | dkit/redis/elect.go:261-279 | a renewal keeps the flag if and only if it does not fail and meets the node's own live entry, and then extends exactly that, or deletes it below a millisecond; a node whose lease runs at that moment stays leader |
| `RedisElectionCode.CloseNode` | dkit/redis/elect.go:175-193 | closing a leader removes the domain's entry if and only if the command does not fail and meets the node's own live one, and nothing else |
| `MongoNumbers.ClaimsSeparated` | dkit/mongo/random.go:37-88 | in every run two claims of one number are separated by the first one's stored expiry |
| `MongoNumbersCode.TryNumber` | dkit/mongo/random.go:58-85 | a turn fails if and only if a command it needs fails, and else claims the number, as one new claim of the caller, if and only if it is absent at look and insert, or its claim is expired, still stored at the swap and changed by it |
| `MongoNumbersCode.RefusalReasons` | dkit/mongo/random.go:58-85 | a number is refused because it was claimed when looked up, a claim came before the insert, the expired claim was gone or renewed before the swap, or the call had outlived its own lease |
| `MongoNumbersCode.GetUniqueRandomNumber` | dkit/mongo/random.go:37-88 | the call walks the permutation turn by turn and gives each of its answers exactly for its reason; a number is in range and the call's only claim |
| `MongoNumbersCode.ExhaustedMeans` | dkit/mongo/random.go:37-88 | a walk that ends without a number refused every number of the range during the call |
| `RedisNumbers.ClaimsSeparated` | dkit/redis/random.go:40-69 | in every run two claims of one number are separated by the first one's whole lease |
| `RedisNumbers.GetUniqueRandomNumber` | dkit/redis/random.go:40-69 | the call walks the permutation and gives each of its answers exactly for its reason, a number if and only if it is not live when tried; it is in range and the call's only claim, held for the lease |
| `RedisNumbers.TryNumber` | dkit/redis/random.go:50-66 | a turn stops if and only if the context is cancelled or the command fails, and else wins if and only if the number is not live when tried |
| `RedisNumbers.ExhaustedMeans` | dkit/redis/random.go:40-69 | an exhausted range was taken, number by number, during the call |
| `Base64Url.RoundTrip` | dkit/redis/redis.go:213-223 | decoding undoes encoding, for every byte string |
| `Base64Url.EncodePlain` | dkit/redis/redis.go:213-215 | an encoded name holds symbols of the base64url alphabet only |
| `Base64Url.Injective` | dkit/redis/redis.go:213-215 | different names have different encodings |
| `RedisKeys.LeaderKeyInjective` | dkit/redis/redis.go:201-203 | two domains share a leader key if and only if they are one |
| `RedisKeys.HeartbeatKeyInjective` | dkit/redis/redis.go:205-207 | a heartbeat key determines its domain and its node |
| `RedisKeys.PatternMeans` | dkit/redis/redis.go:209-211 | for a glob-free prefix the scan pattern matches exactly the keys that begin like the domain's heartbeat keys |
| `RedisKeys.ScanFindsDomain` | dkit/redis/redis.go:193-211 | of all keys written under a glob-free prefix, the scan of a domain matches exactly that domain's heartbeats |
| `RedisKeys.NodeRecovered` | dkit/redis/elect.go:147-155 | what follows the last colon of a heartbeat key decodes to its node key, for every non-empty node key; the empty one is skipped |
| `RedisKeys.ScanHeartbeatKeys` | dkit/redis/elect.go:311-327 | the scan returns exactly the keys of all pages, and fails if and only if a page fails |
| `RedisKeys.ReadNodes` | dkit/redis/elect.go:145-156 | the names are exactly those the keys decode to, and it fails if and only if some key does not decode |
| `RedisKeys.AliveNodes` | dkit/redis/elect.go:133-157 | given the domain's heartbeat keys, the answer names exactly the non-empty nodes whose keys were found |
| `ConfigTree.MergeLeaf` | config/config.go:354-370 | a leaf of the merged tree is the source's if it has one there, else the old one, which survives if and only if the source says nothing at the path or on the way |
| `ConfigTree.MergeMaps` | config/config.go:354-370 | the in-place loop, in any order of fields, computes the recursive merge |
| `ConfigTree.MergeAssociatesIff` | config/config.go:354-370 | merging three layers associates if and only if no scalar of the middle one hides fields of the first that the last does not say again |
| `ConfigTree.AbsorbsIff` | config/config.go:354-370 | merging into a map changes nothing of the source if and only if the source says every field again, at all depths |
| `ConfigTree.SetThenLookup` | config/config.go:372-408 | what was set is found again, and leaves on unrelated paths are found as before |
| `ConfigTree.GetPath` | config/config.go:388-408 | the loop finds exactly what lies at the path |
| `ConfigLayers.TypedLeaves` | config/config.go:410-459 | typed overrides keep the shape of the layer, and each leaf is typed by the value found at the same path below |
| `ConfigLayers.ParseWithHint` | config/config.go:430-459 | a string that reads in the type of the value it replaces gets that type; otherwise it is parsed plainly; the value is what the conversion of its type reads, or the string itself |
| `ConfigLayers.ParsePlain` | config/config.go:448-458 | bool exactly if it reads as one, else integer, else float, and the string itself exactly if none of these |
| `ConfigLayers.JoinedInjective` | config/config.go:579-610 | different clean paths never flatten to one key |
| `ConfigLayers.UncleanPathsCollide` | config/config.go:579-610 | a dotted key flattens like its two halves, and an empty first key like none, for all keys and paths |
| `ConfigLayers.RecordSources` | config/config.go:598-610 | exactly the flattened keys of the layer's leaves are attributed to it, all other entries stay |
| `ConfigLayers.FlattenMap` | config/config.go:579-596 | the flattening lists exactly the leaf keys, each with the value of a leaf of that key |
| `ConfigLoad.Provenance` | config/config.go:65-113 | for all keys: a leaf of the merged tree has the typed value of the last layer with a leaf there, and the table names that layer if and only if no layer above it writes the leaf's flattened key |
| `ConfigLoad.ValueProvenance` | config/config.go:65-113 | a leaf of the merged tree has the typed value of the last layer with a leaf at its path, for all keys |
| `ConfigLoad.TableExact` | config/config.go:598-610 | the table names the defining layer if and only if no layer above it writes the flattened key |
| `ConfigLoad.CleanUndisputed` | config/config.go:598-610 | with clean keys no layer above the defining one writes a leaf's flattened key |
| `ConfigLoad.NotOverwritten` | config/config.go:598-610 | a layer without a leaf at a clean path does not touch its table entry |
| `ConfigLoad.ValidateSensitive` | config/config.go:612-630 | accepts if and only if every sensitive concrete leaf comes from the local file or the environment and is no placeholder |
| `ConfigLoad.ValidateRequired` | config/config.go:461-486 | accepts if and only if every required path is present and not empty |
| `ConfigLoad.AddLayer` | config/config.go:65-113 | merging one layer and recording its sources keeps tree and table those of the layers |
| `ConfigLoad.MergeAll` | config/config.go:57-106 | every leaf of the flags has its typed value in the tree; below that rank the environment, the local file, the env file and the default file; the table names exactly the highest input that writes a key |
| `ConfigLoad.Precedence` | config/config.go:65-106 | for all paths: the flag value typed by what lay below, else the environment value typed by the files, else the local, env-file or default value |
| `ConfigLoad.LeafIff` | config/config.go:65-106 | a leaf is in the merged tree if and only if some input has it and no input above says anything at its path or on the way |
| `ConfigLoad.SourceByInput` | config/config.go:598-610 | the table names flags, env, local, env-file or default: the highest input that writes the flattened key |
| `ConfigLoad.Load` | config/config.go:57-113 | for all keys: the tree ranks flags, environment, local, env file and default file leaf by leaf; fails for a missing required key exactly; else accepts if and only if every concrete sensitive entry of a flattening is no placeholder and its key is written by the environment or the local file and by no flag; with clean keys, if and only if every such leaf is the environment's or the local file's and no flag's |
| `ConfigLoad.HonestDecision` | config/config.go:579-630 | where every leaf is alone with its flattened key and undisputed, the check over the flattened tree is the check over the leaves and the layers that define them |
| `ConfigLoad.CleanIsHonest` | config/config.go:579-610 | clean keys tell leaves apart and leave them undisputed |
| `ConfigLoad.ForgedSecretAccepted` | config/config.go:57-113 | for any key and values, a default file's secret under the key is attributed to a local file that sets the key below an empty one, and accepted |
| `ConfigLoad.NoSecretFromFilesOrFlags` | config/config.go:57-113 | after a successful load a concrete sensitive leaf alone with its key is vouched for by the local file or the environment; the voucher defines it, rather than default file, env file or flags, if and only if no layer above the defining one writes its key |
| `FeedPaging.InjectMeans` | model/mongox/mongox.go:219-234 | an injected filter matches a row if and only if all injected conditions hold, all of the caller's on other fields hold, and all parts of the caller's filter match |
| `FeedPaging.QueryMeans` | model/mongox/mongox.go:304-315 | a query finds exactly the rows the caller is to see behind the token |
| `FeedPaging.InjectAgain` | model/mongox/mongox.go:219-234 | injecting the isolation conditions again into any filter a call leaves behind changes nothing |
| `FeedPaging.ReuseMeans` | model/mongox/mongox.go:294-315 | passing the mutated filter again with a later token finds exactly what a fresh query with that token finds |
| `FeedPaging.PrepareFilter` | model/mongox/mongox.go:304-315 | the input's filter finds, among rows with a cursor, exactly those the caller is to see (injected conditions, own conditions on other fields, own parts) behind the token's value in the feed's direction; a token that does not parse is refused with the conditions already injected |
| `FeedPaging.CutPage` | model/mongox/mongox.go:330-341 | the page is the answer cut at the page size, a token of its last row goes with it if and only if a row is left, and a last row without cursor is an error |
| `FeedPaging.FeedQuery` | model/mongox/mongox.go:294-342 | the page is the answer cut at the page size, a token is returned if and only if a row is left, and the input's filter becomes the one queried with, which finds exactly the rows the caller is to see behind the token |
| `FeedPaging.TokenRoundTrip` | model/mongox/mongox.go:351-436 | the token of a row stands for that row's position |
| `FeedPaging.SentMeans` | model/mongox/mongox.go:294-342 | in any sequence of calls that follow the tokens, each passing the caller's own or the mutated filter, every query means the base rows behind the last token |
| `FeedPaging.ReadsTraverses` | model/mongox/mongox.go:294-342 | such calls form a traversal: each looks behind the page before it |
| `FeedPaging.NoRowTwice` | model/mongox/mongox.go:294-342 | over the filters the code sends, for callers that pass their own or the mutated filter each time: no row is returned twice, whatever changes between the calls |
| `FeedPaging.OnlyVisibleRows` | model/mongox/mongox.go:294-342 | every returned row is of the collection met and meets the injected conditions, the caller's own on other fields and all parts of its filter |
| `FeedPaging.NoRowMissed` | model/mongox/mongox.go:294-342 | such a caller that has read to the end was given every row that was there throughout and met the injected conditions, its own on other fields and all parts of its filter |
| `FeedReadAll.Ask` | model/mongox/mongox.go:317-342 | one query returns the first rows of the feed behind the token |
| `FeedReadAll.NextPage` | model/mongox/mongox.go:294-342 | one more page ends the feed with all of it read, or brings the rows up to the new token, with fewer left |
| `FeedReadAll.PageStep` | model/mongox/mongox.go:294-342 | after a page with a token both the mutated input and a fresh one continue right behind it, and rows remain |
| `FeedReadAll.ReadAll` | model/mongox/mongox.go:294-342 | on a static collection the caller's loop ends and its pages put together are exactly the rows that meet the injected conditions, the caller's own on other fields and all its parts, each once, by ascending or descending cursor, with fresh or reused input |
| `OptimisticLock.InvRun` | model/mongox/mongox.go:655-733 | every careful run keeps versions growing and each session's copy tied to the version it read |
| `OptimisticLock.WritesIff` | model/mongox/mongox.go:655-690 | the version filter matches if and only if the version read is still the stored one |
| `OptimisticLock.NoLostUpdate` | model/mongox/mongox.go:655-733 | stored versions strictly increase, and each replaced exactly the version its writer had read |
| `OptimisticLock.AcceptedIffCurrent` | model/mongox/mongox.go:655-690 | an update is accepted if and only if the version read is still stored; otherwise the store is unchanged |
| `OptimisticLock.ConflictTellsTruth` | model/mongox/mongox.go:673-685 | "modified by other" is reported if and only if a strictly later version is stored, not found if and only if the document is gone |
| `OptimisticLock.SecondPassesIff` | model/mongox/mongox.go:655-733 | of two sessions on one version the second passes after the first if and only if the first stamp fell into that version's millisecond |
| `OptimisticLock.BlindRetryPassesIff` | model/util.go:18-47 | after any careful run, updating a refused document again without reading passes, and breaks the chain of versions, if and only if its stamp fell into the millisecond of the stored version and the documents differ |
| `OptimisticLock.SameMillisecondLosesUpdate` | model/util.go:18-47 | with a stamp in the millisecond of the version read, both sessions succeed and one update is lost |
| `OptimisticLock.BlindRetryLosesUpdate` | model/util.go:18-47 | updating a refused document again without reading can overwrite the version that caused the refusal |
| `OptimisticLockCode.Update` | model/mongox/mongox.go:646-690 | it fails if and only if a command it needs fails; the replace is accepted if and only if it meets the stamp of the copy and changes something, and what matched nothing is a conflict or gone by whether the document is there; in careful runs success puts the document on exactly the version the copy stood for and a conflict is for a later one; the copy carries the new stamp either way |
| `OptimisticLockCode.UpdateLockAndAudit` | model/util.go:18-47 | the filter keeps the stamp the copy had, the copy gets the present time and user |
| `OptimisticLockCode.CommonReplace` | model/mongox/mongox.go:655-690 | the answer of a stamped copy is decided by what its replace meets and, where that matched nothing, by what its count meets |
| `OptimisticLockCode.Replace` | model/mongox/mongox.go:655-690 | the replace is accepted on exactly the version read, or leaves the store alone |
| `OptimisticLockCode.Explain` | model/mongox/mongox.go:673-685 | the count tells an overtaken document from a missing one |
| `TimeoutBudget.LocalNeverExtends` | httpx/tracing.go:36-60 | no sequence of derived, inbound or call contexts is cancelled later than the context it started from |
| `TimeoutBudget.AuthoritativeNeverExtends` | httpx/tracing.go:139-155 | from a context that is cancelled by then, the deadline a process would announce is not extended either |
| `TimeoutBudget.RecordedKeptIff` | httpx/tracing.go:36-60 | a recorded deadline survives an inbound request if and only if no timeout is set, or the new deadline or the context's own cancellation comes no later |
| `TimeoutBudget.WithAuthoritative` | httpx/tracing.go:149-155 | the recorded deadline and the real one agree and are no later than the given or the existing one |
| `TimeoutBudget.CallDeadline` | httpx/agent.go:131-164 | the deadline of a call is the earlier of the recorded one and the context's own; without either, its quota from now, or five seconds |
| `TimeoutBudget.InboundDeadline` | httpx/tracing.go:36-60 | an inbound request is due at the header's budget or else the default, cut to a positive maximum, from now, or the context's own deadline if earlier; a timeout of zero without maximum or below zero sets none |
| `TimeoutBudget.CallAnnouncesItsDeadline` | httpx/agent.go:131-164 | from whatever context, a call has a deadline, announces the whole milliseconds left of it (no more, and less by under one), and is refused exactly once it has passed |
| `TimeoutBudget.AnnouncedFits` | httpx/tracing.go:92-99 | a budget this package announces never overflows at the receiver |
| `TimeoutBudget.MaximumBoundsIff` | httpx/tracing.go:47-60 | a positive maximum bounds an inbound request if and only if the timeout asked for is not negative |
| `TimeoutBudget.HugeHeaderEscapesMaximum` | httpx/tracing.go:47-60 | a header whose milliseconds overflow leaves the request without a deadline |
| `TimeoutBudget.ServedWithinBudget` | httpx/tracing.go:36-60 | an announced budget of a millisecond or more bounds the receiver's deadline |
| `TimeoutBudget.ChainWithinBudget` | httpx/tracing.go:76-101 | over any chain of hops that send with a millisecond left, a later deadline is at most an earlier one plus the transit between |
| `TimeoutBudget.BudgetKeptIff` | httpx/tracing.go:47-60 | for a fresh receiver the budget is kept if and only if a millisecond was left or the receiver's own timeout fits into what was left |
| `TimeoutBudget.SubMillisecondRestartsBudget` | httpx/tracing.go:47-60 | half a millisecond left becomes the receiver's whole default |
| `RetryDelay.ShiftIsProduct` | httpx/agent.go:372-372 | the int64 shift is the product with a power of two, wrapped once |
| `RetryDelay.ShiftedOut` | httpx/agent.go:372-372 | sixty-four places or more shift everything out |
| `RetryDelay.Delay` | httpx/agent.go:363-381 | for all options and attempts the wait is not negative and less than the maximum |
| `RetryDelay.BackoffRange` | httpx/agent.go:363-381 | where the doubled base fits, the wait is at least half and less than all of the capped doubling |
| `RetryDelay.BackoffHoldsIff` | httpx/agent.go:372-375 | the capped doubling is met if and only if the doubled base fits an int64 or its wrapped value reaches the cap |
| `RetryDelay.EveryWaitComesUp` | httpx/agent.go:372-381 | each wait in the upper half of the capped doubling comes up for some draw |
| `RetryDelay.LateAttemptsDoNotWait` | httpx/agent.go:363-381 | past the sixty-fourth attempt there is no wait |
| `HttpRetry.Allowed` | httpx/agent.go:217-225 | one attempt without retry options or for a method that may not be retried, else the attempts asked for, or three |
| `HttpRetry.Agent.PrepareRequest` | httpx/agent.go:166-201 | a request is prepared if and only if time is left before and after the handlers and neither they nor discovery break; it announces the whole milliseconds left; the failure is retryable if and only if the error was marked so |
| `HttpRetry.Agent.Exchange` | httpx/agent.go:266-310 | success if and only if the status is expected and, outside streams, the handler passes; retryable if and only if a network error, a retry status outside the expected ones, or a handler error marked or made retryable; the body is closed unless a successful stream hands it on |
| `HttpRetry.Agent.DoHTTP` | httpx/agent.go:255-310 | one attempt sends a request if and only if time is left and nothing breaks before, ends as the reply demands, and leaves no body open but a returned stream's |
| `HttpRetry.Agent.Backoff` | httpx/agent.go:235-245 | a wait is begun if and only if it ends strictly before the deadline, and the call goes on if and only if its timer fires |
| `HttpRetry.Agent.RetryDoHTTP` | httpx/agent.go:217-248 | the attempts follow each other exactly by retryable failures with attempts and time left and a timer that fired, each as its replies demand; the report is the last one's, or the context's end in a backoff |
| `HttpRetry.Agent.Execute` | httpx/agent.go:97-215 | the same for a whole call from whatever context, one attempt without retry options; every body is closed but the one a successful stream returns |
| `HttpRetry.RepeatedFor` | httpx/agent.go:217-310 | over a whole call, an attempt follows another only for a network error, a retry status outside the expected ones, a handler error marked or made retryable, or a retryable error before the request left |
| `HttpRetry.EndsOnlyFor` | httpx/agent.go:217-248 | a call whose last request met one of these ends only for lack of attempts, for lack of time, or with its context |
| `HttpRetry.SucceedsIff` | httpx/agent.go:266-310 | a call reports success if and only if its last request left and got an expected status and, outside streams, was handled |
| `HttpRetry.CallStaysInBudget` | httpx/agent.go:217-248 | over a whole call the attempts are bounded, every request leaves before the deadline with no more announced than is left, and every wait ends before it |
| `WeightedPick.CandidatesMean` | httpx/discovery.go:127-151 | a candidate is a callable instance that is near, or any callable one if none is near |
| `WeightedPick.LandsOnce` | httpx/discovery.go:164-173 | no draw selects two candidates |
| `WeightedPick.Proportional` | httpx/discovery.go:152-174 | of the draws below the total weight exactly as many select a candidate as it weighs, none for a non-positive weight |
| `WeightedPick.ProportionalIff` | httpx/discovery.go:152-174 | with int64 addition each candidate's part of the draws is its part of the weight if and only if the total fits, or it wraps to zero or below and all shares are equal |
| `WeightedPick.Collect` | httpx/discovery.go:131-147 | the loop keeps exactly the callable instances, in order, only near ones where asked |
| `WeightedPick.AddWeights` | httpx/discovery.go:152-157 | the total is the wrapped sum of the positive weights |
| `WeightedPick.Walk` | httpx/discovery.go:162-174 | the subtracting walk ends at the candidate the draw lands on and never reaches the fallback |
| `WeightedPick.Pick` | httpx/discovery.go:127-175 | fails if and only if no instance may be called; otherwise picks one that may, of another zone only if no callable one is of the zone or of none: the candidate the draw lands on, or a uniform one if the total is not positive |
| `LimitReader.Limited.Read` | resource/http.go:115-138 | gives the body's next bytes up to the limit; the limit's error if and only if it is exceeded, and for good; within the limit exactly the body's own read |
| `LimitReader.Limited.Room` | resource/http.go:119-126 | the body is offered at most one byte beyond the limit, and some room whenever the buffer has some |
| `LimitReader.ReadRun` | resource/http.go:108-138 | over any reads the bytes are a prefix of the body within the limit; the limit's error means exactly the limit was given of a longer body and every later read fails; end of file means the whole body |

## Left out

- The MongoDB and Redis drivers, index creation and connections: replaced by small stores with atomic commands.
- Goroutines, tickers and channels: replaced by arbitrary scheduling; `Lock` takes the list of ticks that fire.
- Lost replies for long-lived handles, elections and number allocation: only `MutexDo` and `MutexTryDo` lose replies.
- Clock skew between clients: all leases are judged by one clock.
- `ExistLock`, heartbeats on MongoDB and `IsAlive`: single reads.
- Sonyflake identifiers and machine ids: the generator is an unseen library.
- Reading YAML, environment and flags into trees, struct decoding, masking, hashing and logging in `config`: layers are given trees, string conversions and string tests are parameters.
- Aliasing of Go maps between configuration layers: trees are values; the source never reads a layer again after merging it in.
- The order in which Go walks a map: where two leaves flatten to one key, which of their values is checked is left open.
- Rendering and parsing of page tokens and reflection over BSON tags: the token codec is a parameter that must round-trip to non-empty strings.
- `Upsert`, patches and batch operations: they carry no version guard.
- The isolation and soft-delete conditions of updates: they restrict which documents a session can see and are the same in read and replace.
- `MongoMutex.MutualExclusion`: for runs without identities on the key; `MongoMutex.ExcludesIff` says exactly which identities may meet.
- `net/http`, request and response handlers, discovery and URL rewriting: each is a phase of an attempt that takes time and may fail.
- A TTL of zero on Redis, which would never expire, and the millisecond granularity of the server's own clock.
- Overflow of `time.Time` arithmetic and of the lock token counter.
- `RedisKeys.PatternMeans`: patterns with character classes are not modelled; the prefix must be free of glob signs.
- Resource identifiers, storage back ends and file I/O in `resource`.
