# A verified model of the session store

The repository keeps login sessions behind signed tokens. A session has an access token, a refresh token, an
access deadline, a later refresh deadline and a small key-value map; a provider stores the sessions, caps their
number, and removes those past their refresh deadline lazily: when a call meets one, on a timer, and in batches
that a worker gathers from a channel. This project models the two local providers (memory and bolt), the token
grammar and its signatures, the manager, the client's cache and the concurrent cleaning system, and proves when
clients cannot see the laziness: as long as no session is refreshed onto a token that is still stored, always without
a cap, which is the default, and under a cap until a Create evicts a live session while a dead one is stored.

## How the parts fit

- `Basics`, `Tokens`, `Base64Url`, `Cryptoer`, `BigEndian`: strings, the two token parsers, unpadded base64url
  (section 5 of RFC 4648), signing, and the eight-byte keys of the bolt `lru` bucket.
- `Sessions`: a session as a value, and ordered lists of sessions. `Store`: each provider call as a function on
  such a list, twice: `LazyStep`, as the back ends run it with dead sessions still stored, and `EagerStep`, as a
  client should see it, on a list from which everything dead has already gone. `Runs` lifts the comparison to
  whole runs with any cleaning in between; `Laws` states what a client can rely on across calls.
- `Index`: the session list together with the user-id index, and the agreement (`Linked`) between them.
- `Clocks`, `Slices`, `TokenValues`, `MemoryProviders`: the memory provider with its mutable records, byte arrays,
  and slices edited in place. Every public method is proved to take exactly the `LazyStep` of its call.
- `BoltBuckets`, `BoltProviders`: the bolt provider over its buckets, one transaction a call, proved to take exactly
  `BoltStep`: the same step, except that a call which would store under an empty id or data key is refused.
- `Drivers`: sequences of requests served by either class. What happened is a run in the sense of `Runs`, with the
  clock readings the methods reported, so the theorems there are theorems about both classes.
- `Workers`: the memory provider as a system of goroutines, where Create stamps its record before it takes the
  lock. `Histories`: every reachable state of it is that of a run in the sense of `Runs`. `Clashes`: what a refresh
  onto a token that is still stored leads to.
- `SessionCaches`, `Managers`: the client's cache and the manager, as classes over the memory provider.

A clock is an object whose every reading is some instant not before the last one; methods report their readings
as ghost results, so no contract assumes that the clock stands still during a call. Go's `container/list` is a
sequence of records, its elements identified by the record. In both providers a nil value and an empty one are
the same value. Where the code disagrees with a stated purpose, the code is modelled: `unsafeClear` keeps an
empty id list that its own test meant to drop, and the bolt worker's batch does nothing. `Refresh` onto a token already
in use does not first remove what is stored under it: the memory provider then lists the token twice, and the bolt
provider overwrites the other session's record, merges the two sessions' data, files the token twice and counts one
session too many.

## Properties that do not hold as they stand

- Laziness is invisible: in a run whose refreshes have clean targets, exactly when no Create evicts a live session
  while a dead one is stored (`Runs.LazinessInvisible`, `Store.InsertSameLiveIff` for one eviction). That never happens
  without a cap (`Runs.UncappedInTurn`) nor with stamps taken in list order (`Runs.TimedInTurn`); with overlapping
  Creates at a cap it does, and `Runs.CapShows` is a run from the empty store in which a client can tell.
- Cleaning takes no live session after a `Refresh`: when the new token was not stored, not even under a dead session,
  or was the one replaced; otherwise exactly as `Clashes.RefreshSafeIff` says, and on a list in order of deadlines never
  (`Clashes.RefreshSafeIffFresh`). That the token is free among live sessions is not enough (`Clashes.DeadTargetUnsafe`);
  `Clashes.TimerTakesLive` is a failing run from the empty store, and
  `MemoryProviders.MemoryProvider.RefreshThenClear` the same in the provider's own structures.
- The structures stay in step through `Refresh`: exactly when the new access token is unused or the one replaced
  (`Store.RefreshDistinctIffFresh`, in both providers' `Refresh`, and among the steps of the concurrent system
  `Workers.StepInvIff`); `Store.RefreshOntoUsedToken` is an input for which they do not, and `BoltBuckets.MovedIff`
  says what the buckets hold then.
- The list stays sorted by refresh deadline: always when stamps are taken in list order (`Store.StepOrdered`);
  with overlapping Creates exactly as `Workers.InsertSortedIff` says, `Workers.OverlapUnsorted` being a failing run.
- The cache agrees with the store after `Session.Delete`: exactly when the call fails, or names another token, or
  deletes nothing that is cached as present (`SessionCaches.DeleteAgreesIff`, `SessionCaches.Session.Delete`);
  `SessionCaches.StaleAfterDelete` is a failing call.

## Model

| member | source | states |
|---|---|---|
| Tokens.SplitAcceptsTwoDots | token.go:26-43 | a token is accepted exactly when it holds two separators or more |
| Tokens.JoinAfterSplit | token.go:26-43 | joining the parts of an accepted token gives the token back; id and signature hold no separator |
| Tokens.SplitAfterJoin | token.go:14-43 | splitting a joined token gives the parts back exactly when id and signature hold no separator |
| Tokens.IsToken | token.go:17-25 | no error exactly when every token holds two separators or more |
| Base64Url.DecodeAfterEncode | coder.go:33-35 | decoding an encoding gives the bytes back |
| Base64Url.EncodeInjective | coder.go:33-35 | two users have the same encoded id exactly when they are the same user |
| Base64Url.EncodeDotFree | coder.go:33-35 | an encoded id or session id never holds the token separator |
| Base64Url.EncodeByGroup | coder.go:33-35 | encoding writes the digits of the 24-bit groups in the alphabet of section 5 of RFC 4648 |
| Base64Url.DecodesAlphabet | coder.go:33-35 | a character is a digit exactly when it is in that alphabet, of the value of its place there |
| Base64Url.DecodeAccepts | cryptoer/hmac.go:68-72 | what decodes: line breaks aside, characters of the alphabet, and not one alone at the end |
| Base64Url.EncodeAfterDecode | cryptoer/hmac.go:68-72 | encoding what was decoded gives the digits back, but for unused bits of the last one |
| Cryptoer.SigningMethod.SignThenVerify | cryptoer/hmac.go:62-108 | a signature is dot-free and verifies for its own message and key |
| Cryptoer.SigningMethod.VerifyIff | cryptoer/hmac.go:62-91 | a signature is good exactly when it decodes to the digest Sign makes for the same message and key |
| Cryptoer.SigningMethod.VerifyOnlyOwnDigest | cryptoer/hmac.go:62-91 | a signature verifies another message exactly when the two digests are equal |
| Cryptoer.DecodeAfterEncode | cryptoer/encode.go:25-55 | encoding always succeeds, and decoding it returns id and session id exactly when the session id holds no dot |
| Cryptoer.DecodeIff | cryptoer/encode.go:34-55 | any id.sessionid.signature decodes to its id and session id exactly when the signature verifies, and otherwise to what is wrong with it |
| Cryptoer.DecodeShapes | cryptoer/encode.go:34-45 | every token with two dots is of that form, and any other is invalid |
| Cryptoer.SameShapes | cryptoer/encode.go:34-45 | before verification both parsers accept the same tokens |
| Cryptoer.ParsersAgreeOnTwoDots | cryptoer/encode.go:34-55 | the two parsers name the same id and session id exactly when the token has two dots |
| BigEndian.KeyCodecBijective | provider/bolt/metadata.go:13-20 | the key codec is a bijection between uint64 and eight-byte strings |
| BigEndian.KeyOrder | provider/bolt/metadata.go:13-20 | byte order of the keys is numeric order of the sequence numbers |
| Sessions.GetAfterPut | provider.go:465-467 | after a put the last pair for a key is its value, and other keys are untouched |
| Sessions.LiveDeadPrefix | provider.go:174-207 | in a sorted list, dropping the dead sessions before the first live one leaves exactly the live ones |
| Store.StepKept | provider.go:293-627 | whatever order stamps are taken in, with clean refreshes every call keeps tokens distinct and the length within the cap |
| Store.StepOrdered | provider.go:293-627 | with stamps in list order it also keeps the list sorted by refresh deadline |
| Store.RefreshDistinctIffFresh | provider.go:619-625 | a successful refresh leaves one session per token exactly when its new token was unused or its own |
| Store.RefreshOntoUsedToken | provider.go:619-625 | an input for which a refresh stores a token twice |
| Store.InsertSameLiveIff | provider.go:319-327 | eviction at the cap takes from the list what it takes from its live part exactly when it does not evict a live session while a dead one stays |
| Store.SortedEvictsInTurn | provider.go:319-324 | on a list sorted by refresh deadline that never happens |
| Store.OutOfTurnSeen | provider.go:319-324 | when it happens, a live session is gone that the store of live sessions still finds |
| Store.StepSameIff | provider.go:293-627 | one call answers the same on the lazy list and on its live part; it leaves the same live part exactly when it does not evict out of turn |
| Store.EvictionVictim | provider.go:320-324 | a live session is evicted only from a list of maxSize live ones, and only the one at the front |
| Store.RefreshRotates | provider.go:619-625 | refresh conserves the number of sessions, the id and the data, ends the old token and renews both deadlines |
| Runs.RunOrdered | provider.go:174-627 | every state a timed run reaches is distinct, sorted and within the cap |
| Runs.RunKept | provider.go:174-627 | every state a run reaches has distinct tokens and is within the cap, whatever order stamps are taken in |
| Runs.RunSameIff | provider.go:174-627 | from any two stores with the same live part: same live part after every event exactly when no Create evicts out of turn, and then the same replies |
| Runs.LazinessInvisible | provider.go:174-627 | whatever is cleaned and whenever, and whatever order stamps are taken in, every reply of a run is that of the store of live sessions, and the live parts stay the same, exactly as long as no Create evicts out of turn |
| Runs.UncappedInTurn | provider_option.go:7-13 | without a cap no Create ever does |
| Runs.TimedInTurn | provider.go:305-327 | with stamps in list order none does |
| Runs.CapShows | provider.go:305-327 | a run of overlapping Creates at a cap in which a client can tell |
| Runs.NeverReissuedIsFresh | provider.go:587-627 | a run whose refreshes never reuse an access token handed out before has clean refreshes, however it is cleaned |
| Runs.BackendsAgree | provider/bolt/provider.go:278-808 | two back ends that get the same calls give the same replies, however differently they clean, if neither evicts out of turn |
| Runs.RefreshOnce | provider.go:604-625 | a token pair refreshes once: afterwards it fails until a call issues that pair again |
| Laws.RefreshRejected | provider.go:588-595 | a Refresh passes the tests before the lock exactly when all four tokens have two dots and one id; otherwise the first that fails decides the error |
| Laws.CreateRejected | provider.go:297-304 | a Create passes exactly when both its tokens have two dots |
| Laws.OtherRejected | provider.go:358-570 | Destroy and Close always pass, the calls about one token exactly when it has two dots |
| Laws.NothingDone | provider.go:306-316 | refused calls and calls on a closed store change nothing; Close closes; a record dead at its test is not stored |
| Laws.AnswersStored | provider.go:393-627 | what each call about a stored session answers, by its two deadlines, its refresh token and its data |
| Laws.AnswersUnknown | provider.go:393-627 | an unknown token does not exist, and nothing changes |
| Laws.FailureKeeps | provider.go:393-627 | reads and failures change nothing, but a writer removes a dead session it meets |
| Laws.DestroyAnswers | provider.go:348-390 | exactly the sessions of the id, or of the token, go |
| Laws.PostsIff | provider.go:403-424 | a reader posts its token exactly when the session stored under it is past its refresh deadline |
| Laws.Untouched | provider.go:293-627 | a call leaves alone every session it does not name, except the one a Create evicts |
| Laws.CreateThen | provider.go:293-627 | what every call about a session just created answers, by its stamp and the two durations |
| Laws.CreateThenCheck | provider.go:393-425 | a check of it: nothing wrong, then expired, then not existing |
| Laws.CreateThenGet | provider.go:293-329 | a session just created answers with its pairs, then as expired, then not at all, by exactly the two durations |
| Laws.PutThenGet | provider.go:447-506 | a get after a put answers the last value put for each key, or what the key held |
| Laws.DeleteThenGet | provider.go:548-570 | a get after a delete finds the deleted keys absent and the others as they were |
| Index.RemoveLinked | provider.go:330-347 | removing a session and its index entry together keeps list and index in agreement, with or without empty lists |
| Index.AppendLinkedIffUnused | provider.go:326-327 | appending a session keeps the agreement exactly when its token is not stored |
| Index.InsertLinked | provider.go:319-327 | Create's lock section keeps the agreement |
| Index.RefreshLinkedIffFresh | provider.go:619-625 | Refresh's lock section keeps the agreement exactly when the new token is unused or the one replaced |
| Index.ClearFirstLinked | provider.go:182-207 | rounds of the timer's loop keep the agreement and cut the front of the list |
| Index.DropIdLinked | provider.go:358-374 | destroying through the index removes exactly the sessions of the id, and looks up stored tokens only |
| Index.DropAllLinked | provider.go:260-270 | a batch of removals keeps the agreement |
| Slices.Append | provider.go:327 | append shows one element more, in place or in a larger array, and leaves the old elements |
| Slices.CloseGap | provider.go:340-341 | shifting down in place and truncating removes exactly position i |
| TokenValues.TokenValue.SetCopy | provider.go:73-81 | the stored value is a fresh copy, null exactly for a null argument |
| TokenValues.TokenValue.CopyKeys | provider.go:88-118 | one slot per key, with the stored value in a fresh array, or absent |
| TokenValues.TokenValue.Refresh | provider.go:65-71 | new tokens, both deadlines from one reading, data and id kept |
| TokenValues.SetPairs | provider.go:309-311 | the pairs in turn, each copied into a fresh array |
| TokenValues.DeleteKeys | provider.go:566-568 | exactly the listed keys are gone |
| MemoryProviders.MemoryProvider.constructor | provider.go:135-161 | an open store without sessions, its structures in step |
| MemoryProviders.MemoryProvider.RemoveFromIds | provider.go:332-344 | the token leaves its id's slice in place; an emptied slice is dropped or kept as the caller's code does |
| MemoryProviders.MemoryProvider.UnsafePop | provider.go:330-347 | the record leaves its id's slice and the list, and every other record is untouched |
| MemoryProviders.MemoryProvider.UnsafeDestroyByToken | provider.go:348-355 | the token's session leaves all three structures, which stay in step |
| MemoryProviders.MemoryProvider.AppendToIds | provider.go:327 | the token joins its id's slice, every other slice is untouched |
| MemoryProviders.MemoryProvider.CreateLocked | provider.go:313-328 | Create's lock section on list and index, for a record stamped at any earlier time |
| MemoryProviders.MemoryProvider.Create | provider.go:293-329 | takes the step of Create; structures stay in step; only fresh arrays are kept |
| MemoryProviders.MemoryProvider.Destroy | provider.go:358-374 | takes the step of Destroy; exactly the sessions filed under the id go |
| MemoryProviders.MemoryProvider.DestroyByToken | provider.go:377-390 | takes the step of DestroyByToken |
| MemoryProviders.MemoryProvider.Check | provider.go:393-425 | takes the step of Check; posts the token exactly when it found it dead |
| MemoryProviders.MemoryProvider.Get | provider.go:472-506 | takes the step of Get with fresh arrays; posts the token exactly when it found it dead |
| MemoryProviders.MemoryProvider.Keys | provider.go:509-545 | takes the step of Keys, each key once; posts the token exactly when it found it dead |
| MemoryProviders.MemoryProvider.UnsafeGet | provider.go:427-444 | the writer's lookup: its error, and the removal of a dead session on the way |
| MemoryProviders.MemoryProvider.Put | provider.go:447-469 | takes the step of Put; only fresh arrays are kept |
| MemoryProviders.MemoryProvider.Delete | provider.go:548-570 | takes the step of Delete |
| MemoryProviders.MemoryProvider.Refresh | provider.go:587-627 | takes the step of Refresh in list, index and token map, whatever the target; the three stay in step exactly when the target was clean |
| MemoryProviders.MemoryProvider.Close | provider.go:630-647 | empties the store once; every later call fails |
| MemoryProviders.MemoryProvider.ClearRound | provider.go:186-203 | one round of the timer in list, slice and token map, whether these are in step or not |
| MemoryProviders.MemoryProvider.RefreshThenClear | provider.go:193-203 | after a refresh onto the token of a dead session at the front, the timer's round leaves the refreshed session listed and filed, but found by no call |
| MemoryProviders.MemoryProvider.UnsafeClear | provider.go:174-208 | terminates; drops dead sessions from the front up to one not dead at the last reading; on a sorted list exactly the live ones remain |
| MemoryProviders.MemoryProvider.UnsafeCheck | provider.go:249-272 | removes only batch tokens dead at the last reading, and every one dead at the first |
| MemoryProviders.MemoryProvider.CallerCannotReach | provider.go:73-118 | no write to memory the provider does not own changes what is stored |
| BoltBuckets.DropAgrees | provider/bolt/provider.go:343-372 | deleting a session keeps the buckets in agreement, and decrement stays off its floor |
| BoltBuckets.AddAgrees | provider/bolt/provider.go:318-337 | storing a session under the next sequence number keeps them in agreement |
| BoltBuckets.SetDataAgrees | provider/bolt/provider.go:588-592 | replacing one session's data keeps them in agreement |
| BoltBuckets.MovedIff | provider/bolt/provider.go:766-798 | what a refresh leaves in the buckets: in step exactly when the target was clean; otherwise the token filed twice, one record fewer than counted, and the two sessions' data merged |
| BoltBuckets.CursorFollowsList | provider/bolt/provider.go:441-457 | the lru cursor meets the sessions in the order their sequence numbers were issued |
| BoltProviders.RefusesIff | provider/bolt/metadata.go:116-159 | bolt differs from the common step exactly in refusing to store under an empty id or with an empty data key, and a refusal changes nothing |
| BoltProviders.Provider.constructor | provider/bolt/provider.go:36-94 | an open store over empty buckets |
| BoltProviders.Provider.DeleteIds | provider/bolt/metadata.go:82-115 | the list without its first such token, the entry gone with its last one |
| BoltProviders.Provider.AppendIds | provider/bolt/metadata.go:116-138 | the token at the end of the id's list, or a refusal of the empty id |
| BoltProviders.Provider.PutData | provider/bolt/metadata.go:147-159 | the pairs put in turn into the token's bucket, or a refusal of an empty key |
| BoltProviders.Provider.GetPairs | provider/bolt/metadata.go:191-204 | pairs that rebuild the token's bucket |
| BoltProviders.Provider.DeleteKeys | provider/bolt/metadata.go:206-218 | exactly the listed keys leave the token's bucket |
| BoltProviders.Provider.DeleteEntry | provider/bolt/provider.go:343-372 | one token leaves every bucket and the count |
| BoltProviders.Provider.DestroyToken | provider/bolt/provider.go:405-415 | a stored token goes without an error, an unknown one changes nothing; buckets stay in agreement |
| BoltProviders.Provider.UnsafePop | provider/bolt/provider.go:441-470 | the session created or refreshed longest ago goes |
| BoltProviders.Provider.WriteEntry | provider/bolt/provider.go:318-337 | record, key, data, id and count in the buckets, over whatever the token holds already; an empty id or key is refused |
| BoltProviders.Provider.StoreEntry | provider/bolt/provider.go:318-337 | the same for a session at the end; buckets stay in agreement exactly when its token was not stored |
| BoltProviders.Provider.CreateTx | provider/bolt/provider.go:300-339 | replace, evict at the cap, store |
| BoltProviders.Provider.Create | provider/bolt/provider.go:278-341 | takes the step of Create; refuses an empty id or key exactly when that step would store, and changes nothing |
| BoltProviders.Provider.DeleteTokens | provider/bolt/provider.go:373-404 | every listed token leaves, without an error |
| BoltProviders.Provider.UnsafeDestroy | provider/bolt/provider.go:420-440 | exactly the sessions of the id go |
| BoltProviders.Provider.Destroy | provider/bolt/provider.go:473-489 | takes the step of Destroy |
| BoltProviders.Provider.DestroyByToken | provider/bolt/provider.go:492-512 | takes the step of DestroyByToken |
| BoltProviders.Provider.UnsafeCheck | provider/bolt/provider.go:514-527 | the reader's test, refresh deadline first |
| BoltProviders.Provider.Check | provider/bolt/provider.go:530-554 | takes the step of Check; posts the token exactly when it found it dead |
| BoltProviders.Provider.Get | provider/bolt/provider.go:605-634 | takes the step of Get |
| BoltProviders.Provider.GetData | provider/bolt/metadata.go:160-179 | one value per key, absent where the bucket has none |
| BoltProviders.Provider.Keys | provider/bolt/provider.go:637-666 | takes the step of Keys |
| BoltProviders.Provider.GetKeys | provider/bolt/metadata.go:180-190 | each key of the token's bucket once |
| BoltProviders.Provider.Put | provider/bolt/provider.go:557-602 | takes the step of Put; refuses an empty key exactly when that step would store, and changes nothing |
| BoltProviders.Provider.Delete | provider/bolt/provider.go:669-714 | takes the step of Delete |
| BoltProviders.Provider.MoveTx | provider/bolt/provider.go:767-798 | the old entry out and the renewed one in, as the buckets show it for every target; in agreement exactly when the target was clean |
| BoltProviders.Provider.Refresh | provider/bolt/provider.go:731-808 | the reply of the step of Refresh, always; the buckets take the step exactly when the target was clean, and are otherwise what MovedIff says |
| BoltProviders.Provider.ClearTx | provider/bolt/provider.go:160-190 | dead sessions go from the front, up to one not dead at the last reading, without an error |
| BoltProviders.Provider.DoClear | provider/bolt/provider.go:160-190 | one cleaning step; on a sorted list exactly the live sessions remain |
| BoltProviders.Provider.Close | provider/bolt/provider.go:811-828 | closes once; every later call fails |
| BoltProviders.Provider.Clear | provider/bolt/provider.go:851-888 | on an open store: every bucket empty, the key sequence kept |
| Workers.StepInvIff | provider.go:162-290 | a step keeps index, cap, the bound max(batch, 1) of the worker's set and every posted token exactly when it is not a Refresh that succeeds onto a token stored for another session |
| Workers.StepCap | provider.go:319-324 | every step keeps the length within the cap, that Refresh included |
| Workers.RunInv | provider.go:162-290 | so in every state reached from the start without such a Refresh: list, channel and worker's set within their bounds, no posted token lost |
| Workers.BackgroundKeepsLive | provider.go:162-290 | in a state with its structures in step, no step of worker, timer or readers removes, adds or changes a live session, whatever order stamps were taken in |
| Workers.BackgroundRunKeeps | provider.go:162-290 | through any run of worker, timer and readers a session live at its end stays stored |
| Workers.RecreatedKept | provider.go:249-272 | over a run: a token found dead and posted, then created again, is still stored after the worker's batches, for as long as the new session lives |
| Workers.BatchRemovesDead | provider.go:249-272 | a batch removes every session of its set that was dead when it took the lock |
| Workers.PostedNotLost | provider.go:209-290 | a posted token is in the channel, in the worker's set, or handled |
| Workers.InsertSortedIff | provider.go:305-327 | a stamped record keeps the list sorted exactly when no later deadline is at the end already |
| Workers.OverlapUnsorted | provider.go:305-327 | a run from the empty store in which overlapping Creates unsort the list |
| Histories.IsRun | provider.go:162-647 | what the concurrent system has stored after clean refreshes is what its history, a run of the lazy store with lock sections in order of time, has stored |
| Histories.ConcurrentSeesLive | provider.go:162-647 | so the replies of overlapping calls, all of which are in the history, are those of the store of live sessions, without a cap always, under one as long as no Create evicts out of turn |
| Clashes.SafeIff | provider.go:174-207 | no pass of the timer takes a live session exactly when no other session holds the last one's token where the timer comes by while the last one lives |
| Clashes.RefreshSafeIff | provider.go:619-625 | for what a refresh leaves; a clean target among all stored sessions suffices |
| Clashes.RefreshSafeIffFresh | provider.go:619-625 | on a list in order of deadlines that is exactly when the target was clean |
| Clashes.DeadTargetUnsafe | provider.go:619-625 | a token free among live sessions but stored under a dead one is not enough |
| Clashes.TimerTakesLive | provider.go:193-203 | a run from the empty store in which the timer takes a refreshed, live session |
| SessionCaches.EncodedEach | session.go:71-82 | encoding gives the pairs in order, or an error exactly when one does not encode |
| SessionCaches.EncodedReadsBack | session.go:71-82 | reading a key of the stored encoding gives the last value given for it, when decoding undoes encoding |
| SessionCaches.CachedLast | session.go:86-98 | after a put the cache holds the last value given for each key, and all else it held |
| SessionCaches.PutAgrees | session.go:83-98 | the same pairs put to cache and store keep them in agreement |
| SessionCaches.FetchedAgrees | session.go:134-143 | filling the cache from the store keeps them in agreement, repeated keys included, and leaves other entries alone |
| SessionCaches.Session.Put | session.go:66-100 | the encoded pairs are stored by the step of Put and then cached; when there is nothing to send or the call fails the cache is unchanged; the cache keeps agreeing with the store |
| SessionCaches.Session.Prepare | session.go:108-144 | the keys not cached are fetched by one step of Get and cached, absent ones included; its error is the call's error and leaves the cache unchanged |
| SessionCaches.Session.Get | session.go:154-213 | the cached value, or the one a step of Get returns, decoded; an agreeing cache answers the stored value, and that a key does not exist exactly when the store has none |
| SessionCaches.Session.Delete | session.go:216-218 | takes the step of Delete under the token given; agreement survives exactly when it fails, names another token, or deletes nothing cached as present |
| SessionCaches.DeleteAgreesIff | session.go:216-218 | the same as a law of the store's step |
| SessionCaches.StaleAfterDelete | session.go:216-218 | a call on a live session after which the cache disagrees |
| Managers.CreatedToken | token.go:55-67 | a created token is id, session id and the digest of both, the last two in base64url |
| Managers.CreatedApart | token.go:55-67 | two created tokens are the same exactly when id and session id are |
| Managers.CreatedIsGenuine | token.go:55-67 | what createToken signs is what verification cuts out; the id comes back exactly when it holds no dot |
| Managers.GenuineIff | manager.go:94-104 | a token is accepted exactly when what follows its last dot is a good signature for what precedes it, which has a dot of its own; otherwise it is invalid, or the answer is what is wrong with the signature |
| Managers.GenuinePairIff | manager.go:108-130 | a pair is accepted exactly when both tokens verify and have one id |
| Managers.PairIsGenuine | token.go:44-67 | CreateToken succeeds exactly when the method is available, and its two tokens pass Refresh's tests and differ exactly when their session ids do |
| Managers.TokenOfUser | manager.go:47-52 | a user's tokens carry the user's encoded id and no other user's |
| Managers.LocalManager.Create | manager.go:47-81 | two genuine tokens of the user's id and the encoded pairs go to the provider in one step of Create, whose error is the answer; without a signature or an encoding nothing is sent |
| Managers.LocalManager.CreateThenGet | manager.go:47-81 | the session Create returned reads back, for each key, the last value given for it, until its access deadline |
| Managers.LocalManager.Get | manager.go:94-106 | a session exactly for a token that verifies, and otherwise the error of its shape or signature |
| Managers.LocalManager.Destroy | manager.go:84-86 | no token of the user is stored any more, and every other user's session is as it was |
| Managers.LocalManager.DestroyByToken | manager.go:89-91 | exactly the session of the token goes; the error is that of a malformed token or a closed store |
| Managers.LocalManager.Refresh | manager.go:108-136 | only two tokens that verify and have one id are sent on, in one step of Refresh onto two new genuine tokens of that id, whose error is the answer; list and token map show it for every target, and stay in step exactly when the target was clean |
| Drivers.DriveMemory | provider.go:174-647 | requests served one after the other by the memory provider are a run of the lazy store with clock readings and stamps in order, replies included |
| Drivers.DriveBolt | provider/bolt/provider.go:160-828 | the same for bolt, for non-empty ids and data keys |
| Drivers.DrivenSeesLive | provider.go:174-647 | the replies of such a run are those of the store of live sessions |
| Drivers.SameRunSame | provider.go:393-627 | instants at which a call read no clock do not matter |
| Drivers.DriveBoth | provider/bolt/provider.go:278-808 | both providers, cleaning at different times, answer the same calls alike if the readings they made fit one timeline |

## Left out

- The redis provider: its semantics are those of an external server.
- Hash functions and the signing-method registry: the keyed digest is a parameter; a key is always bytes.
- gob, JSON and XML: a coder is a pair of partial functions; stored metadata and id lists decode to what was encoded.
- UUID and random generation, and `cryptoer.SessionID`: session ids are parameters, their uniqueness a premise.
- Bolt's file format, page layout, key and value size limits, and opening or closing the file. A bucket is a map, a cursor walks a snapshot in byte order, an empty stored value reads back as present.
- Locks and tickers as implementations: a lock section is atomic. No liveness or fairness.
- Option builders, contexts, and the order in which goroutines wake.
- BoltProviders.Provider.Create: requires a sequence number below 2^64 - 1, where NextSequence would wrap around; so do CreateTx, WriteEntry, StoreEntry, MoveTx, PutLru and Refresh.
- BoltProviders.Provider.Keys: states the keys as a set, not their byte order.
- BoltProviders.Provider.Get: returns values, not slices of a mapped page whose transaction has ended.
- BoltProviders.Provider.Clear: stated on an open store; on a closed one the code returns with the lock held.
- BoltProviders.Provider.DoCheck: the bolt worker's batch is modelled as the no-op it is.
- Clashes.TimerTakesLive: the table of the concurrent system holds the sessions a call can find; the record the timer leaves behind in the list is shown by `RefreshThenClear` only.
- SessionCaches.Session.Get: works on bytes; the kind checks and the remembered decoded value of the reflection layer are not modelled.
- SessionCaches.Session.Put: agreement is with the session the store holds for the token now; another writer of the same session would break it.
- Drivers.DriveMemory: one client at a time, so stamps are in list order; overlapping calls are the subject of `Histories`.
- Drivers.DriveBolt: requires non-empty ids and data keys and room in the key sequence; what bolt does with an empty one is `BoltStep`.
- Session.Check, Keys and Destroy, and the manager's option plumbing: thin calls.
