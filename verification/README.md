# Verified model of the DHT core

This project models the parts of the DHT whose correctness is decided by its own code, and proves what they
promise. `dafny verify dfyconfig.toml` checks everything.

## What is modelled

**The k-bucket routing table** (`kbucket/`, the table of section 2.4 of the Kademlia paper). `KeySpace.dfy` has
keys as 256-bit strings with XOR, zero prefix and order; `ByteKeys.dfy` proves that the byte-wise operations of
the code are those. `Table.dfy` says what each operation does to the lists of entries, the diversity filter and
the callback events; `TableLaws.dfy` proves what every operation and every run keeps, `TableHistory.dfy` what the
entries record over a run and which of them stay, `TableOrder.dfy` the order inside the buckets. `Bucket.dfy`,
`Sorting.dfy` and `RoutingTable.dfy` hold the objects that change in place, each method proved against those
functions. `Nearest.dfy` defines "the n closest" on its own, without buckets, and a brute-force ranking to compare
with. `ModeFilter.dfy` says what the optional mode filter does. `KeyGen.dfy` has exact-depth key generation and the
refresh times. `Integers.dfy` and `Wrappers.dfy` hold Go's fixed widths, powers of two and the option type.

**The iterative lookup** (`query.go`, `qpeerset/`, section 2.3 of the same paper). `Lookup.dfy` is a step machine:
a worker finishes, the coordinator consumes an update, sees a cancellation, checks for termination or spawns, the
context is cancelled; a run is any interleaving. `LookupLaws.dfy` proves one inductive invariant and what follows
from it; `LookupHistory.dfy` derives every state of a run from the run's events alone, and says how a lookup ends and
what it has found in those terms. `QPeerset.dfy`, `Query.dfy` and `LookupResult.dfy` hold the mutable peer set, the
query object and the result and follow-up phases; every method of the query object is proved to be steps of the
machine. `ValuablePeers.dfy` is what a lookup records in the routing table.

**The provider manager** (`providers/`). `Providers.dfy` is the event loop as a step machine over cache, datastore
and a running collection; `ProviderLaws.dfy` proves that cache and datastore agree in every interleaving;
`ProviderHistory.dfy` proves what the events of a run make of each record; `ProviderManager.dfy` is the mutable form.

**The wire codec** (`pb/dht.pb.go`). `Varint.dfy` and `Wire.dfy` define the format at a read position, with Go's
fixed-width integers written out; `WireIO.dfy` has the back-to-front writers and the hand-unrolled read loops;
`Messages.dfy` defines the three messages; `MessageLaws.dfy` proves the round trips; `Codec.dfy` has Size, Marshal
and Unmarshal over arrays and indices. `WireFormat.dfy` is the same format as a grammar of nested fields that knows no
parser, and proves that what is skipped is exactly a field of it; `MessageFormat.dfy` says what each field does to a
message, and proves that the parsers accept exactly lists of fields and do that.

**The network size estimator** (`netsize/`). `NetSize.dfy` has the measurement windows and the weight's exponent.

## Assumptions

`bucketSize >= 1` and `alpha >= 1`; counts are not negative. Clock readings, latencies, random bytes, the answers
of peers, the stop function and each answer of the diversity filter are parameters. A peer carries its SHA-256 digest
as a field; two peers may share one, and results that need collision freedom say so with `Injective`. Nothing assumes that no
peer hashes to the local key: unfolding stops anyway once the last bucket's index reaches the key length. Clocks do
not run backwards. Datastore operations succeed, and a prefix query lists exactly the records of its key. Slices are
shorter than 2^63 bytes.

## Findings

- `GenRandomKey` compares `int(targetCpl+1)` with the key length. A request whose successor does not fit a signed
  64-bit integer passes this check and then indexes beyond the key: `KeyGen.AcceptedBeyondTheKey` gives such a
  request for every key length, and an accepted request yields a key of exactly the requested depth if and only if
  `targetCpl + 1 < 2^63` (`KeyGen.GenRandomKey`). The check also refuses the depth one below the key length, which
  a key could have (`KeyGen.AcceptedOfTheKey`).
- Marshalling does not look at the unknown bytes it copies. A message survives the round trip if and only if those
  bytes, nested ones included, are whole fields that the message does not know; every message that came out of the
  parser has this form (`MessageLaws.MessageRoundTrip`, `MessageLaws.ParsedSurvives`). `MessageLaws.LooseByteIsLost`
  is a peer that does not survive. `MessageFormat.MessageSurvives` says the same with fields as the grammar has them.
- `isReadyToTerminate` asked for no peers would return all that were heard of, since its cut is tested after
  counting. The model keeps this (`Lookup.Take`). In a run it is never asked for none
  (`LookupLaws.NeverAskedForNone`), so the alpha bound holds.
- `NearestPeers` with its optional mode filters on a field that `appendPeer` never fills: mode 0 filters out nobody,
  any other mode everybody (`RoutingTables.RoutingTable.NearestPeersOfMode`). So the answer holds the nearest peers of
  the mode asked for, whatever the target and the count, if and only if every peer of the table is recorded with mode
  0 when 0 is asked for, and none with the mode asked for when that is another (`ModeFilters.FilterIsRightExactly`).
  `ModeFilters.FilterLosesPeer` is a table, reached by one insertion, on which it fails.
- `recordValuablePeers` means to record the fastest seed and those within twice its time, but compares with a strict
  less-than and doubles in 64 bits. The fastest seed itself is recorded if and only if its duration is above zero and
  below 2^62 nanoseconds (`ValuablePeers.FastestIsValuable`); a seed that answers within one tick of the clock is not
  (`ValuablePeers.ZeroIsNotValuable`).

## Model

The main results come first, then what they rest on and the mutable forms.

| member | source | states |
|---|---|---|
| RoutingTables.RoutingTable.NearestPeers | kbucket/table.go:438-501 | the answer is the count closest of all peers of the table; without collisions it is the brute-force ranking cut at count |
| RoutingTables.RoutingTable.Find | kbucket/table.go:407-418 | a peer is found if and only if it is in the table, unless digests collide |
| TableLaws.UsefulNewPeerPredicts | kbucket/table.go:101-142 | the read-only check is true if and only if an insertion passing the latency and diversity checks reports newly added, across the room, unfolding and replacement paths |
| TableLaws.RunKeeps | kbucket/table.go:159-404 | over every run, whatever the diversity filter answers each time: shape, no peer twice, no bucket over the bucket size, and filter and replayed events equal to the table's membership |
| TableLaws.ApplyKeeps | kbucket/table.go:159-404 | each operation keeps shape and the agreement of buckets, filter and events, and changes membership only by the peer added and the one removed |
| TableHistory.EntryIsItsLife | kbucket/table.go:159-343 | in every run each entry is what the insertion that added its peer wrote, changed by what was recorded of that peer since: its first use, later uses, answers, and the freezing of the table; and the peer has been in the table all that time |
| TableHistory.ReplaceableThenNewcomer | kbucket/table.go:251-277 | after a peer that may be replaced was newly added, any newcomer of its depth that passes latency and filter is newly added too, however full the bucket is |
| TableHistory.IrreplaceableStays | kbucket/table.go:159-386 | in every run a peer that may not be replaced stays in the table, and stays so, for as long as nobody removes it |
| TableOrder.OldestMakesWay | kbucket/table.go:251-277 | in every run in which the clock does not go back, the entry displaced by a newcomer was added no later than any other of the newcomer's bucket that may be replaced |
| RoutingTables.RoutingTable.GuardedAreMembers | dht.go:656-673 | on every valid table the protected and the tagged peers together are exactly the peers of the table, and none is both |
| Table.NextBucketKeeps | kbucket/table.go:389-404 | unfolding terminates, adds buckets, keeps shape and every entry, leaves earlier buckets alone and the last one strictly below the bucket size |
| TableLaws.RemovePeerKeeps | kbucket/table.go:356-386 | a removal removes that peer alone, keeps shape and the agreement of buckets, filter and callbacks, and leaves the last two buckets non-empty |
| TableLaws.NPeersForCplCounts | kbucket/table.go:78-97 | reading one bucket counts the peers of that depth in the whole table, never more than the bucket size |
| NetSize.CalcWeightExponent | netsize/netsize.go:232-252 | the exponent is the number of the table's peers at the key's depth, or of the answer's there where those are more and the table's are fewer than the bucket size, minus the bucket size; never positive when table and estimator share a bucket size |
| LookupLaws.NeverBlockedNeverPanics | query.go:231-275 | in every run no panic is reached, at most alpha queries are outstanding, and every live worker finds room in the channel, also after the loop stopped reading |
| LookupHistory.EventsTell | query.go:347-599 | in every run the state is what the events tell: queried are exactly those whose answer was read, unreachable those whose failure was read, waiting those started and neither; known are exactly those that the seeds and the answers read have named; and each answer's duration is recorded |
| LookupHistory.CompletedFindsClosest | query.go:515-526 | after LookupCompleted, in terms of the workers' answers and failures that were read: there are the beta closest of all peers that the seeds or an answer named and that did not fail, distinct, and all of them have answered; and everybody who was named has failed, is among them, or is no closer than any of them |
| LookupHistory.StarvedQueriedAll | query.go:530-533 | after LookupStarvation everybody whom the seeds or an answer named has answered or failed |
| LookupHistory.CheckDecides | query.go:439-469 | in every run a check not told to stop ends the lookup by starvation exactly if nobody is heard or waiting, and else by completion exactly if the closest peers that are not unreachable are all queried; otherwise it goes on |
| LookupHistory.StopReturns | query.go:439-443 | in every run a check told to stop returns and starts nobody, and its reason counts unless there was one before |
| LookupHistory.KeepsAlphaBusy | query.go:255-274 | in every run, while the loop waits for workers, alpha peers are waiting or nobody is left that is merely heard of |
| LookupLaws.EndIsReportedComplete | query.go:301-310 | a run that ended by starvation, or by completion when no digests collide, passes the test with which the result is marked completed |
| LookupLaws.WaitingMeansWorking | query.go:245-253 | while the loop waits with nothing to read, a worker is live |
| LookupLaws.QueriedAtMostOnce | query.go:472-502 | no peer is queried twice, and those queried are exactly those no longer merely heard of |
| LookupLaws.IterationsBounded | query.go:245-274 | over a universe U of named peers the loop runs at most \|U\| + 2 times |
| LookupLaws.RunsAreFinite | query.go:231-275 | over a universe U of named peers a run has at most 5\|U\| + 7 steps besides cancellations |
| LookupLaws.OnlyTheEndIsStuck | query.go:231-275 | a run can be stuck only where the loop has returned and no worker is live |
| LookupHistory.FirstReasonCounts | query.go:411-436 | once a run is terminated its reason never changes |
| LookupHistory.CancellationReturns | query.go:251-268 | seeing the cancelled context makes cancellation the reason and changes no peer's state |
| LookupHistory.CancelledBy | query.go:411-436 | in every run the context is cancelled exactly from the caller's cancellation or the end of the query on |
| LookupHistory.ReturnedForGood | query.go:242-275 | once the loop has returned nobody is started and no peer's state changes, whatever workers still send |
| LookupResults.ConstructLookupResult | query.go:301-344 | the k closest peers not unreachable in distance order, each with its own state, the k closest of all, and completed exactly if the beta closest are all queried or nobody is heard or waiting |
| LookupResults.RunFollowup | query.go:84-170 | on every exit path as many signals are read as queries were started, and when completeness is lost |
| ProviderLaws.RunKeeps | providers/providers_manager.go:149-214 | in every interleaving of adds, gets, evictions and a running collection, each cached set has list and times in step and equals the datastore's records of its key |
| ProviderHistory.AddedStays | providers/providers_manager.go:149-264 | in every run, after an add at time t the record is there with that time, whatever follows, for as long as gets of its key and ticks of collections are within the validity period of t and nobody adds it again |
| ProviderHistory.AddedIsNamed | providers/providers_manager.go:298-323 | and a get of its key in that period names the provider |
| ProviderHistory.RecordIsLatest | providers/providers_manager.go:149-264 | in every run a record holds the time of its latest add, or what the datastore held at first if it was never added |
| ProviderHistory.CollectsExactly | providers/providers_manager.go:167-211 | in every run a record that a collection has delivered stays if and only if it was added since the tick that started the collection or is, as it stands, within the validity period of that tick; and no other record is touched |
| ProviderLaws.GcSparesFresh | providers/providers_manager.go:183-197 | in every run the collection leaves alone a record whose current time is within the validity period of its start |
| ProviderLaws.GetSparesFresh | providers/providers_manager.go:298-376 | in every run a get leaves every live record as it is, of whatever key, and names the provider of every live record of its own key |
| ProviderLaws.GetAnswersStore | providers/providers_manager.go:298-323 | in every run a get answers with each provider the datastore then holds for the key, once |
| ProviderLaws.DeliveredIsSettled | providers/providers_manager.go:183-197 | a record the collection has delivered stays gone, newly added or within the period until the collection ends |
| MessageLaws.MessageRoundTrip | pb/dht.pb.go:377-971 | unmarshalling a marshalled message, with its nested record, peers and closest peers, gives the same message if and only if all its unknown bytes are whole unknown fields |
| MessageLaws.ParsedSurvives | pb/dht.pb.go:377-971 | whatever parses survives being written and parsed again |
| MessageFormat.MessageUnmarshalMeans | pb/dht.pb.go:675-971 | unmarshalling gives a message if and only if the input is a list of fields of the grammar, and then the message that those fields, one after the other, make of the one it starts from |
| MessageFormat.MessageSurvives | pb/dht.pb.go:377-971 | a message survives being marshalled and unmarshalled if and only if its unknown bytes, and those of every nested peer, are the bytes of fields of numbers it does not know, in the sense of the grammar |
| WireFormat.SkipMeans | pb/dht.pb.go:1211-1288 | a skip stays inside the input if and only if the input starts with a field of the grammar, groups nested to any depth, and then it goes exactly over that field |
| WireFormat.UnknownFieldsAre | pb/dht.pb.go:1211-1288 | what a parser keeps as unknown is exactly the bytes of a list of fields of unknown numbers |
| Codec.MessageMarshal | pb/dht.pb.go:377-385 | the buffer of the computed size is exactly filled |
| Codec.MessageUnmarshal | pb/dht.pb.go:675-971 | on any bytes the parser terminates, stays inside the input, and computes the format's message or error |
| WireIO.SkipDht | pb/dht.pb.go:1211-1288 | the loop goes exactly over the field of the grammar that stands first, groups nested, and stays inside the input only over such a field; every success is progress |
| Varint.SovIsLength | pb/dht.pb.go:570-671 | the computed size of a varint is the number of bytes written, for every number |
| KeyGen.GenRandomKey | kbucket/table_refresh.go:80-108 | exactly when a request is rejected, panics or yields a key; the key's common prefix with the local key is exactly targetCpl and every bit after the flipped one is the random one |
| KeyGen.GenRandPeerPrefix | kbucket/table_refresh.go:49-68 | depths beyond the tracked ones are refused; for every other depth and random fill all keys under the prefix looked up have exactly that depth, and the later bits are the random ones |
| NetSize.Estimator.Track | netsize/netsize.go:80-141 | rank i's history gains the integer XOR distance of the i-th peer to the key with the weight's exponent and the time, its window is the newest young part of that history, and the cached estimate is dropped; a wrong number of peers changes nothing |
| ByteKeys.DistanceOrdersAgree | qpeerset/qpeerset.go:52-78 | ordering peers by comparing XORs as bytes and by comparing them as big integers is the same order |
| Nearest.NearestMeans | kbucket/table.go:438-501 | a nearest list, defined by repeated choice of a closest member, has min(n, pool) distinct members in distance order and nobody left out is closer than anybody listed |
| Nearest.RankingPrefixIsNearest | kbucket/table.go:438-501 | every prefix of the brute-force ranking of the whole pool is a nearest list |
| Nearest.NearestIsRankingPrefix | kbucket/table.go:438-501 | where distances separate, the nearest list is unique: it is that prefix |
| Nearest.SortedPrefixIsNearest | kbucket/table.go:479-484 | sorting only part of the pool and cutting is exact when what was not sorted is no closer than what was |
| Nearest.Sort | kbucket/sorting.go:52-54 | the sorted list is a permutation in non-decreasing distance |
| KeySpace.LessIsIntegerOrder | kbucket/util.go:24-31 | lexicographic order of equal-length keys is the order of the integers they denote |
| KeySpace.PrefixTriangle | kbucket/table.go:438-449 | two keys seen from the local one: unequal prefix lengths give the shorter one between them, equal ones strictly more |
| KeySpace.LongerPrefixIsCloser | kbucket/util.go:56-70 | sharing a longer prefix with the target is being strictly closer to it |
| KeySpace.NearestIsBruteForce | kbucket/table.go:438-501 | without collisions a nearest list equals the brute-force ranking of the whole pool cut at n |
| ByteKeys.ZeroPrefixLenBytesIs | kbucket/keyspace/xor.go:53-60 | counting zero bytes and then leading zeros of a byte counts the zero bits in front |
| ByteKeys.CompareLessIsLess | kbucket/util.go:24-31 | the byte-wise comparison is the bit-wise lexicographic order |
| KeyGen.AcceptedBeyondTheKey | kbucket/table_refresh.go:80-84 | for every key length the check accepts the depth 2^63, which lies beyond the key |
| KeyGen.AcceptedWithinTheKey | kbucket/table_refresh.go:80-97 | an accepted depth lies within the key if and only if its successor is below 2^63 |
| KeyGen.AcceptedOfTheKey | kbucket/table_refresh.go:80-84 | of the depths within the key the check accepts exactly all but the last |
| KeyGen.MixByteIs | kbucket/table_refresh.go:95-105 | of the byte in which the prefix ends, the first bits are the local key's, the next is not, and all others are the random ones |
| KeyGen.KeysUnderTargetPrefix | kbucket/table_refresh.go:54-73 | any key that starts with the prefix looked up shares exactly targetCpl bits with the local key |
| KeyGen.RefreshTimes.GetTrackedCplsForRefresh | kbucket/table_refresh.go:20-38 | one time per depth up to that of the table's deepest peer or the limit, zero where never refreshed |
| Table.SplitIsPartition | kbucket/bucket.go:129-147 | splitting partitions the entries by depth and loses none |
| Table.SplitKeepsShape | kbucket/bucket.go:129-147 | splitting the last bucket leaves one of exactly its depth and one of at least the next, without duplicates |
| TableLaws.Located | kbucket/table.go:564-575 | a peer is in the table if and only if it is in the bucket of its depth |
| TableLaws.CollapseKeeps | kbucket/table.go:365-382 | dropping empty tail buckets keeps shape and contents and ends with one bucket or two non-empty last ones |
| TableLaws.UnfoldingMakesRoom | kbucket/table.go:226-249 | unfolding a full last bucket makes room for a newcomer if and only if some entry there has another depth; otherwise the newcomer's bucket is the old one |
| TableLaws.SwapKeeps | kbucket/table.go:257-277 | pushing the newcomer into a full bucket and then removing the victim swaps the two entries and never empties the bucket |
| TableLaws.AddPeerKeeps | kbucket/table.go:173-284 | the verdict on a new peer is decided by latency, filter and UsefulNewPeer in that order, contents change by the new entry and the displaced one, and everything still agrees |
| TableHistory.NewEntryRecords | kbucket/table.go:207-277 | the entry of a newly added peer, field by field: mode, replaceability and hashed identifier as asked for, last use now only for a peer that was queried, both other times now; all other entries are old ones, and at most one is gone, which could be replaced |
| TableHistory.VerdictMeans | kbucket/table.go:173-284 | the verdict, spelled out on the buckets: present, too slow, filtered, or newly added exactly if the bucket of that depth has room, holds a replaceable entry, or is the last one and holds another depth |
| TableHistory.IrreplaceableThenNewcomer | kbucket/table.go:251-284 | a newly added peer that may not be replaced is still there after any further insertion |
| TableLaws.KnownPeerOnlyTouched | kbucket/table.go:186-193 | adding a known peer reports it as present and at most sets its first time of use |
| TableLaws.DisplacedIs | kbucket/table.go:251-277 | at most one entry is displaced; it could be replaced and shared the newcomer's bucket |
| TableLaws.UpdateEntryKeeps | kbucket/table.go:315-343 | an update finds its peer if and only if it is in the table, replaces that entry by the updated one, and changes nothing else |
| TableLaws.MarkAllKeeps | kbucket/table.go:289-299 | marking changes every entry's replaceable flag and nothing else |
| TableLaws.LastNonEmptyIsDeepest | kbucket/table.go:578-593 | the deepest entry of the last non-empty bucket is the deepest of the whole table |
| TableLaws.BucketBeatsBucket | kbucket/table.go:438-475 | everybody in the target's bucket is strictly closer to the target than anybody elsewhere, and before it deeper buckets beat shallower ones |
| TableLaws.CollectedLeads | kbucket/table.go:458-475 | nobody in an unread bucket is closer than anybody collected, wherever reading stopped |
| TableLaws.ReadEnough | kbucket/table.go:458-484 | so sorting what was collected and cutting at the count is exact for the whole table |
| Buckets.MinIndexIsLeast | kbucket/bucket.go:56-72 | under a comparison by a key the scan ends on an entry of the least key |
| Buckets.MinIndexIsVictim | kbucket/bucket.go:56-72 | the scan under "the first can be replaced" ends on a replaceable entry if there is one |
| Buckets.Bucket.Min | kbucket/bucket.go:56-72 | nothing for an empty bucket, else the entry on which the scan ends |
| Buckets.Bucket.Split | kbucket/bucket.go:129-147 | the list is cut in place into the entries up to the depth and a new bucket of the deeper ones, both in order |
| DistanceSorting.PermutationKeepsPeers | kbucket/sorting.go:27-34 | sorting lists each peer as often as before |
| DistanceSorting.PeerDistanceSorter.Sort | kbucket/sorting.go:52-54 | the same peers, each as often as before, in order of integer XOR distance |
| DistanceSorting.SortClosestPeers | kbucket/sorting.go:57-82 | the same peers, each as often as before, closest first |
| RoutingTables.ConnManager.PeerAdded | dht.go:656-665 | protected and tagged peers are those that replaying the events leaves in, split by depth |
| RoutingTables.ConnManager.PeerRemoved | dht.go:667-673 | after a removal the protected and tagged peers are still those that replaying the events leaves in |
| RoutingTables.RoutingTable.TryAddPeer | kbucket/table.go:159-284 | table, filter and events change as the verified insertion says, and the invariant is kept; a newly added peer's entry is given field by field, a known peer leaves membership alone, and a refused one changes no entry |
| RoutingTables.RoutingTable.RemovePeer | kbucket/table.go:348-386 | table, filter and events change as the verified removal says, and the invariant is kept |
| RoutingTables.RoutingTable.NextBucket | kbucket/table.go:389-404 | the recursive in-place unfolding terminates and computes the unfolded table |
| RoutingTables.RoutingTable.CollapseTail | kbucket/table.go:365-382 | the in-place loop computes the collapsed table |
| RoutingTables.RoutingTable.NearestPeersOfMode | kbucket/table.go:438-501 | with the optional mode: all of the nearest peers for mode 0, nobody for any other, as no collected peer has its mode filled in |
| ModeFilters.FilterIsRightExactly | kbucket/table.go:486-500 | on a well-shaped table the filtered answer is right for every target, count and nearest list if and only if every recorded mode is 0 when 0 is asked for, and none is the mode asked for when that is another |
| ModeFilters.FilterLosesPeer | kbucket/table.go:486-500 | after one peer of mode 1 was added to a new table, asking for one peer of mode 1 returns nobody, though that peer is the nearest and is recorded with that mode |
| RoutingTables.RoutingTable.UsefulNewPeer | kbucket/table.go:101-142 | the scans decide the prediction whose meaning UsefulNewPeerPredicts gives |
| RoutingTables.RoutingTable.NPeersForCpl | kbucket/table.go:78-97 | the count of peers with exactly that depth in the whole table |
| RoutingTables.RoutingTable.MaxCommonPrefix | kbucket/table.go:578-593 | the greatest depth in the whole table |
| LookupLaws.StepKeeps | query.go:231-275 | every step keeps the invariant: waiting peers are one to one with live workers plus unread updates |
| LookupLaws.RunKeeps | query.go:231-275 | every run keeps that invariant, in any interleaving |
| LookupLaws.NextPeersFit | query.go:439-469 | the peers chosen next are distinct heard peers and fit under alpha |
| LookupLaws.UpdateMeans | query.go:347-408 | an update is accepted exactly if every peer it finishes was waiting and is named once; it adds those heard of, moves those it finishes, and leaves the others |
| LookupLaws.NeverAskedForNone | query.go:255-274 | in every run a check that goes on is asked for at least one peer, so that the case in which all heard peers are taken never occurs |
| QPeersets.IdsInOrder | qpeerset/qpeerset.go:124-140 | filtering the sorted slice by state keeps distinctness and distance order |
| QPeersets.QueryPeerset.TryAdd | qpeerset/qpeerset.go:84-93 | an unknown peer becomes heard; a known one is left as it is |
| QPeersets.QueryPeerset.Sort | qpeerset/qpeerset.go:95-101 | the lazy sort leaves every peer's state with its peer |
| QPeersets.QueryPeerset.GetClosestNInStates | qpeerset/qpeerset.go:124-140 | the n closest of the peers in the given states |
| Queries.Query.UpdateState | query.go:347-408 | a panic exactly when terminated or when a finished peer was not waiting or is named twice; otherwise each peer's state is given by which of the three lists names it |
| Queries.Query.Receive | query.go:248-250 | reading takes the oldest update from the channel, cannot panic, and moves its peer out of waiting to what the update says |
| Queries.Query.ObserveCancellation | query.go:251-252 | seeing the cancelled context is a machine step |
| Queries.Query.IsLookupTermination | query.go:515-526 | true if and only if the beta closest reachable peers are all queried |
| Queries.Query.PeersToQuery | query.go:454-467 | the closest heard peers, as many as asked for, or all when none is asked for |
| Queries.Query.IsReadyToTerminate | query.go:439-469 | stopped if told so, else starved exactly if nobody is heard or waiting, else completed exactly if the beta closest reachable peers are all queried; otherwise the closest heard peers to query next |
| Queries.Query.CheckTermination | query.go:255-268 | the check returns if the query was terminated before, is told to stop, has starved or has completed, each with its reason; and goes on otherwise |
| Queries.Query.SpawnQuery | query.go:472-502 | the peer is waiting and has one live worker |
| Queries.Query.FinishTurn | query.go:255-274 | a turn that is told to stop, finds the query terminated, starved or completed returns with nothing changed; any other starts exactly one worker for each of the closest heard peers, so that alpha are waiting or nobody is left heard |
| Queries.Query.QueryPeer | query.go:537-599 | a worker ends with one update about its own peer that fits the channel: unreachable if it could not be reached, else queried, with the answer in order, without the local peer and the filtered ones, and the duration |
| LookupResults.PeersToFollow | query.go:97-104 | exactly the reported peers that are heard or waiting, once each |
| LookupResults.FollowUp | query.go:114-167 | whatever the selects choose, exactly one completion signal per spawned query is read, and a lookup stays complete only if nothing was cut short |
| ValuablePeers.FastestIsValuable | query.go:278-298 | the fastest seed is itself recorded as valuable if and only if its duration is above zero and below 2^62 nanoseconds |
| ValuablePeers.ZeroIsNotValuable | query.go:278-298 | a seed that answered in no measurable time, before all others, is not recorded |
| ValuablePeers.Fastest | query.go:283-290 | the first loop finds the least duration of a seed, or the greatest integer if no seed answered |
| ValuablePeers.RecordValuablePeers | query.go:278-298 | both loops: the table keeps its peers, the entries of exactly the recorded seeds are touched, and each with the last reading of the clock for it |
| ProviderLaws.LoadAgrees | providers/providers_manager.go:326-376 | after a load the datastore holds for the key exactly what was loaded; every unexpired decodable record survives and is loaded, other keys are untouched, nothing loaded is expired |
| ProviderLaws.StepKeeps | providers/providers_manager.go:149-214 | every turn of the loop keeps cache and datastore in agreement |
| ProviderLaws.GcResultKeeps | providers/providers_manager.go:183-197 | a stale result never deletes a record that was added since, so nothing cached loses its record |
| ProviderHistory.AddWrites | providers/providers_manager.go:151-159 | an add writes its record with the time and leaves every other record and every other cached set; a running collection will skip the record, and a cached set of the key names the provider |
| ProviderHistory.GetKeepsTheLive | providers/providers_manager.go:298-376 | a get of a cached key changes nothing; any other keeps exactly the unexpired decodable records of the key and all records of other keys, and caches the key exactly if it has an answer |
| ProviderHistory.CollectionKnows | providers/providers_manager.go:151-211 | in every run a collection that has not ended works with the tick that started it and skips exactly the records added since |
| ProviderHistory.CollectionSees | providers/providers_manager.go:199-211 | in every run, whatever the datastore holds while a collection runs can be delivered to it |
| ProviderManagers.ProviderManager.AddProvider | providers/providers_manager.go:151-159 | an add is a machine step that keeps cache and datastore in agreement: the datastore gains exactly that record with that time, a running collection will skip it, and a cached set of the key lists the provider |
| ProviderManagers.ProviderManager.LoadProviderSet | providers/providers_manager.go:326-376 | the loop deletes expired and undecodable records and returns the others |
| ProviderManagers.ProviderManager.GetProvidersForKey | providers/providers_manager.go:298-323 | a get is a machine step: it answers with each provider the datastore then holds for the key, once, deletes exactly the dead records of an uncached key, and caches the key exactly if there is an answer |
| ProviderManagers.ProviderManager.StartGc | providers/providers_manager.go:199-211 | the cache is emptied and the collection starts with the tick as its time and nothing to skip, the datastore untouched |
| ProviderManagers.ProviderManager.CollectRecord | providers/providers_manager.go:183-197 | a delivered record is deleted unless it is to be skipped or was, as delivered, within the validity period of the tick |
| Varint.VarintRoundTrip | pb/dht.pb.go:570-580 | a written 64-bit varint is read back, whatever follows it |
| Wire.Int32RoundTrip | pb/dht.pb.go:704-722 | every 32-bit integer, negative ones included, is read back |
| Wire.ChunkRoundTrip | pb/dht.pb.go:723-756 | a length-delimited payload is read back and what follows is left |
| Wire.SkipFrom | pb/dht.pb.go:1211-1288 | every successful skip makes strictly positive progress |
| Wire.UnknownLocal | pb/dht.pb.go:1211-1288 | an unknown field is the same field wherever its bytes stand |
| WireIO.EncodeVarintDht | pb/dht.pb.go:570-580 | the bytes just before the offset become the varint and no others change |
| WireIO.ReadVarint | pb/dht.pb.go:680-694 | each hand-unrolled loop reads the format's varint, reduced to the width it accumulates in, and never reads outside the input |
| WireIO.ReadChunk | pb/dht.pb.go:723-756 | the three checks refuse exactly negative lengths, index overflow and short input |
| WireIO.ReadPayload | pb/dht.pb.go:1229-1284 | eight bytes for wire type 1, four for 5, a group opened by 3 and closed by 4, a varint or a length with its payload for the others, and nothing else |
| WireFormat.SkipsField | pb/dht.pb.go:1211-1288 | from a field on, wherever it stands and however deep groups are open, the skip is exactly past it, or goes on behind it |
| WireFormat.SkippedIsField | pb/dht.pb.go:1211-1288 | whatever a skip has gone over inside the input is one field of the grammar |
| WireFormat.WritesVarint | pb/dht.pb.go:570-580 | the printer spells every 64-bit number in at most ten groups of seven bits, low ones first, without leading zeros |
| WireFormat.ReadsVarint | pb/dht.pb.go:680-694 | whatever spells a number in at most ten groups, minimal or not, is read as that number |
| MessageFormat.VarintRefused | pb/dht.pb.go:680-694 | a varint is refused exactly if its first ten bytes all go on, or if the input ends while they do |
| MessageFormat.TagRefused | pb/dht.pb.go:696-703 | a tag is refused exactly if it ends a group or its field number, cut to 32 bits, is not positive |
| MessageFormat.ChunkRefused | pb/dht.pb.go:741-756 | a payload is refused exactly if its length is negative as a signed integer, or it reaches beyond the input |
| MessageLaws.PeerRoundTrip | pb/dht.pb.go:480-1106 | unmarshalling a marshalled peer gives the same peer if and only if its unknown bytes are whole unknown fields |
| MessageLaws.ClosestRoundTrip | pb/dht.pb.go:531-1210 | unmarshalling marshalled closest peers gives the same value if and only if its unknown bytes are whole unknown fields |
| MessageLaws.DecodedMessageIsWellFormed | pb/dht.pb.go:675-971 | every message that parses, from any bytes, has unknown bytes that are whole unknown fields |
| MessageLaws.LooseByteIsLost | pb/dht.pb.go:495-503 | a peer whose unknown byte is no whole field, and which does not survive |
| MessageFormat.PrintedMessage | pb/dht.pb.go:392-478 | a marshalled message is its fields by number, in ascending order, those with a zero value left out, and then its unknown bytes |
| MessageFormat.PrintedPeer | pb/dht.pb.go:495-529 | a marshalled peer is its id, its addresses in order, its connection if that is not zero, and its unknown bytes |
| MessageFormat.PrintedClosest | pb/dht.pb.go:546-568 | marshalled closest peers are the own identifier and the mode, where not empty or zero, and the unknown bytes |
| MessageFormat.MessageParserTakes | pb/dht.pb.go:675-971 | on every list of fields the parser gives the message or the error that the fields, one after the other, give |
| MessageFormat.PeerUnmarshalMeans | pb/dht.pb.go:972-1106 | the same as for a message: exactly the lists of fields, and what they make of the peer |
| MessageFormat.ClosestUnmarshalMeans | pb/dht.pb.go:1107-1210 | and for closest peers |
| MessageFormat.PeerSurvives | pb/dht.pb.go:480-1106 | a peer survives if and only if its unknown bytes are those of fields other than 1, 2 and 3 |
| MessageFormat.ClosestSurvives | pb/dht.pb.go:531-1210 | closest peers survive if and only if their unknown bytes are those of fields other than 1 and 2 |
| Codec.MessageSize | pb/dht.pb.go:581-625 | the size computed beforehand is the length of the encoding |
| Codec.PeerMarshalToSizedBuffer | pb/dht.pb.go:495-529 | filling back to front writes exactly the encoding at the end of the buffer and touches nothing before it |
| Codec.ClosestMarshalToSizedBuffer | pb/dht.pb.go:546-568 | the same for closest peers |
| Codec.MessageMarshalToSizedBuffer | pb/dht.pb.go:392-478 | the same for a message, with nested messages printed in place and headed by their sizes |
| Codec.PeerUnmarshal | pb/dht.pb.go:972-1106 | on any bytes the parser terminates and computes the format's peer or error |
| Codec.ClosestUnmarshal | pb/dht.pb.go:1107-1210 | on any bytes the parser terminates and computes the format's closest peers or error |
| NetSize.TrackKeepsNewest | netsize/netsize.go:105-138 | maintaining a window keeps exactly the newest 150 young measurements of the whole history, though dropped ones are forgotten |
| NetSize.CollectKeepsNewest | netsize/netsize.go:255-280 | collecting keeps the same of the history at the later time |
| NetSize.Estimator.WindowHolds | netsize/netsize.go:105-138 | on every valid estimator a rank's window is a suffix of its history, at most 150 long, all within two hours; and a measurement within two hours is missing only if there are 150 newer ones |
| NetSize.ExponentMeans | netsize/netsize.go:232-252 | the exponent as two counts at the key's depth: the table's peers, or the answer's where those are more and the table's are fewer than the bucket size, minus the bucket size |
| NetSize.Estimator.GarbageCollect | netsize/netsize.go:255-280 | every rank's window is the newest young part of its full history at the later time |
| NetSize.Estimator.WindowsHaveOneLength | netsize/netsize.go:105-138 | all ranks keep windows of equal length, at most 150 |

## Left out

- KeyGen.GenRandPeerPrefix: stops at the prefix looked up; the contents of the prefix map (SHA-256 preimages) are not part of this model.
- RoutingTables.RoutingTable.TryAddPeer: the diversity filter is a set that answers each insertion as it likes; address grouping and the allow list of the real filter are not part of this model.
- RoutingTables.ConnManager.PeerRemoved: without the call that starts a repair of the table.
- MessageLaws.MessageRoundTrip: the nested record belongs to another package and is an opaque codec with a round trip of its own (`Faithful`); a nil slice and an empty one are one value.
- Codec.MessageUnmarshal: the partly filled message that the code leaves behind on an error is not modelled.
- Codec.PeerUnmarshal: nor is the partly filled peer.
- Codec.ClosestUnmarshal: nor are the partly filled closest peers.
- MessageFormat.MessageUnmarshalMeans: says of an input that is not a list of fields that it is refused, not with which error; the errors of a tag, a varint and a payload are stated on their own.
- Nearest.Sort: stands for the library sort; its algorithm and the order of ties are not those of the library.
- Queries.Query.QueryPeer: dialling, the remote call, the address book and the changes a worker makes to the routing table are reduced to whether the peer was reached and what it answered.
- Queries.Query.FinishTurn: real goroutines and the wait group are steps of the machine instead; the select of the loop is the choice between `Receive` and `ObserveCancellation`.
- ProviderLaws.RunKeeps: eviction may happen at any moment instead of in least-recently-used order.
- ProviderManagers.ProviderManager.AddProvider: failing and batched datastore operations are not modelled.
- ProviderManagers.ProviderManager.GetProvidersForKey: that a returned list may share its backing array with the cached one is not modelled.
- NetSize.Estimator.Track: a distance is the integer that the code divides by the size of the key space, and the weight is its exponent; the regression and all floating point are left out, and the map from ranks to windows is a sequence.
- A reference to a bucket entry is its index in the list, and the linked list of a bucket is a sequence field.
- Lookup events and referrers, which only report.
- Cleaning of provider keys as datastore paths: a key and a last component stand for the path.
- Size, ListPeers, GetPeerInfos, NearestPeer, Print and diversity statistics of the table, which only add easy members.
- Hosts, streams, publish-subscribe, discovery, metrics and configuration.
