# Coroot's tracing and logging backend: a model and its proofs

Coroot's collector receives spans, names the applications on their two sides, decides which of
them count, and stores them in ClickHouse. Its API reads them back through queries that
are rewritten for speed: log counts from a per-minute rollup, trace counts from a histogram table,
limits slice by slice, bodies borrowed in batches. The schema of both is migrated by replicas that
take turns under a lock over two stores without a common transaction.

Each of these keeps state or rewrites a query, and each has a simple statement it must agree with.
The project models the code and proves that agreement: over every history of calls, every run of
the protocol, every set of rows and every filter list.

How the model is laid out, one module a file:

| file | source | what is there |
|---|---|---|
| `prelude.dfy` | | attributes, clock, minutes and steps |
| `request_counting.dfy` | `collector/request_counting.go` | the memory of server spans, and `Counted` over whole histories |
| `recent_addresses.dfy` | `collector/recent_addresses.go` | the memory of addresses |
| `address_owners.dfy` | `collector/applications.go` | the owner of an address |
| `trace_spans.dfy`, `span_naming.dfy`, `batch_state.dfy`, `traces_batch.dfy`, `closing.dfy` | `collector/traces.go` | a span's row and what is pending of it; naming in two passes; the batch as a value with its invariant; the batch as an object; the waiting of `Close` |
| `written_spans.dfy` | `collector/traces.go`, `clickhouse/traces.go`, `ch/client.go` | the rows written, as the queries and the views of ClickHouse read them |
| `span_slicing.dfy` | `clickhouse/traces.go`, `clickhouse/sort.go` | LIMIT queries, slices and trace ids |
| `trace_errors.dfy` | `clickhouse/traces.go` | the deepest errors of a trace |
| `body_borrowing.dfy` | `clickhouse/traces.go` | body hashes taken from client spans |
| `rollups.dfy` | `ch/client.go` | a summing table fed by a materialized view, for any key |
| `log_filters.dfy`, `message_search.dfy`, `log_rollup.dfy` | `clickhouse/logs.go` | conditions of log filters; the search box; the histogram from either table |
| `log_facets.dfy` | `clickhouse/logs_facets.go` | the facets from either table, as they are listed |
| `time_series.dfy` | `timeseries/time.go`, `timeseries/timeseries.go` | truncation of times; series whose points are set by time |
| `span_filters.dfy`, `traces_window.dfy`, `traces_histogram.dfy` | `clickhouse/traces.go` | conditions of span filters; the window; the charts from either table |
| `migrations.dfy`, `migration_wipes.dfy` | `ch/migrations.go` | the migration protocol, without and with outside wipes |
| `switchovers.dfy` | `constructor/events.go` | primaries over time and their switchovers |

Objects whose methods update their fields (`ServerSpanSources`, `Addresses`, `TracesBatch`,
`TimeSeries`, the two stores of the migrations) are classes. A ghost field records what was called on the object, the
class invariant says that its fields are a function of that history, and the lemmas say what the
function means. What the code gets from outside (the clock, whether an insert or a statement
succeeded, the rows ClickHouse answers with, `net`, `url`, regular expressions, hashes) are
parameters.

What turned out otherwise than one might expect of the code:

* A stale `ip:port` entry of the recent addresses hides a fresh entry of its IP until a prune
  (`RecentAddresses.LookupMeaning` says exactly when, `HidingHappens` shows it).
* `Counted` depends on the order of the spans of a batch exactly when some span of it tells another
  something that is not known yet (`RequestCounting.OrderMattersIff`, shown by
  `RequestCounting.CountedDependsOnOrder`); the names of the spans do exactly when a peer is looked up
  where two of them claim an address for different applications (`SpanNaming.NamingIgnoresOrderIff`,
  shown by `SpanNaming.NameDependsOnOrder`).
* The owner of an address depends on the order in which the world is walked exactly when two of its
  claims that no other replaces are for different owners (`AddressOwners.OrderMattersIff`), as two
  active listens of different applications always are (`AddressOwners.ListensTie`).
* `Close` may wait past its deadline, or for ever: the timer it gives both of its waits fires once
  (`Closing.ThroughByDeadlineIff` says exactly when, `Closing.NeverRead` shows it).
* The series of the log histogram drop rows unless the range starts and ends with a step
  (`LogRollup.NothingDroppedIffAligned`, `LogRollup.UnalignedStartDrops`).
* The log rollup leaves out rows whose time is the very end of the range; that changes the histogram
  exactly when the end is at a point of it (`LogRollup.SameSeriesIff`, `LogRollup.EndRowIsMissed`),
  never for a range of whole steps (`LogRollup.AlignedSeriesAreTheSame`). The trace histogram adds the
  spans of the rest of the minute the window ends in (`TracesHistogram.HistogramIsRawIff`,
  `TracesHistogram.OverhangIsCounted`).
* The severity classes of the log histogram are shifted against the filters of the same names: rows
  with a severity number that is a multiple of four are charted one class up
  (`LogRollup.ClassIsSeverityIff`).
* The memory of server spans tells the agent's by their scope, the table it is read back from by an
  attribute. They differ exactly for a span without a scope that has that attribute itself
  (`WrittenSpans.SourceIsTold`).
* The filter that a host listed as a facet stands for keeps more rows than were counted under it:
  those, too, whose resource has that host when the record names another one (`LogFacets.FilterOfListed`).
* A namespace filter with a slash in its value compares a longer prefix of `Server` than a namespace
  (`SpanFilters.PrefixIsNamespaceIff`).
* After an outside wipe a call of `Migrate` can return nil with statements missing: exactly when it did
  not find everything before its start in effect, or a wipe came after its first statement
  (`MigrationWipes.NilMeansMigratedIff`, shown by `MigrationWipes.NilWithoutTheSchema`); what is lost
  stays lost until the next wipe (`MigrationWipes.LostUntilWipe`).
* A switchover is dated from the first gap or conflict even when the old primary came back after it;
  that happens exactly when a primary comes back before another one takes over
  (`Switchovers.StartsWhenLostIff`, shown by `Switchovers.EarlyStart`).
* A trace with errors can end with none: every choice of its errors keeps one in every order of the
  iteration exactly when no error is above itself (`TraceErrors.SomeErrorIsLeft`), which takes two spans
  that share an id (`TraceErrors.OneParentIsEnough`, `TraceErrors.SharedIdLosesTheError`). And which errors
  are left can depend on that order (`TraceErrors.LeavesDeepestIff`, `TraceErrors.OrderDecides`).

## Model

| member | source | states |
|---|---|---|
| RequestCounting.CountedMeaning | collector/request_counting.go:47-118 | after any history of `counted` and `remember` with a clock that does not go back, a client span of a known protocol counts iff no server span or row of its key, from the agent or an SDK, is less than an hour old, an agent's server span iff none from an SDK is, and any other span counts |
| RequestCounting.PruningIsInvisible | collector/request_counting.go:138-150 | that answer is the same whichever calls were preceded by a prune |
| RequestCounting.RunAgrees | collector/request_counting.go:91-150 | for every schedule of prunes, each entry was told by some call of the history, and whatever was told is covered by a later entry or an hour old |
| RequestCounting.NoUndercount | collector/request_counting.go:47-63 | a request whose server records by a fixed set of sources, or by none and has a client span, has at least one counted span, whatever is known when |
| RequestCounting.CountedOnceIff | collector/request_counting.go:47-63 | whatever the gaps, a request is counted exactly once iff its client span, when the server records, and its agent span, when the SDK does too, each find what silences them known |
| RequestCounting.CountedExactlyOnce | collector/request_counting.go:47-63 | they do if the deciding source (the SDK when it records) recorded the key before all spans of the request, is never an hour silent, and the spans of the request are within an hour of each other |
| RequestCounting.OrderMattersIff | collector/request_counting.go:91-118 | for a batch counted at one moment after any history, every order of it gives each span the same answer iff no server span of it tells a client span, or an SDK's an agent's, what is not known yet |
| RequestCounting.AnswerInBatch | collector/request_counting.go:91-118 | the answer for a span of a batch is that of what was known before the batch and what its earlier spans tell |
| RequestCounting.CountedDependsOnOrder | collector/request_counting.go:106-117 | a batch of two whose order matters: the client span counts first, and not after the server span |
| RequestCounting.Forget | collector/request_counting.go:138-150 | deleting entry by entry, in any order, leaves the entries less than an hour old |
| RequestCounting.ServerSpanSources.constructor | collector/request_counting.go:85-87 | the memory starts as that of the empty history |
| RequestCounting.ServerSpanSources.Prune | collector/request_counting.go:138-150 | prunes at most once an hour, and then both maps |
| RequestCounting.ServerSpanSources.Counted | collector/request_counting.go:91-118 | the fields stay a function of the whole history, and the answer is the one the history gives |
| RequestCounting.ServerSpanSources.Decide | collector/request_counting.go:94-117 | records a server span with the moment it is counted, then answers |
| RequestCounting.ServerSpanSources.Remember | collector/request_counting.go:122-135 | a row moves its entry only forward in time |
| RecentAddresses.IpIsLatestRecord | collector/recent_addresses.go:84-115 | over any history of records with a clock that does not go back, an IP is named by the application of its latest accepted record iff that is under ten minutes old, whichever prunes ran |
| RecentAddresses.PlainIpLookup | collector/recent_addresses.go:141-156 | `lookup` of a plain IP gives that application |
| RecentAddresses.ClientsAreFreshClaims | collector/recent_addresses.go:160-170 | `clients` lists an IP iff some accepted record of it is fresh |
| RecentAddresses.OrderDoesNotMatter | collector/recent_addresses.go:84-115 | histories with the same claims of an IP, in whatever order and however often, name it alike, unless two claims of one time differ |
| RecentAddresses.OnlyPodAddresses | collector/recent_addresses.go:84-115 | an entry of `byIp` is a network IP, of an application with a namespace, recorded when the directory was there and did not know it as a node's |
| RecentAddresses.LookupMeaning | collector/recent_addresses.go:141-156 | `lookup` of any address gives its own fresh claim, or else that of its IP, iff no stale `ip:port` entry stands before a fresh IP |
| RecentAddresses.HidingHappens | collector/recent_addresses.go:144-153 | a history in which such an entry hides the new pod of an IP |
| RecentAddresses.TaughtForTenMinutes | collector/recent_addresses.go:84-156 | an address with a port, taught once by a namespaced application, is named by it for ten minutes and not from then on |
| RecentAddresses.NotLearned | collector/recent_addresses.go:84-115 | no IP is learned without a directory, of a node, of this host alone, or for an application without a namespace |
| RecentAddresses.Addresses.RecordAddress | collector/recent_addresses.go:84-115 | the books stay a function of all records |
| RecentAddresses.Addresses.Prune | collector/recent_addresses.go:173-185 | prunes at most every ten minutes, and then both books |
| RecentAddresses.Addresses.Lookup | collector/recent_addresses.go:141-156 | an `ip:port` entry decides, even a stale one; otherwise the IP |
| RecentAddresses.Addresses.Clients | collector/recent_addresses.go:160-170 | each fresh IP once, and no other |
| AddressOwners.FindOwners | collector/applications.go:86-113 | in whatever order the world is walked, each claimed IP and listen has an owner who claims it and whom no other claimant replaces; the owners are those of that order |
| AddressOwners.FirstUnreplacedOwns | collector/applications.go:64-71 | in any order an address goes to the first of its claims that no other replaces |
| AddressOwners.OrderMattersIff | collector/applications.go:87-91 | all orders give an address the same owner iff those of its claims that no other replaces are for one owner |
| AddressOwners.ListensTie | collector/applications.go:107-112 | two applications that actively listen on one address tie: the first one walked owns it |
| AddressOwners.OwnersDoNotDependOnOrder | collector/applications.go:66-71 | two walks give the same owners of all addresses if each has one such owner |
| AddressOwners.AliveWins | collector/applications.go:64-71 | a claim that is alive is never hidden by one that is not, nor by one seen earlier |
| AddressOwners.ActiveListenOwns | collector/applications.go:107-112 | in any order, a listened address that some active listen claims is owned by the application of an active listen of it |
| AddressOwners.LivingClaimOwns | collector/applications.go:66-71 | in any order, an IP that a living pod or an active listen on port 0 claims is owned by the application of such a claim |
| AddressOwners.LatestPodOwns | collector/applications.go:66-71 | of pods that are alike alive, an IP goes to one seen no earlier than any other |
| AddressOwners.ReusedPort | collector/applications.go:107-112 | a port that a stopped listen and an active one claim is owned by the active one, whichever is walked first |
| TraceSpans.ArrivingIsOneSpan | collector/traces.go:392-468 | of each span there is one cell in every data column, the hashes are those of its capped bodies, and what is pending is of the same span |
| SpanNaming.NamingIgnoresOrderIff | collector/traces.go:583-602 | every order of the pending spans gives each the same (Client, Server) iff no peer is looked up at an entry that two of them, claiming it for different applications, would replace |
| SpanNaming.NameDependsOnOrder | collector/traces.go:583-602 | three spans, two of them from different applications at one IP, whose order names the peer of the third |
| SpanNaming.NamingIgnoresOrder | collector/traces.go:583-602 | with no entry so contested, permuting the pending spans also leaves the same addresses learned |
| SpanNaming.LearnedAtOnce | collector/recent_addresses.go:84-115 | what lessons of one moment leave at an address depends only on whether some was accepted and on the first that claims it |
| SpanNaming.ClientNamesPeer | collector/traces.go:476-508 | a client span the agent recorded in a pod, wherever it is in the rest of a batch, gives server and consumer spans that only tell the IP of the pod its application as their client, and leaves their server |
| SpanNaming.ServerNamesPeer | collector/traces.go:476-508 | a server span the agent recorded gives client and producer spans that only tell its address its application as their server, and leaves their client |
| SpanNaming.ClientAddressIs | collector/applications.go:301-308 | the address of the peer of a server span is that of the first of four attributes it has |
| BatchState.RunInvariant | collector/traces.go:389-642 | every run of adds and writes, each insert failing or not, keeps the columns aligned with `pending`, the held spans' bodies kept or written, and the remembered hashes true |
| BatchState.EverySpanWrittenOnce | collector/traces.go:577-642 | the rows passed to exec, followed by those held, are the rows of the added spans, each once and in order, even when inserts fail; the 27 columns of every insert are equally long |
| BatchState.BodiesWrittenFirst | collector/traces.go:518-562 | a span is inserted with the hash of a body only after a successful insert of that body, at most an hour before the span arrived, unless the insert of bodies right before it failed; at most 100000 hashes are remembered, or as many as one batch wrote |
| BatchState.SavedBound | collector/traces.go:555-561 | writing bodies keeps that bound, forgetting included |
| TracesBatches.TracesBatch.constructor | collector/traces.go:246-336 | a new batch is empty, and has read what there is nothing to read of |
| TracesBatches.TracesBatch.Add | collector/traces.go:389-474 | the spans of the request are appended; a full batch is written iff it is ready, has waited 30 s or has ten batches of spans; afterwards fewer than ten batches are held, and fewer than one if it need not wait |
| TracesBatches.TracesBatch.Save | collector/traces.go:567-573 | a tick writes everything or changes nothing, by the same condition |
| TracesBatches.TracesBatch.Close | collector/traces.go:347-349 | nothing is held after it |
| Closing.Wait | collector/traces.go:338-346 | the two waits, each on a read and on the one timer, end as the selects allow, or never |
| Closing.WritesInformedOrLate | collector/traces.go:335-346 | whenever `Close` writes, both reads are done or the deadline has passed |
| Closing.ThroughByDeadlineIff | collector/traces.go:335-346 | `Close` is through by the deadline whatever the selects pick iff the addresses are read by then or the server spans before it |
| Closing.NeverRead | collector/traces.go:338-346 | when nothing is ever read, `Close` never ends |
| TracesBatches.TracesBatch.Write | collector/traces.go:577-642 | all addresses of the batch are learned first, then all spans are named by what was learned, and counted one after another in their order by the names they got; then bodies and spans are inserted |
| TracesBatches.TracesBatch.AddBody | collector/traces.go:518-528 | a body is kept unless it is empty or was written within the hour |
| TracesBatches.TracesBatch.AddSpan | collector/traces.go:426-466 | one span adds its row, what is pending and its bodies |
| TracesBatches.TracesBatch.SaveBodies | collector/traces.go:532-562 | the bodies go out in one insert and are remembered iff it succeeded |
| TracesBatches.TracesBatch.ExecAndReset | collector/traces.go:606-641 | the columns are inserted and emptied whether that fails or not |
| TracesBatches.TracesBatch.Learn | collector/traces.go:478-488 | an agent's span teaches the address of its own side, and nothing else does |
| TracesBatches.TracesBatch.NamePeers | collector/traces.go:492-508 | only a peer named by its address gets the name of a recent address |
| TracesBatches.TracesBatch.RememberServers | collector/traces.go:286-303 | rows read from ClickHouse become part of the history, and the read is done |
| TracesBatches.TracesBatch.RememberAddresses | collector/recent_addresses.go:72-76 | so do those of the addresses |
| TracesBatches.CountedColumnMeans | collector/traces.go:593-602 | the Counted column of every write is what the documentation promises of each span, from all that was known and counted before it, if the clock did not go back and no row was from the future |
| TracesBatches.PeerNameMeans | collector/traces.go:492-508 | a peer named by its plain IP gets the application of the latest record of the IP, of all recorded before and taught by the batch itself, if it is fresh |
| TracesBatches.TimedWrite | collector/traces.go:577-602 | a write keeps the histories timed |
| WrittenSpans.WrittenRow | collector/traces.go:577-642 | of a write on timed histories, row i has the data of the i-th span held and the names it is given, and its Counted is 0 iff, of a known protocol, it is a client span whose server was told to record the protocol, by the agent or an SDK, within the hour before or by an earlier span of the write, or an agent's server span whose SDK was |
| WrittenSpans.CountedCell | collector/traces.go:594-602 | the same of a cell of the Counted column, after any timed history and for any names |
| WrittenSpans.UnrecordedServerCounts | collector/request_counting.go:106-117 | a client span counts if nobody told of its server and no earlier server span of the batch has that server, whatever is known of its client |
| WrittenSpans.CallOutCounts | collector/traces.go:597 | a server's own server span and, right after it, its request to an outside service both count |
| WrittenSpans.InsertedRow | collector/traces.go:392-468 | over every run the i-th row ever inserted carries the data of the i-th span that arrived |
| WrittenSpans.TracesAreKept | clickhouse/traces.go:733-752 | two inserted rows are read as of one trace, and one as the parent of the other, exactly when their spans are |
| WrittenSpans.IdsAreRead | clickhouse/traces.go:733-752 | the trace id, span id and parent read of a row are those of its span |
| WrittenSpans.NamesAreRead | clickhouse/traces.go:733-752 | so are the name, the service, the kind and the status |
| WrittenSpans.TimesAreRead | clickhouse/traces.go:733-752 | the start and the duration are read exactly iff they fit 64 signed bits |
| WrittenSpans.EventsAreRead | clickhouse/traces.go:747-755 | as many events as there were, each with its name, attributes and time |
| WrittenSpans.LinksAreStored | collector/traces.go:420-432 | the links of a span can be read from the row as they were |
| WrittenSpans.AttributesAreRead | collector/traces.go:392-451 | the attributes read are those of the span, without the bodies and the request key |
| WrittenSpans.ScopeKept | collector/traces.go:392-410 | the scope of a span is among its attributes |
| WrittenSpans.HashesAreRead | collector/traces.go:457-459 | the hashes read are those of the bodies among the attributes, cut after 16 KiB, 0 for none, and the key is the one there |
| WrittenSpans.SourceIsTold | ch/client.go:432-437 | the view keeps of a row the server and protocol that counting its span told of; the side is the same iff the span does not say itself that it is the agent's |
| WrittenSpans.AddressIsTaught | ch/client.go:455-471 | the view keeps of a row the address and application its span taught, if any |
| WrittenSpans.ProtocolTold | collector/request_counting.go:35-45 | which attributes make a request of a database, of gRPC or of HTTP, and which spans are of none |
| WrittenSpans.OwnSideStays | collector/traces.go:490-508 | naming the peer changes one name of a span and leaves the other, and both of an internal one |
| SpanSlicing.CutoffChangesNothing | clickhouse/sort.go:38-55 | the query with the extra condition on the k-th timestamp has exactly the answers of the query without it, for every order, limit and set of rows |
| SpanSlicing.GetSpans | clickhouse/traces.go:520-553 | whichever slices are asked, the result is sorted, without repeats, of min(limit, matching) spans, and no span left out is newer than one in it |
| SpanSlicing.GetRootSpans | clickhouse/sort.go:15-36 | the trace list is such a result in the order asked for, newest first for an unknown column |
| SpanSlicing.TopOfTwo | clickhouse/traces.go:526-546 | the tops of a newer and an older range make a top of both, if the newer one was exhausted |
| SpanSlicing.QuerySpans | clickhouse/traces.go:689-722 | one query answers a top of the spans it selects |
| SpanSlicing.SliceBounds | clickhouse/traces.go:777-787 | the slices of `getTraces` are adjacent, newest first, cover the range, and are an hour, two and four long as far as that leaves something for the next |
| SpanSlicing.GetTraceIds | clickhouse/traces.go:789-818 | the groups are disjoint and without repeats, and together exactly the distinct trace ids of the newest 200 spans, up to equal timestamps |
| SpanSlicing.AnswersExist | clickhouse/sort.go:38-55 | what is assumed of an answer can be met, for every set of rows |
| SpanSlicing.TopIsInOrder | clickhouse/sort.go:38-55 | a top lists newest, oldest, longest or shortest first, and leaves out no row that comes before one of it |
| TraceErrors.GetTraceErrors | clickhouse/traces.go:905-919 | of any trace whose errors' walks end: what is left is what an order of the iteration over the map that is deleted from leaves; some error is, if none is above itself; it is exactly the errors with none below when each other error has such a one below it, as when spans that share an id agree on their parent |
| TraceErrors.LeftIffNotDeleted | clickhouse/traces.go:913-919 | an error is left iff no error that was visited has it above its parent |
| TraceErrors.SomeErrorIsLeft | clickhouse/traces.go:913-919 | some error is left in every order, of the given errors and of every choice from them, iff no walk comes back to the error it starts from |
| TraceErrors.OneParentIsEnough | clickhouse/traces.go:907-912 | none does when spans that share an id agree on their parent and the walks end |
| TraceErrors.SharedIdLosesTheError | clickhouse/traces.go:907-918 | two spans that share an id, whose only error is deleted by its own visit |
| TraceErrors.LeavesDeepestIff | clickhouse/traces.go:913-919 | when no error is above itself, every order leaves exactly the errors with none below iff each other error has one of these below it |
| TraceErrors.OneParentDeepestBelow | clickhouse/traces.go:907-912 | each has when spans that share an id agree on their parent and the walks end |
| TraceErrors.OrderDecides | clickhouse/traces.go:907-918 | two errors that delete each other: the one visited first is left |
| TraceErrors.DeleteAbove | clickhouse/traces.go:914-918 | the walk ends and deletes exactly what is above its start |
| TraceErrors.WalksEndIffRanked | clickhouse/traces.go:914-918 | the walk ends from every span iff the parents have no cycle |
| TraceErrors.ErrorsLeftAreApart | clickhouse/traces.go:913-919 | none of the errors left is above another, or itself |
| BodyBorrowing.BorrowClientBodies | clickhouse/traces.go:574-646 | one batched query gives each server span that lacks bodies the hashes of the nearest client span of the whole table with its key, method and target within 5 s, and leaves it alone if there is none; other spans, and all of them if the query fails, stay as they were |
| BodyBorrowing.GiveBodies | clickhouse/traces.go:623-645 | of the spans that lack bodies each is changed by what was fetched for it, and no other |
| BodyBorrowing.Gather | clickhouse/traces.go:575-592 | the query reaches exactly the keys, and the times from the first to the last, of the spans that lack bodies |
| BodyBorrowing.FindBest | clickhouse/traces.go:626-641 | the nearest client span of a request, or none iff there is none |
| BodyBorrowing.BorrowedIsUnique | clickhouse/traces.go:626-645 | unless two equally near client spans have different bodies, there is one result: the other spans of the page and the order of the rows do not matter |
| BodyBorrowing.BorrowedHashes | clickhouse/traces.go:570-573 | a span changes only in its hashes, both taken from one client span of its request |
| BodyBorrowing.BorrowedFrom | clickhouse/traces.go:570-646 | a server span with a key and no body has the hashes of a client span of its key, method and target, at most 5 s apart and as near as any, if there is one; any other span is as it was |
| Rollups.RollupCountsRaw | ch/client.go:237-262 | over every life of a summing table (inserts through the view, merges of rows of one key), the sum of the counts over any set of keys is the number of raw rows that have them |
| Rollups.GroupingRepresents | ch/client.go:255-262 | the groups the view adds for a block count its rows, for every set of keys |
| Rollups.MergeKeepsSum | ch/client.go:246-248 | merging two rows of a key changes no sum |
| Rollups.CountByCounts | clickhouse/logs.go:65-70 | a GROUP BY over raw rows, added up over any of its groups, counts the rows of those groups |
| Rollups.SumByCounts | clickhouse/logs.go:57-58 | so does one over the rollup, in sums |
| LogFilters.BuildFilters | clickhouse/logs.go:246-497 | the WHERE holds of exactly the rows the query asks for, on either table and in whatever order filters and fields are taken; the rollup is refused iff the query needs text, trace ids, other attributes, part of a minute or "newer than"; no condition uses a column the table lacks |
| LogFilters.FieldConds | clickhouse/logs.go:318-484 | of one field, none of the unwanted values and one of the wanted, if there are any |
| LogFilters.CondMeans | clickhouse/logs.go:321-475 | the condition of each kind of filter holds of the rows with its value, or without it |
| LogFilters.OneFilter | clickhouse/logs.go:318-484 | a filter alone keeps the rows that have its value, with `!=` the others, with `~` and `!~` by its pattern; one with an operator or a value its field does not have keeps all |
| LogFilters.OneText | clickhouse/logs.go:486-494 | a text filter alone keeps the rows with all its words and substrings, or the others |
| LogFilters.SeverityNameIsRead | model/severity.go:21-39 | the name of each severity, `severity-N` included, is read back as that severity |
| LogFilters.NumbersAreShared | model/severity.go:64-75 | the seven names share out the numbers 0 to 24 without overlap, in their order |
| LogFilters.SeverityFilterKeeps | clickhouse/logs.go:321-345 | with the one filter Severity = name a query asks, in its window and of its sources, for exactly the rows whose number that name stands for, with != for the others |
| LogFilters.SplitFilters | clickhouse/logs.go:292-316 | each filter ends in its field's list or in the searches, whatever the order |
| LogFilters.DedupIs | clickhouse/logs.go:510-525 | dropping repeats keeps the terms, each once |
| LogFilters.MessageCond | clickhouse/logs.go:556-569 | with repeats dropped, a search still asks for all its words and substrings |
| MessageSearch.ParseMessageSearch | clickhouse/logs.go:533-550 | the words and the substrings of the terms of a box, term after term |
| MessageSearch.SearchMeans | clickhouse/logs.go:527-550 | a word is asked for iff an unstarred run between spaces has it, in whatever case, as a run between spaces and punctuation; a substring iff a starred run is it without its stars |
| MessageSearch.WordsAreRuns | clickhouse/logs.go:535-543 | cutting a text gives exactly its maximal runs without a cut |
| MessageSearch.StarredTerm | clickhouse/logs.go:533-550 | a star at the start, the end or both makes a term a substring to look for, and otherwise it is cut into words |
| MessageSearch.WordsEnd | clickhouse/logs.go:535-543 | words end at spaces and at the ASCII characters that are no digits or letters |
| LogFilters.SearchesMeanText | clickhouse/logs.go:486-494 | one search for all that must occur and one for each that must not mean the text filters one by one |
| LogRollup.AskedFactors | clickhouse/logs.go:236-241 | what an accepted query asks of a row its key in the rollup tells, but for rows whose time is the very end |
| LogRollup.RollupAgrees | clickhouse/logs.go:52-63 | for every group the key tells, the raw count is the rollup's and the rows at the very end |
| LogRollup.SameCountsIff | clickhouse/logs.go:265-274 | the two tables give the same counts of all groups iff no asked row has the very end as its time |
| LogRollup.GetLogsHistogram | clickhouse/logs.go:55-97 | each severity has a series of the whole steps of the range from `From`; point i shows how many asked rows of its class the table that answers has in the one step that starts between the times of the points i and i+1, and NaN if none |
| LogRollup.ReadHistogram | clickhouse/logs.go:78-90 | a bucket of the answer is set at its point, and dropped if it has none |
| LogRollup.NothingDroppedIffAligned | clickhouse/logs.go:86-89 | all rows before the end of a range are at points, whatever rows there are, iff the range starts and ends with a step |
| LogRollup.UnalignedStartDrops | clickhouse/logs.go:86-89 | a row in the range, a minute after its unaligned start, that is at no point |
| LogRollup.SameSeriesIff | clickhouse/logs.go:265-274 | the two tables give the same series iff the end of the range is at no point or no asked row is stamped exactly at it |
| LogRollup.AlignedSeriesAreTheSame | clickhouse/logs.go:52-63 | for a range that starts and ends with a step they do, whatever rows there are |
| LogRollup.EndRowIsMissed | clickhouse/logs.go:265-274 | a row at the end of an unaligned range for which they do not |
| TimeSeriesPackage.TimeSeries.constructor | timeseries/timeseries.go:24-39 | all points are NaN |
| TimeSeriesPackage.TimeSeries.Set | timeseries/timeseries.go:138-148 | one point is set, or none for a time before the start or past the last point |
| TimeSeriesPackage.SlotIs | timeseries/timeseries.go:139-147 | of the starts of steps, exactly one is set at a point: the first at or after the point's time |
| TimeSeriesPackage.AllShownIffAligned | timeseries/time.go:34-36 | every second of a range has a point iff the range starts and ends with a step |
| LogRollup.CellFactors | clickhouse/logs.go:56-57 | a row and its minute are in the same bucket when steps are whole minutes |
| LogRollup.ClassIsSeverityIff | clickhouse/logs.go:57 | the class of a severity number is the severity whose range has it iff the number is 0 or one of 1..24 that is no multiple of four |
| LogRollup.NumbersOfClass | clickhouse/logs.go:57 | four numbers of a sign are of one class, from the first to the last |
| LogFacets.GetLogFacetCounts | clickhouse/logs_facets.go:71-161 | what is listed of each of the seven facets, the facet's own filters left out, from the table that answers: four severities, two sources or the total, with their counts; the namespaces by count, the missing one last; or the 1000 most frequent non-empty names, by count and then by name |
| LogFacets.FacetCountIs | clickhouse/logs_facets.go:71-82 | the counts listed are those of the raw table, but for rows whose time is the very end when the rollup answered |
| LogFacets.ShowFacet | clickhouse/logs_facets.go:93-161 | the list from the rows of the answer |
| LogFacets.ValuesFactor | clickhouse/logs_facets.go:25-68 | both forms of each facet take the same value of a row |
| LogFacets.ListedIs | clickhouse/logs_facets.go:25-68 | a row is counted under its service, namespace, application, or the host of the record and else of its resource |
| LogFacets.FilterOfListed | clickhouse/logs_facets.go:25-68 | the filter a listed name stands for keeps exactly the rows counted under it, but for a host: it keeps also those of whose resource it is while the record names another |
| LogFacets.MostFirst | clickhouse/logs_facets.go:155-161 | counts go down along a list, and among equal ones names are alphabetical |
| SpanFilters.Filter | clickhouse/traces.go:1130-1192 | the conditions hold of exactly the rows of which, for each field an accepted filter names, no `!=` value is the row's and no `!~` pattern matches, and some `=` value is or some `~` pattern matches if the field has any; filters with unknown operators or field names are skipped |
| SpanFilters.Split | clickhouse/traces.go:1131-1178 | the fields of the accepted filters, as the next two rows say, with the tests of each in order |
| SpanFilters.FieldsPass | clickhouse/traces.go:1167-1189 | what the grouped tests of all fields ask is what is written of the filters one by one |
| SpanFilters.OneFilter | clickhouse/traces.go:1141-1166 | a filter alone: `=` keeps the rows with its value, `!=` the others, `~` and `!~` likewise by its pattern, any other operator all |
| SpanFilters.StatusIs | ch/traces_expressions.go:3-14 | the status of a row is the hundred of an HTTP code from 200 to 599, and otherwise error or other |
| SpanFilters.FieldsAreNamed | clickhouse/traces.go:1167-1171 | the fields listed are those an accepted filter names |
| SpanFilters.FieldsInOrder | clickhouse/traces.go:1167-1171 | each once, in the order in which they are first named |
| SpanFilters.FiltersFactor | clickhouse/traces.go:1100-1111 | filters on the dimensions of the histogram ask of a span only what its row there tells |
| SpanFilters.PrefixIsNamespaceIff | clickhouse/traces_facets.go:46-58 | comparing the prefix of `Server` is comparing its namespace, for all servers, iff the value has no slash or is `n/a` |
| SpanFilters.RoundDownIs | ch/client.go:368 | the bucket of a duration is the greatest bound that is not above it |
| SpanFilters.BucketOfDuration | ch/client.go:368 | of the twelve bounds, the greatest not above the duration |
| TracesWindows.NewTracesWindow | clickhouse/traces.go:178-196 | the step of a view of at most an hour is the least listed one that needs at most 60 steps, of a longer one the view's in whole minutes; the window starts with a step and ends now, or with a whole step that reaches the end of the view |
| TracesWindows.ChartStepIsLeast | clickhouse/traces.go:150-155 | the least whole number of minutes that is not below the step |
| TracesWindows.CoversIff | clickhouse/traces.go:189 | the window starts no later than the view iff the view does not start inside a step before the epoch |
| TracesWindows.ExactlyOneBucket | clickhouse/traces.go:111-114 | every instant of the window is in exactly one of its buckets, the one the query groups it in: the guard on the index never drops a row |
| TracesWindows.PointsAreWhole | clickhouse/traces.go:200-208 | the last bucket starts inside the window and ends at its end or after it |
| TracesWindows.PastIsWhole | clickhouse/traces.go:190-194 | a past window is a whole number of buckets |
| TracesWindows.FewBuckets | clickhouse/traces.go:157-161 | a view of at most an hour has at most 61 buckets |
| TracesWindows.LongViewsAreAligned | clickhouse/traces.go:210-216 | a longer one can always be read in whole minutes |
| TracesHistogram.GetRootSpansCounts | clickhouse/traces.go:67-129 | for a window that starts with a step, as `NewTracesWindow` makes them: whichever table answers, every point of both charts is the number of matching spans of its bucket that the table has in the window, and NaN iff there are none |
| TracesHistogram.RootSpansFilter | clickhouse/traces.go:1058-1066 | one span per request: root, counted, not from an excluded address, as the filters ask |
| TracesHistogram.MatchesRow | clickhouse/traces.go:1058-1066 | said of the row: no parent, counted, its peer not excluded, and as the filters ask |
| TracesHistogram.PointOfStatus | clickhouse/traces.go:67-129 | a span is counted at a point of a status iff it matches, has that status, and starts in the seconds of the point and of the window |
| TracesHistogram.FiltersOnHistogramDimensions | clickhouse/traces.go:1100-1111 | all filters are on fields the histogram has |
| TracesHistogram.AddCount | clickhouse/traces.go:133-146 | one point of one key grows by the count, from nothing or from what it was; no other point changes |
| TracesHistogram.AnswerCounts | clickhouse/traces.go:68-94 | the rows of either table's answer, over any set of cells, count the matching spans the table has in the window; spans from before the view was created are outside it |
| TracesHistogram.HistogramIsRawAndOverhang | clickhouse/traces.go:210-216 | a point read from the histogram is that of raw spans and the matching spans of the rest of the last minute |
| TracesHistogram.HistogramIsRawIff | clickhouse/traces.go:210-216 | the two tables give the same charts iff there is no such span |
| TracesHistogram.AlignedEndHasNoOverhang | clickhouse/traces.go:76 | a window that ends with a minute has none |
| TracesHistogram.OverhangIsCounted | clickhouse/traces.go:210-216 | a live view of two hours in which the histogram counts such a span |
| TracesHistogram.ChartsAddUp | clickhouse/traces.go:57-64 | in each bucket the status classes and the duration buckets both add up to its matching spans |
| TracesHistogram.PointsAddUp | clickhouse/traces.go:111-117 | and the buckets add up to all matching spans of the window |
| Migrations.RunsKeepInv | ch/migrations.go:77-110 | every interleaving of replicas, with failures and crashes between any two steps and no wipe, keeps the log a history of statements in order, each version recorded once its migration ran to its end |
| Migrations.VersionMeansMigrated | ch/migrations.go:96-103 | a recorded version v means that migrations 1..v ran to completion, in order, and are in effect |
| Migrations.NilMeansMigrated | ch/migrations.go:73-110 | a replica whose call returned nil left the version at least at the number it knows, with all of it in effect |
| Migrations.StepsAreSafe | ch/migrations.go:91-95 | no step lowers the version, and a replica that knows fewer migrations changes nothing |
| Migrations.VersionNeverDecreases | ch/migrations.go:77-110 | over a run the recorded version never goes down |
| Migrations.MigratedIff | ch/migrations.go:96-103 | running the statements from a start on completes what is known iff those before the start were in effect |
| MigrationWipes.NilMeansMigratedIff | ch/migrations.go:77-110 | over every run, wipes included: when a call returns nil, all its replica knows is in effect iff the call found everything before its start in effect and no wipe came after its first statement |
| MigrationWipes.RunsFollow | ch/migrations.go:77-110 | in every run, wipes included, what is in effect beside what a call found is exactly what it ran since it started, or since the last wipe |
| MigrationWipes.PresentIsInEffect | ch/migrations.go:59-71 | what is there is what took effect since the last wipe |
| MigrationWipes.StaysInEffect | ch/migrations.go:59-71 | what is in effect stays until the next wipe |
| MigrationWipes.LostUntilWipe | ch/migrations.go:83-95 | a statement of a recorded migration that is missing beside the sentinel is run by no call until the next wipe |
| MigrationWipes.NilWithoutTheSchema | ch/migrations.go:83-105 | a run in which a wipe and a failure of the first migration are followed by a call that returns nil with a statement missing |
| Migrations.WipeCanLoseTheSchema | ch/migrations.go:83-105 | the part of that run up to the failed call, which leaves the sentinel and the recorded version |
| Migrations.Stores.DropAll | ch/migrations.go:112-115 | an outside wipe leaves the recorded version and nothing else |
| Migrations.Stores.Migrate | ch/migrations.go:77-110 | one call starts at the recorded version, or anew without the sentinel, runs the statements from there in order, is a run of the protocol, and fails only if a call to a store did; all it knows is in effect after it iff what was before its start was |
| Migrations.Stores.ExecMigration | ch/migrations.go:59-71 | all statements of one migration, or an error if one of them failed |
| Migrations.Stores.RunStatement | ch/migrations.go:60-69 | a statement that fails may have taken effect |
| Migrations.Stores.RecordVersion | ch/migrations.go:100-102 | so may the recording of a version |
| Migrations.Stores.FindVersion | ch/migrations.go:79-95 | where a call starts |
| Switchovers.PrimarySeries | constructor/events.go:71-105 | each sample is the number of the only primary, a conflict of several, or NaN |
| Switchovers.CalcSwitchovers | constructor/events.go:106-135 | the events' (from, to) are exactly the values next to each other in the series without NaN and conflicts; each starts where the old primary first is not seen, and ends where the new one is |
| Switchovers.CompactChanges | constructor/events.go:118-132 | values next to each other in that list differ |
| Switchovers.OneAfterAnother | constructor/events.go:106-135 | Start ≤ End < next Start, and each event starts from where the one before went |
| Switchovers.SwitchoversAreUnique | constructor/events.go:106-135 | the conditions on the events leave nothing open: a series has one such list |
| Switchovers.StartsWhenLostIff | constructor/events.go:121-123 | every event starts when its old primary was last lost iff no primary comes back after a gap or a conflict before another takes over |
| Switchovers.EarlyStart | constructor/events.go:121-123 | the series 0, NaN, 0, 1, whose event starts at the NaN |

## Left out

- Protobuf, hex, HTTP and ch-go encoding, and the spelling of SQL: columns are sequences of cells and queries are conditions with an evaluator. The 27 column objects of a batch are one map from column to cells.
- The `net`, `url`, `strconv` and `unicode` packages, xxhash, `match()` and ClickHouse's tokenizer are function parameters; two bodies with one hash are not told apart. LogFilters holds for any parser of the search box, of which `MessageSearch.ParseMessageSearch` is the one.
- What the directory names the sides of a span (`SpanApplications`, with `peerApplication`, `guessApplication` and its cache) is a function parameter of a write; only the owners of addresses are modelled.
- Goroutines, tickers and locks: `Add`, a tick, the two reads and `Close` are atomic steps with one reading of the clock each.
- ClickHouse's TTL, replication lag, sharding, partitions, time zones and read errors (except where a row says so), and float32 precision of chart points.
- Assumed of the clock in RequestCounting and RecentAddresses: it does not go back, and no remembered row is from the future.
- TraceErrors: the final grouping of errors by service and labels; traces in which the walk from an error does not end, where the code may not end either.
- AddressOwners: that the claims of one application turn up together; the orders are all those of the claims.
- The histogram of `GetTraceSpanStats`, `getSpansHistogram`, trace facets, `SelectionFilter`, `loadBodies` and `GetTracesViolatingSLOs`: easier forms of what is modelled, or with another end of the window.
- The order of the series of a log histogram in its list (by severity).
- BodyBorrowing: the spans of a page are an array of values; one span listed twice by the same pointer is not modelled.
- Switchovers: the grouping of instances into subclusters and the names in the texts of events; `calcUpDownEvents`.
- Migrations: a statement that ran is in effect until a wipe, and running it again changes nothing. The lock is not broken: that Postgres gives it up when its session dies (`db/lock.go:23-36`) while the call goes on is not a step of the model, and a replica that lost it so could record a lower version after a higher one.
- The log, metrics and profile batches, the space manager, auditors, other constructors, API handlers, configuration and cloud pricing.
