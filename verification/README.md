# PMDA++ in Dafny

PMDA++ is a header library for writing PCP agents (PMDAs) in C++. An agent describes its metrics in two levels
(clusters, and items within a cluster), the library compiles that description into the two flat tables that PCP works
from, dispatches PCP's fetch and store requests to the agent's virtual functions, and prints the description as a PMNS
file and a help file. This project models that logic, and the `simple` example agent that runs on top of it, and proves
what holds of every description, every request and every run.

## What is modelled

| module | models |
|---|---|
| `Pcp` | PMID and instance-domain bit fields, return codes, the chain of catch clauses |
| `OrderedKeys`, `Flattening`, `FirstWins`, `Sequences` | the iteration order of `std::map`, nested loops over it, `std::map::insert`, searching |
| `Catalog`, `Builder` | instance domains (classes: their identity matters), descriptions, the chained functors |
| `Registration`, `Initialization` | `count_metrics`, `allocate_pmda_indom`, the fill loop and the closing loop of `initialize_pmda` |
| `Dispatch`, `DispatchLaws`, `DispatchCodes` | `on_fetch_callback`, `on_store`, `validate_instance` for an arbitrary agent |
| `PmnsSpec`, `PmnsPrinter`, `Pmns`, `PmnsRoundTrip`, `PmnsLayout` | the three printing passes, a reader for PMNS text, the round trip, and the layout of the file |
| `Help`, `HelpRoundTrip` | `export_help_text`, a reader for help text, and the round trip |
| `TextRequests` | `on_text`, and which identifiers reach which domain in the registry that `initialize_pmda` leaves behind |
| `SimpleAgent`, `SimpleClass`, `SimpleLaws` | the `simple` agent: state machine, the class that refines it, laws over every run |
| `Composed`, `SimpleReturns` | `simple` behind the dispatcher, over every sequence of requests: what reaches it, and what it returns |
| `Text`, `Version` | splitting, joining, decimal numerals; the runtime-version query |

Code that changes things step by step is a class or a method with loops, tied by its postcondition to a specification
function (`Builder.Apply`, `Registration.FirstUse` and `TableRow`, `Dispatch.StoreRun`, `PmnsSpec.PmnsText`,
`SimpleAgent.Step`); the lemmas then say what that function means, without naming its steps.

Decisions that a reader should know:

- A `std::map` is a finite map together with the one ascending listing of its keys (`OrderedKeys.InOrder`, unique by
  `OrderedKeys.ListingIsUnique`). Exceptions are values of `Pcp.Thrown`. PCP's named return codes are symbolic; what its
  headers promise of their signs is `Pcp.ReadsAs`.
- `PMDA_PMID` cuts each id to the width of its bit field (item 10 bits, cluster 12). The id types of the library are
  wider than the fields, so the lemmas about decoding say for exactly which ids they hold.
- Functions of libpcp are taken by contract: `pmdaInit` fills in the domain bits of PMIDs, of non-null metric instance
  domains and of `it_indom`; the instance cache gives a name one id for good (`idOf`), and its errors are inputs.
- The clock, file contents, modification times, `open` and `stat` outcomes, `__pmProcessRunTimes` and what `pmdaStore`
  returns are inputs of the step that uses them. `double` is `real`. The version query is modelled with a 64-bit
  `unsigned long`, `strtoul`'s saturation and sign included.
- An agent is two functions over an arbitrary state plus the current contents of its instance domains, so the laws of the
  dispatcher hold for every agent, also for one that changes its domains while a request is served.
- `ids` in `Help.ExportHelpText` is a ghost name for the domain ids of the objects at the time of the export; such a map
  always exists, and the method neither reads nor needs it.
- `opens` in the two exports says whether the output file could be opened; if not, they throw before writing anything.
- `SimpleAgent.State.strayed` records an index outside the colour array instead of excluding it. `SimpleClass.FetchValue`
  and `StoreValue` require the index to be in bounds, as the C++ does; `Composed.NeverStrays` proves that the dispatcher
  always provides that.

## Where the code differs from what one would expect

The model follows the code in each case.

- `simple.time.user` and `simple.time.sys` are crossed: item 3, declared as "sys", returns the user time
  (example/simple/simple.cpp:111). `UserReportsUserTime` says exactly when the difference is invisible.
- A metric's `m_desc.indom` is the dense index of its domain, while the domain's own entry carries the user-defined id
  (include/pcp-cpp/pmda.hpp:895 and :1534). `AllIndomsAgree` proves that the two identify the same domain for every metric
  exactly when domains are numbered in the order of their first use.
- Pass two of the PMNS export remembers the last group name in a function-level static (include/pcp-cpp/pmda.hpp:1445), so
  a later export can lose its first group heading. `ListedAreOpened` and `SecondExport` give the exact condition.
- `on_store` returns 0 also when an agent throws an exception whose code is 0. `ZeroIsReliableIff` says exactly for which
  agents and fallbacks 0 means that every value was stored.
- Looking up an inactive cache entry throws the entry's status, a positive number (include/pcp-cpp/cache.hpp:93-104), and
  `on_fetch_callback` returns it without having set a value (include/pcp-cpp/pmda.hpp:1103 and :1111-1115), as if the fetch
  had succeeded. `PositiveWithoutValue` says exactly when that happens to `simple`, and `InactiveFetchExample` is a run that
  gets there.
- `on_text` looks an instance domain up by the domain field of the identifier (include/pcp-cpp/pmda.hpp:1233-1234), but in
  an identifier that PCP completed that field holds the agent's domain number, the same for all its domains.
  `PcpIdentReachesIff` gives the exact condition, `PcpIdentsReachOneDomain` shows that at most one domain can meet it, and
  `SimpleIdentsReachNothing` is the case of `simple`, where none does.
- Clusters that share a name but are not adjacent open the same PMNS group twice. `NameSpaceIff` says exactly when the
  exported file lists and opens every group once.
- A configuration file of `simple` that goes missing for one batch and comes back with its old modification time is not
  loaded again (`RestoredFileStaysInactive`; `ActivityLaw` covers every run).

## Model

| member | source | states |
|---|---|---|
| Pcp.PmIdDecodes | test/unit/src/fake_libpcp.cpp:40-44 | decoding a PMID, with or without domain bits, gives back the cluster and item it was built from iff cluster < 4096 and item < 1024 |
| Pcp.PmIdOrder | test/unit/src/fake_libpcp.cpp:40-44 | in range, comparing PMIDs is comparing (cluster, item) pairs lexicographically |
| Pcp.DomainBitsKeepOrder | test/unit/src/fake_libpcp.cpp:40-44 | filling in the domain bits keeps the order of PMIDs |
| Pcp.CompletedDomainField | test/unit/src/fake_libpcp.cpp:47-57 | the domain field of an instance domain identifier that PCP completed is the agent's domain number; its serial field is kept |
| Pcp.CompletedPmIdDomain | test/unit/src/fake_libpcp.cpp:40-44 | the domain field of a PMID that PCP completed is the agent's domain number |
| OrderedKeys.ListingIsUnique | include/pcp-cpp/pmda.hpp:868-874 | a set has one ascending listing, so the iteration order of an ordered map is well defined |
| OrderedKeys.Iterate | include/pcp-cpp/pmda.hpp:1365-1366 | stepping an iterator from begin to end yields every key once, ascending in the map's order |
| OrderedKeys.IterateIds | include/pcp-cpp/pmda.hpp:868-874 | the same for maps with numeric keys |
| FirstWins.InsertAllKeepsFirst | include/pcp-cpp/instance_domain.hpp:136-141 | after a run of insertions a key that was present keeps its value, and a new key has the value of its first insertion |
| Catalog.InstanceDomain.AddInstance | include/pcp-cpp/instance_domain.hpp:136-167 | inserts an instance; the first description of an id stays |
| Catalog.RowsAreTheCatalog | include/pcp-cpp/pmda.hpp:868-874 | the nested iteration visits every described metric, nothing else, in strictly ascending (cluster, item) order |
| Builder.MetricCluster.Add | include/pcp-cpp/metric_description.hpp:182-264 | adds a metric; the first description of an item stays |
| Builder.MetricsDescription.constructor | include/pcp-cpp/metric_description.hpp:285-290 | a new description is empty and has no current cluster |
| Builder.MetricsDescription.Open | include/pcp-cpp/metric_description.hpp:305-311 | refines the specification step: insert the cluster if its id is new, make that id current, leave other cluster objects alone |
| Builder.MetricsDescription.Add | include/pcp-cpp/metric_description.hpp:338-446 | refines the specification step: throws the generic error without a current cluster (and changes nothing), else adds to the current cluster only |
| Builder.CurrentIsLastOpened | include/pcp-cpp/metric_description.hpp:305-311 | after any run of calls the current cluster is the one opened last, also when it was re-opened |
| Builder.FailsWithoutCluster | include/pcp-cpp/metric_description.hpp:428-446 | a metric call throws iff no cluster call came before it |
| Builder.KeysAreIds | include/pcp-cpp/metric_description.hpp:305-311 | after any run, every cluster is filed under its own id |
| Builder.ClusterIsFirstOpened | include/pcp-cpp/metric_description.hpp:305-311 | a cluster exists iff it was opened, and has the name it was first opened with |
| Builder.MetricIsFirstAdded | include/pcp-cpp/metric_description.hpp:182-264 | a (cluster, item) exists iff the item was added while that cluster was current, and has the first description so added |
| Registration.InternedIffUsed | include/pcp-cpp/pmda.hpp:883-893 | a domain object is interned iff some metric uses it |
| Registration.InternedInOrder | include/pcp-cpp/pmda.hpp:883-893 | indices are given in order of first use over the traversal |
| Registration.FirstUseDistinct | include/pcp-cpp/pmda.hpp:883-893 | no domain object is interned twice |
| Registration.TableRowSays | include/pcp-cpp/pmda.hpp:880-899 | a row carries its own description's type, semantic, units and opaque pointer, its ids cut to their fields, and the index of its own domain object or the null identifier |
| Registration.CountMetrics | include/pcp-cpp/pmda.hpp:1511-1529 | returns the number of metrics and the number of distinct domain objects |
| Registration.AllocatePmdaIndom | include/pcp-cpp/pmda.hpp:1531-1543 | a fresh array of exactly the domain's size is filled with the ids and names of all of its instances in strictly ascending order of id; the entry carries the domain's id and size |
| Registration.Intern | include/pcp-cpp/pmda.hpp:883-895 | the id map and the domain list stay mutually inverse; a domain's entry is built when it is first met, from that very object, in the next slot and no other; the index asserts hold |
| Registration.IndomFor | include/pcp-cpp/pmda.hpp:883-898 | a metric's identifier is the position of its domain in order of first use, or the null identifier |
| Registration.StoreMetric | include/pcp-cpp/pmda.hpp:878-899 | the next metric slot, and no other, is written; rows written before keep their meaning as domains are added |
| Registration.FillRow | include/pcp-cpp/pmda.hpp:877-900 | one iteration writes the next metric slot, the next domain slot if the domain is new, and no other slot |
| Registration.FillCluster | include/pcp-cpp/pmda.hpp:871-901 | one cluster's iterations extend the filled prefix of both tables by that cluster's rows, change no other slot, and leave every slot's write count at one or zero |
| Registration.FillTables | include/pcp-cpp/pmda.hpp:867-902 | the whole traversal fills both tables, each slot written once |
| Registration.BuildTables | include/pcp-cpp/pmda.hpp:862-905 | both tables, sized by the counting pass, are filled completely and in bounds, every slot written exactly once; each row says, field by field, what its description says; every assert holds |
| Initialization.PmdaInit | include/pcp-cpp/pmda.hpp:910-911 | contract for PCP's call: domain bits are filled in, nothing else changes |
| Initialization.CompletedRowSaysIt | include/pcp-cpp/pmda.hpp:880-911 | the same field by field after PCP's completion, with the agent's domain number in both identifiers |
| Initialization.BuildCompletedTables | include/pcp-cpp/pmda.hpp:856-911 | the tables as PCP leaves them, slot by slot |
| Initialization.Registry.RecordDomain | include/pcp-cpp/pmda.hpp:915-918 | a domain learns PCP's id and is filed under both of its ids, where an id that is taken stays taken |
| Initialization.Registry.RecordDomains | include/pcp-cpp/pmda.hpp:913-919 | every domain learns its own table entry's id; the registry is the first-wins insertion of both ids of each domain in order |
| Initialization.Registry.InitializePmda | include/pcp-cpp/pmda.hpp:856-919 | the whole operation: tables (every row field by field), domain ids and registry for every description |
| Initialization.RowIndexCountsSmallerPairs | include/pcp-cpp/pmda.hpp:867-901 | a row's index is the number of lexicographically smaller (cluster, item) pairs of the description |
| Initialization.PmidsAscend | include/pcp-cpp/pmda.hpp:881-899 | with ids in range the PMIDs in the metric table are strictly increasing, hence unique |
| Initialization.IndexNamesDomain | include/pcp-cpp/pmda.hpp:883-895 | a metric's index names exactly its own domain object; two metrics share an index iff they share the object |
| Initialization.MetricIndomAgreement | include/pcp-cpp/pmda.hpp:895-919 | PCP's domain id of a metric equals that of its domain object iff dense index and user id agree outside the domain bits |
| Initialization.AllIndomsAgree | include/pcp-cpp/pmda.hpp:895-919 | they agree for every metric iff the domains are numbered in the order of first use |
| Initialization.IndomDisagreementExample | include/pcp-cpp/pmda.hpp:895-895 | a description for which they do not |
| Dispatch.ValidateIffAccepts | include/pcp-cpp/pmda.hpp:1545-1563 | validation passes iff the metric has no domain and no instance is given, or its live domain holds the given instance; the instance error is thrown iff it has a domain that lacks it |
| Dispatch.Pmda.OnFetchCallback | include/pcp-cpp/pmda.hpp:1077-1123 | the code, the value and the agent's new state, for every PMID and instance and every exception |
| Dispatch.Pmda.StoreOne | include/pcp-cpp/pmda.hpp:1171-1192 | one value is validated, then offered to the agent: one step of the specification run |
| Dispatch.Pmda.StoreSet | include/pcp-cpp/pmda.hpp:1161-1192 | the inner loop over one value set extends the specification run, or ends the whole request with its first failure |
| Dispatch.Pmda.OnStore | include/pcp-cpp/pmda.hpp:1154-1210 | the nested loops with early exit compute the specification run over the flattened request |
| Dispatch.FailureEndsRun | include/pcp-cpp/pmda.hpp:1193-1208 | nothing after the first failure has any effect |
| DispatchLaws.FetchReachesItsRow | include/pcp-cpp/pmda.hpp:1083-1098 | a fetch through any table row with ids in range reaches the agent with that row's description's type and opaque pointer, for exactly the accepted instances |
| DispatchLaws.RowDecodesIffInRange | include/pcp-cpp/pmda.hpp:881-882 | a row's PMID decodes to the row's own key iff the ids fit their fields |
| DispatchLaws.StoreIsPrefix | include/pcp-cpp/pmda.hpp:1157-1192 | the values before the first failure are all stored and stay stored; the failing value is offered iff it passes validation; nothing later is touched |
| DispatchLaws.CallsAreTheFirstValues | include/pcp-cpp/pmda.hpp:1157-1192 | the calls on the agent are the first values of the request, in order |
| DispatchLaws.OffersAreGuarded | include/pcp-cpp/pmda.hpp:1172-1184 | the agent is only offered known, storable metrics with an instance that the domain holds at that moment |
| DispatchLaws.StoreReturnsZero | include/pcp-cpp/pmda.hpp:1157-1209 | for one request: which ways of ending give the code 0 |
| DispatchLaws.ZeroMeansStored | include/pcp-cpp/pmda.hpp:1190-1192 | for an agent that never throws code 0 under an id it can be offered (and a non-zero fallback), 0 is returned iff nothing failed and there was a value |
| DispatchLaws.ZeroMisleads | include/pcp-cpp/pmda.hpp:1193-1197 | an agent that throws code 0 under some id it can be offered has a failed one-value request reported as success |
| DispatchLaws.ZeroIsReliableIff | include/pcp-cpp/pmda.hpp:1157-1209 | over all descriptions, states and requests, 0 means "nothing failed and there was a value" iff the fallback is not 0 and the agent never throws 0 under an id it can be offered |
| DispatchLaws.ZeroCanMeanFailure | include/pcp-cpp/pmda.hpp:1193-1197 | an agent that throws code 0 has a rejected request reported as success |
| DispatchCodes.StoreReturnsFirstVerdict | include/pcp-cpp/pmda.hpp:1157-1209 | a store request returns the code of its first value that is not stored, in every case: unknown metric, instance missing from the domain, any other unaccepted instance, read-only metric, or whatever the agent throws; every value before it was stored |
| DispatchCodes.CallsAreTheOffers | include/pcp-cpp/pmda.hpp:1185-1189 | the agent is offered exactly the stored values and then the first other one if it is known, storable and accepted, each with its own ids, the metric's type, no opaque pointer and its own value |
| DispatchCodes.FetchCodes | include/pcp-cpp/pmda.hpp:1080-1122 | for every PMID and instance: the code of a refused fetch, or the agent's own value and code, or the code of what it throws |
| DispatchCodes.RequestValue | include/pcp-cpp/pmda.hpp:1160-1189 | where each value of a request stands in the flattened request, and what it carries: the ids in its set's PMID, its instance as an unsigned number, and its value in place or its block |
| DispatchCodes.RequestSets | include/pcp-cpp/pmda.hpp:1160-1170 | the sets follow one another without gaps, and a set with a negative count has no values |
| PmnsSpec.LongestNameIsLeastWidth | include/pcp-cpp/pmda.hpp:1413-1426 | pass one finds the least width that every metric name fits |
| PmnsSpec.LongestFits | include/pcp-cpp/pmda.hpp:1439-1442 | that width fits every name of every cluster, so the unsigned padding never underflows in either pass |
| PmnsSpec.MetricColumn | include/pcp-cpp/pmda.hpp:1471-1474 | in every metric line the PMID starts 8 columns past the longest name, with only spaces between |
| PmnsSpec.UpperLetters | include/pcp-cpp/pmda.hpp:1393-1394 | each lower-case letter becomes its capital, and other characters stay |
| PmnsLayout.PmnsColumns | include/pcp-cpp/pmda.hpp:1439-1474 | in every metric line of the exported text the PMID starts 8 columns past the longest name, after four spaces, the name, and spaces |
| PmnsLayout.PmnsLaidOut | include/pcp-cpp/pmda.hpp:1404-1482 | the macro is defined once, under its own conditional, which is closed before anything else; every blank line of the file stands before the conditional, before a group, or at the end |
| PmnsLayout.PmnsStartsWithMacro | include/pcp-cpp/pmda.hpp:1407-1411 | the first four lines of the exported text, to the letter |
| PmnsPrinter.LineStream.WriteLine | include/pcp-cpp/pmda.hpp:1429-1429 | the stream's text is always the text of the lines written, in order |
| PmnsPrinter.LongestMetricName | include/pcp-cpp/pmda.hpp:1413-1426 | pass one's nested loops compute the longest name |
| PmnsPrinter.WriteMetrics | include/pcp-cpp/pmda.hpp:1436-1443 | appends the lines of one cluster's metrics, in order |
| PmnsPrinter.Exporter.WriteListing | include/pcp-cpp/pmda.hpp:1428-1452 | pass two appends its specification's lines and leaves the static name as specified |
| PmnsPrinter.WriteGroup | include/pcp-cpp/pmda.hpp:1460-1477 | one step of pass three: closes and opens a group exactly when the name changes |
| PmnsPrinter.WriteGroups | include/pcp-cpp/pmda.hpp:1454-1479 | pass three appends its specification's lines |
| PmnsPrinter.Exporter.ExportPmnsData | include/pcp-cpp/pmda.hpp:1389-1483 | the whole file's text, and the static name left behind, for every earlier static name; a file that does not open throws and changes nothing |
| Pmns.LineReads | include/pcp-cpp/pmda.hpp:1404-1482 | the reader recovers every kind of line from its printed form |
| Pmns.TextReads | include/pcp-cpp/pmda.hpp:1404-1482 | reading the printed text is reading the lines |
| PmnsRoundTrip.ListingReads | include/pcp-cpp/pmda.hpp:1428-1453 | a reader of pass two finds the ungrouped metrics, and the group names with adjacent repeats removed |
| PmnsRoundTrip.GroupingReads | include/pcp-cpp/pmda.hpp:1454-1481 | a reader of pass three finds the grouped metrics, each in its own group, and the groups opened |
| PmnsRoundTrip.PmnsReadsBack | include/pcp-cpp/pmda.hpp:1404-1482 | reading the exported text succeeds, braces balance, the ungrouped rows come first and the grouped rows follow, and groups are listed and opened as named |
| PmnsRoundTrip.FileRowsAscend | include/pcp-cpp/pmda.hpp:1430-1477 | the ungrouped rows and the grouped rows are each in strictly ascending order of (cluster, item) |
| PmnsRoundTrip.RowsArePartitioned | include/pcp-cpp/pmda.hpp:1433-1477 | the ungrouped and the grouped rows together are all rows, with multiplicity |
| PmnsRoundTrip.EveryMetricOnce | include/pcp-cpp/pmda.hpp:1433-1477 | the file holds every metric's row (group path, name, domain, cluster, item) exactly once |
| PmnsRoundTrip.NothingElse | include/pcp-cpp/pmda.hpp:1433-1477 | every row of the file is some metric's row |
| PmnsRoundTrip.StaleNameHidesFirstHeading | include/pcp-cpp/pmda.hpp:1444-1450 | whatever the static name is, pass two omits at most the first heading, and does so iff the two are equal |
| PmnsRoundTrip.ListedAreOpened | include/pcp-cpp/pmda.hpp:1430-1481 | the groups listed in pass two are those opened in pass three iff no stale name equals the first one |
| PmnsRoundTrip.ListingRemembers | include/pcp-cpp/pmda.hpp:1445-1449 | pass two leaves behind the last cluster name |
| PmnsRoundTrip.SecondExport | include/pcp-cpp/pmda.hpp:1444-1450 | a second export lists every group iff the first named cluster's name differs from the last one's |
| PmnsRoundTrip.SecondExportExample | include/pcp-cpp/pmda.hpp:1444-1450 | with one named cluster the second export lists no group |
| PmnsRoundTrip.NameSpaceIff | include/pcp-cpp/pmda.hpp:1430-1481 | every group of the file is listed once and opened once iff no stale name hides the first heading and equal cluster names are adjacent |
| PmnsRoundTrip.RepeatedGroupExample | include/pcp-cpp/pmda.hpp:1462-1467 | three clusters that open one group twice |
| Help.StringLessIsStrictTotal | include/pcp-cpp/pmda.hpp:1328-1328 | the order of strings is a strict total order, so help entries have one order |
| Help.StringLessIff | include/pcp-cpp/pmda.hpp:1328-1328 | it is the lexicographic order: the first difference decides, and a proper prefix comes first |
| Help.HelpIsFirstBearers | include/pcp-cpp/pmda.hpp:1331-1346 | a name has help iff some metric bears it, and it is the help of the metric with the least (cluster, item) among those |
| Help.DomainHelpIsFirstUsed | include/pcp-cpp/pmda.hpp:1347-1349 | an id has instance help iff a metric's domain has that id, and it is the first such domain used |
| Help.CollectOne | include/pcp-cpp/pmda.hpp:1339-1349 | one metric is inserted in both maps; entries that are there stay |
| Help.Collect | include/pcp-cpp/pmda.hpp:1327-1351 | the traversal computes both maps |
| Help.WriteMetrics | include/pcp-cpp/pmda.hpp:1365-1373 | appends the text of the metric entries that `MetricHelpSays` is about |
| Help.WriteDomains | include/pcp-cpp/pmda.hpp:1374-1386 | appends the text of the instance entries that `DomainHelpSays` is about |
| Help.WriteInstances | include/pcp-cpp/pmda.hpp:1377-1385 | appends the text of one domain's entries, ascending by instance id |
| Help.ExportHelpText | include/pcp-cpp/pmda.hpp:1325-1387 | the whole file's text; a file that does not open throws |
| HelpRoundTrip.NamesMatchPmns | include/pcp-cpp/pmda.hpp:1341-1345 | a metric's full name is its path in the PMNS file and its name, joined by a dot |
| HelpRoundTrip.EntriesRead | include/pcp-cpp/pmda.hpp:1363-1386 | a reader that insists on the blank lines recovers entries from their text, with verbose texts of any number of lines |
| HelpRoundTrip.HelpReadsBack | include/pcp-cpp/pmda.hpp:1363-1386 | reading the exported text gives the metric entries, then the instance entries, and nothing else |
| HelpRoundTrip.MetricHelpSays | include/pcp-cpp/pmda.hpp:1331-1373 | the metric entries have strictly ascending subjects, every metric's full name is among them, and each has the short and the verbose text of the least (cluster, item) that bears the name |
| HelpRoundTrip.DomainHelpSays | include/pcp-cpp/pmda.hpp:1374-1386 | the instance entries are in strictly ascending order of (domain id, instance id), one for every instance of every domain, with both ids as subject and that instance's two texts |
| TextRequests.OnText | include/pcp-cpp/pmda.hpp:1213-1264 | the text chosen for a metric or an instance, or none when it is unknown or empty |
| TextRequests.RegistryHolds | include/pcp-cpp/pmda.hpp:914-919 | a key of the registry holds the first domain whose user id or PCP id it is |
| TextRequests.ReachesIff | include/pcp-cpp/pmda.hpp:1233-1234 | an identifier reaches a domain iff the domain is the first to be filed under the identifier's domain field |
| TextRequests.PcpIdentReachesIff | include/pcp-cpp/pmda.hpp:1233-1234 | PCP's identifier of a domain reaches it iff the domain is the first to be filed under the agent's domain number |
| TextRequests.PcpIdentsReachOneDomain | include/pcp-cpp/pmda.hpp:1233-1234 | PCP's identifiers reach at most one domain of an agent |
| TextRequests.UserIdentReachesIff | include/pcp-cpp/pmda.hpp:1233-1234 | an identifier made of a user id and an instance selects both iff the domain is the first to be filed under that id |
| TextRequests.UserIdentsReach | include/pcp-cpp/pmda.hpp:914-919 | with distinct user ids and a domain number that is not a multiple of 512, that is every domain |
| TextRequests.SimpleIdentsReachNothing | include/pcp-cpp/pmda.hpp:1233-1234 | for the domain number and domain ids of `simple`, PCP's identifiers reach no domain |
| SimpleClass.FieldAt | example/simple/simple.cpp:211-216 | one step of the two-index loop takes exactly the next comma-separated field off the line |
| SimpleClass.TokenStep | example/simple/simple.cpp:211-216 | the loop invariant: positions stay within the line and what remains is the split of the rest |
| Text.JoinSplit | example/simple/simple.cpp:211-216 | the fields contain no comma, and joining them with commas gives back the line |
| Text.SplitJoin | example/simple/simple.cpp:211-216 | splitting a join of comma-free fields gives back the fields, empty ones included |
| SimpleClass.PmdaCache.Store | include/pcp-cpp/cache.hpp:300-308 | contract: a stored name's entry is active under the name's one id, or the error is thrown and nothing changes |
| SimpleClass.PmdaCache.DeactivateAll | include/pcp-cpp/cache.hpp:210-217 | contract: all entries become inactive, or the error is thrown and nothing changes |
| SimpleClass.PmdaCache.Lookup | include/pcp-cpp/cache.hpp:83-108 | contract: the entry's opaque value, or an exception if it is missing or inactive |
| SimpleClass.Simple.constructor | example/simple/simple.cpp:43-52 | the object starts in the initial state of the state machine |
| SimpleClass.Simple.LoadName | example/simple/simple.cpp:217-228 | the loop over the timeslice table is one field step of the state machine |
| SimpleClass.Simple.LoadLine | example/simple/simple.cpp:211-234 | the tokenizer processes exactly the comma-separated fields, in order, and stops at the first error |
| SimpleClass.Simple.TimenowClear | example/simple/simple.cpp:185-191 | refines the state machine |
| SimpleClass.Simple.TimenowInit | example/simple/simple.cpp:193-240 | refines the state machine |
| SimpleClass.Simple.TimenowCheck | example/simple/simple.cpp:150-183 | refines the state machine; the modification time is remembered only after a successful load |
| SimpleClass.Simple.TimenowRefresh | example/simple/simple.cpp:242-250 | only the three time fields change |
| SimpleClass.Simple.BeginFetchValues | example/simple/simple.cpp:93-98 | refines the state machine, errors included |
| SimpleClass.Simple.FetchValue | example/simple/simple.cpp:100-129 | refines the state machine for all ids that keep the colour index in bounds; the timeslice that a cache entry points to always exists |
| SimpleClass.Simple.StoreValue | example/simple/simple.cpp:131-147 | refines the state machine for all ids that keep the colour index in bounds |
| SimpleLaws.ColourLaw | example/simple/simple.cpp:126-146 | after any run a colour is its last accepted store (else its initial value) plus the fetches of it since, modulo 256 |
| SimpleLaws.CounterLaw | example/simple/simple.cpp:93-136 | after any run the counter is its last stored value (else its initial one) plus the batches begun since, modulo 2^32 |
| SimpleLaws.InitialRunLaws | example/simple/simple.cpp:43-52 | both laws from the constructed state |
| SimpleLaws.SampleOncePerBatch | example/simple/simple.cpp:104-110 | between stores and batches at most one sample is taken: at the first time fetch, iff the counter exceeds the count last sampled |
| SimpleLaws.TimeFetchesShareSample | example/simple/simple.cpp:104-112 | every time fetch of a batch returns a component of that one sample, and item 3 returns the user time |
| SimpleLaws.UserReportsUserTime | example/simple/simple.cpp:84-111 | "user" reports the user time iff the two components are equal |
| SimpleLaws.UserReportsSystemTimeExample | example/simple/simple.cpp:111-111 | a sample for which it does not |
| SimpleLaws.StepAgrees | example/simple/simple.cpp:185-240 | every event keeps the cache and the now domain in agreement |
| SimpleLaws.CacheAlwaysAgrees | example/simple/simple.cpp:185-240 | after every run, every cache entry's id is a key of the now domain under the same name, and it points to the timeslice of that name |
| SimpleLaws.LoadActivates | example/simple/simple.cpp:211-234 | a load, failing or not, activates exactly the recognised names in front of the first store error, besides what was active |
| SimpleLaws.ReloadActivatesExactly | example/simple/simple.cpp:150-240 | whether a name is active after a batch, and which modification time is remembered, in every case of a missing, unchanged, unreadable or changed file and of any error |
| SimpleLaws.ActivityLaw | example/simple/simple.cpp:150-240 | after any run, a name is active iff the last batch that cleared the cache went on to load a line holding it in front of any store error |
| SimpleLaws.RestoredFileStaysInactive | example/simple/simple.cpp:158-181 | a file that goes missing and comes back unchanged leaves every name inactive |
| SimpleLaws.NowFetchMatches | example/simple/simple.cpp:115-119 | a fetch of a now instance returns the field of the timeslice of that name, or throws for an inactive entry |
| SimpleAgent.RunAppend | example/simple/simple.cpp:93-147 | a run of two parts is a run of the second from where the first ended |
| Composed.ChainBuildsSimpleMetrics | example/simple/simple.cpp:70-91 | the chained functor calls build exactly the five metrics, without an exception |
| Composed.RequestsAreEvents | include/pcp-cpp/pmda.hpp:1077-1210 | every run of requests is a run of the agent over the events that the dispatcher lets through |
| Composed.EveryEventIsGuarded | include/pcp-cpp/pmda.hpp:1172-1184 | `store_value` sees only (0,0) without an instance or (0,1) with instance 0, 1 or 2, and `fetch_value` only the declared ids |
| Composed.NeverStrays | example/simple/simple.cpp:126-146 | reached through the dispatcher, the agent never indexes its colours out of bounds |
| Composed.UnguardedFetchStrays | example/simple/simple.cpp:127-127 | called directly, it can |
| Composed.DispatchedNow | example/simple/simple.cpp:115-119 | after any run of requests, a dispatched fetch of `simple.now` returns the matching field, reports an inactive entry, or rejects an unknown instance |
| Composed.InactiveIff | include/pcp-cpp/cache.hpp:93-104 | a dispatched fetch throws an inactive status iff it is a fetch of a now instance whose entry is inactive |
| Composed.PositiveWithoutValue | include/pcp-cpp/pmda.hpp:1100-1115 | after any run, a dispatched fetch returns a positive code without a value iff it fetches a now instance whose entry is inactive; otherwise values have positive codes and errors negative ones |
| Composed.InactiveFetchExample | include/pcp-cpp/cache.hpp:93-104 | a run of two batches after which such a fetch happens |
| Composed.SimpleZeroIsReliable | example/simple/simple.cpp:131-147 | a store request to `simple` returns 0 iff every value was stored and there was one |
| Composed.DispatchedLaws | example/simple/simple.cpp:93-146 | the colour and counter laws over every run of requests |
| SimpleReturns.BatchThrows | example/simple/simple.cpp:93-98 | starting a batch throws exactly the first error of clearing, storing or counting that the file's state leads to, and notes the time iff it throws nothing |
| SimpleReturns.ClockLaw | example/simple/simple.cpp:242-250 | after any run "sec", "min" and "hour" hold the second, minute and hour of the last batch that threw nothing |
| SimpleReturns.DispatchedColour | example/simple/simple.cpp:126-128 | after any run of requests, a fetch of a colour returns the colour law's value with this fetch counted, as a 32-bit integer |
| SimpleReturns.DispatchedCounter | example/simple/simple.cpp:121-124 | after any run of requests, a fetch of the counter returns the counter law's value, as an unsigned integer |
| SimpleReturns.DispatchedTime | example/simple/simple.cpp:104-112 | a fetch of a time returns a component of the current sample, as a double: the user time for item 3, the system time for item 2 |
| SimpleReturns.DispatchedClock | example/simple/simple.cpp:115-119 | after any run of requests, a fetch of an active now instance returns the part of the time that its name stands for, as of the last batch that threw nothing |
| SimpleReturns.SimpleRefusals | example/simple/simple.cpp:70-91 | exactly which fetches of `simple` are refused, and with which code |
| SimpleReturns.SimpleVerdicts | example/simple/simple.cpp:131-147 | exactly which values `simple` stores, and the code for every other one |
| SimpleReturns.SimplePmnsRows | example/simple/simple.cpp:72-76 | the exported name space of `simple` is exactly the one that its source announces |
| SimpleReturns.SimplePmnsStarts | include/pcp-cpp/pmda.hpp:1407-1411 | how the exported file of `simple` starts, to the letter |
| Version.VersionByComponents | include/pcp-cpp/config.hpp:110-115 | for every string: 0 with fewer than two dots, else the encoding of the first, second and last components |
| Version.FindLastIsLast | include/pcp-cpp/config.hpp:111-111 | the last dot is the last one |
| Version.StrtoulReads | include/pcp-cpp/config.hpp:113-115 | a component is read as white space, a sign and digits; no digits give 0, overflow gives the greatest number, a minus wraps around |
| Version.VersionOfText | include/pcp-cpp/config.hpp:110-115 | "a.b.c" with components below 2^64 gives a·65536 + b·256 + c modulo 2^64 |
| Version.VersionIsExact | include/pcp-cpp/config.hpp:110-115 | "a.b.c" with components below 256 gives a·65536 + b·256 + c |
| Version.EncodingOrdersVersions | include/pcp-cpp/pmda.hpp:642-642 | comparing encodings is comparing versions, and the inet6 gate means 3.8.1 or later |

## Left out

- Registration.AllocatePmdaIndom: the array is fresh, but the table entry keeps its contents and not the array itself; that names point into map nodes is not captured.
- Registration.BuildTables: with no domains the C++ uses a null table where the model has an empty one.
- Initialization.MetricIndomAgreement: assumes fewer than 2^32 domains, beyond which the dense index would wrap.
- Initialization.AllIndomsAgree: assumes that the domain count and the user ids fit the 22-bit serial field; `MetricIndomAgreement` has the general per-metric statement.
- Initialization.PmdaInit: is PCP's function, by contract: only the filling in of domain bits is modelled, not the rest of what PCP sets up from the tables.
- Initialization.Registry.InitializePmda: `set_callbacks` between the two halves, which installs the static redirects.
- Dispatch.Pmda.OnFetchCallback: the conversion of the value to the metric's atom type is not modelled; the value and the type are passed on as a pair.
- Dispatch.Pmda.OnStore: requests whose counts exceed the arrays they come with are excluded, as the C++ reads past them.
- Pmns.LineReads: is for names that are words without `:`, not braces, and not starting with `#`; other names do not make a readable PMNS file.
- PmnsPrinter.Exporter.ExportPmnsData: stream failures after the file has opened are not modelled.
- Help.ExportHelpText: likewise.
- HelpRoundTrip.HelpReadsBack: is for names without spaces or newlines, short texts of one line, and verbose texts in which no line starts with `@ `; other texts cannot be told from new entries.
- SimpleClass.Simple.FetchValue: requires the colour index in bounds; the out-of-bounds case is in `SimpleAgent.Fetch` and is excluded for dispatched requests by `Composed.NeverStrays`.
- SimpleClass.Simple.StoreValue: likewise; the function-level statics of the agent are fields of the object, so two agents in one process are not modelled.
- TextRequests.OnText: what `pmdaText` answers when the library has no text is not modelled.
- `export_domain_header` and `export_pmns_root`: fixed lines, which would add only easy members.
- `on_fetch` past `begin_fetch_values`, `on_instance`, `on_name`, `on_pmid`, `on_profile`: forwarding to libpcp.
- `run_daemon`, `init_dso`, `set_callbacks`, the static callback redirects and the Boost command line: foreign calls and forwarding.
- `cache.hpp` beyond store, lookup by instance id and marking inactive; `atom.hpp`, `types.hpp`, `units.hpp`, `exception.hpp`: thin wrappers, casts and constants.
- The `simplecpu` and `trivial` examples: they read `/proc/stat` and the clock.
- Pointer lifetimes, and copies of a `metrics_description`, whose cursor would still refer to the original.
- The widths of the id types, which are at least 16 bits and platform-defined: ids are unbounded, and the bit fields cut them.
- Logging, and the configurations for older PMDA interfaces, without identifier checks or without Boost.
