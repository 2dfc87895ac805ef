# Roller_hoops, verified

Roller_hoops discovers the devices of a network into Postgres and serves bounded, paged views of them; a small live view
keeps a map of one device, subnet or VLAN current in the browser. This project models the parts of it that make promises
across functions, runs or workers, and proves those promises with Dafny 4.11. `dafny verify dfyconfig.toml` checks it.

The database is a set of in-memory tables, rows in creation order, whose operations follow the SQL text. Network
exchanges, external programs, the clock and address text are parameters: every theorem holds for whatever they answer.
Where the source loops and assigns, the model has a method with the same loop, proved equal to a specification function;
where it runs concurrently, the model is a state machine over single steps and the theorems are about every interleaving.

| module | models |
|---|---|
| `Orders`, `Text` | Go's `sort`, string order, `strings`, `strconv` on ASCII |
| `MapTables`, `LimitPushdown`, `MapProjection`, `MapSort`, `SelfLinks`, `MapPhysical`, `MapWellFormed`, `MapHandler` | the map endpoint and its queries |
| `MapFacts`, `MapAnswer`, `MapLayers`, `MapBranches`, `MapServices`, `MapParams` | what its answers show, said of the stored rows and the request text |
| `Params`, `Cursor`, `PageWalk`, `MovedRows`, `TimeOrder` | list parameters, cursors, keyset pagination, rows re-stamped during a walk, newest first |
| `Inet` | prefixes, the IPv4 sweep, derived subnets |
| `DiscoveryRuns`, `RunProtocol`, `ClaimOrder` | run rows, any number of workers over one runs table, the order of claims |
| `ScanConfig`, `WorkerRun`, `RunReport`, `ScanRequest` | presets and tags rewriting a worker's fields, one run from claim to settled row and what that row shows, what the API accepts |
| `ArpScrape`, `ScrapeRace` | resolving ARP entries to devices, by one worker and by several at once |
| `EnrichmentPool`, `PortScan` | the once-per-device worker pool, port scan target selection |
| `Tags`, `TagRuns`, `Links`, `Naming`, `NameChoice` | tag confidence in one run and over interleaved runs, link keys, display names and which is chosen |
| `Serializer`, `PinnedView` | the canonical printer, the pinned live view |
| `NetBios` | name encoding and node status parsing |

## What turned out not to hold as first expected

Each of these is a lemma with the exact condition or an input that shows it.

* A physical view draws the focused device twice when a stored link joins it to itself and fewer of its neighbours than
  are drawn have smaller ids; every other successful projection is well formed (`MapWellFormed.ProjectionWellFormed`,
  `MapPhysical.PhysicalCoherentIff`; a one-device input: `MapWellFormed.LoneDeviceDrawnTwice`).
* A lone IPv6 scope is counted as one target, but no address is sent (`Inet.SweepCountHonestIff`,
  `Inet.CountedButNotSwept`).
* A finished walk over a device's history returns an event that is re-stamped meanwhile, once, exactly when it never
  overtook the cursor: it is lost when, still to come, its timestamp is set to the cursor handed out or later before the
  next page is fetched (`MovedRows.EventReturnedIff`; a renamed device: `MovedRows.EventMissed`).
* Workers that scrape at once can give one MAC to several devices, at most one a worker; a write does so exactly when
  another device was written for that MAC after the writer's lookup (`ScrapeRace.WriteSplitsIff`,
  `ScrapeRace.AtMostOneDevicePerWorker`; two workers: `ScrapeRace.TwoDevicesOneMac`).
* When runs share a device, automatic tags written before its last clear are gone (`TagRuns.SurvivesLastClear`,
  `TagRuns.ClearedByAnother`).
* After a failure the poll wait can shrink, when the poll interval is above ten seconds (`ScanConfig.BackoffGrowsIff`).
* The printer sees key order when the collation ties two distinct keys, as `localeCompare` may
  (`Serializer.OrderBlindIff`).
* A pending projection can be stale when there is no latest one (`PinnedView.PendingIsLatestIff`).
* A NetBIOS group name or service row listed first hides a later unique name (`NetBios.ReturnedIff`,
  `NetBios.HiddenByGroup`).
* The key function gives a link with an interface "-" and one without an interface the same key
  (`Links.KeysCollideIff`); the ids discovery passes to it never collide (`Links.DiscoveredKeysNeverCollide`).
* Restoring the preset before the tags would leak flags (`ScanConfig.WrongOrderLeaksIff`).

## Model

| member | source | states |
|---|---|---|
| `LimitPushdown.PushdownPreservesAnswer` | core-go/internal/httpapi/map.go:271-289 | Merging per-region queries limited to the node limit gives the same included peers, the same complete region membership of each, and the same truncation as merging unlimited queries |
| `LimitPushdown.LimitIsTight` | core-go/internal/httpapi/map.go:270-272 | One row less per query would hide that a crowded region was cut |
| `LimitPushdown.UnionContract` | core-go/internal/httpapi/map.go:278-288 | The merged peers are each peer of some shown region once, ascending |
| `MapTables.PeersInCIDRMembers` | core-go/internal/sqlcgen/map_l3.go:21-31 | The L3 peer query returns exactly the existing devices owning an address in the range, focus excluded, once each and ascending |
| `MapTables.DevicesInCIDRMembers` | core-go/internal/sqlcgen/map_l3.go:10-19 | The same for subnet membership, focus included |
| `MapTables.PeersInVLANMembers` | core-go/internal/sqlcgen/map_l2.go:48-59 | The L2 peer query returns exactly the devices with a port whose PVID is the VLAN, focus excluded, once each and ascending |
| `MapTables.DevicesInVLANMembers` | core-go/internal/sqlcgen/map_l2.go:36-46 | The same for VLAN membership |
| `MapTables.DevicePVIDsMembers` | core-go/internal/sqlcgen/map_l2.go:7-13 | A device's PVIDs are exactly those of its interfaces' PVID rows, once each and ascending |
| `MapTables.LinkPeersContract` | core-go/internal/sqlcgen/map_physical.go:18-48 | Every neighbour once, ascending, through the least of its links |
| `MapTables.ServicesOfContract` | core-go/internal/sqlcgen/map_services.go:19-32 | The services of a device are exactly its rows, once each, newest first, then by protocol, port and name with NULLs last, then by id |
| `MapWellFormed.ProjectionWellFormed` | core-go/internal/httpapi/map.go:121-123 | Every successful response of every branch has distinct ascending node, region and edge ids, honest counts within limits, edges between returned nodes and regions that exist, exactly unless it is a physical view of a device that the stored rows make it draw twice |
| `MapWellFormed.WithoutSelfLinks` | core-go/internal/discoveryworker/enrichment.go:306-308 | Without a stored self link, which discovery never writes, every successful response is well formed |
| `MapWellFormed.LoneDeviceDrawnTwice` | core-go/internal/httpapi/map.go:1100-1187 | A concrete table and request whose response is not well formed |
| `MapPhysical.PhysicalCoherentIff` | core-go/internal/httpapi/map.go:1100-1187 | A physical projection is coherent unless the device exists, a stored link joins it to itself, and fewer of its neighbours than are drawn have smaller ids |
| `SelfLinks.SelfListedIff` | core-go/internal/sqlcgen/map_physical.go:18-48 | The limited neighbour query returns the device itself exactly under that condition on the stored rows |
| `SelfLinks.NeighboursExact` | core-go/internal/sqlcgen/map_physical.go:18-48 | The neighbours listed are exactly the existing devices some link joins to the device |
| `MapWellFormed.DeviceFocusCoherent` | core-go/internal/httpapi/map.go:674-777 | The L3 and L2 device projections are referentially closed and counted honestly |
| `MapWellFormed.RegionFocusCoherent` | core-go/internal/httpapi/map.go:804-856 | The same for subnet and VLAN focus |
| `MapWellFormed.ServicesFocusCoherent` | core-go/internal/httpapi/map.go:1216-1338 | The same for the services of a host |
| `MapLayers.L3DeviceAnswer` | core-go/internal/httpapi/map.go:219-289 | The layer 3 response for a device, from the stored rows: the least subnets of the addresses bound to it or its interfaces; beside it exactly the existing devices that own an address inside one shown, each in just the subnets shown that hold it, under its display name and joined to it; when too many, a full answer of the least ids, saying so |
| `MapLayers.L2DeviceAnswer` | core-go/internal/httpapi/map.go:330-420 | The layer 2 response likewise: the least positive PVIDs of its ports, exactly the existing devices with a port in one shown, each in just those, and no edges |
| `MapBranches.SubnetAnswer` | core-go/internal/httpapi/map.go:804-856 | The layer 3 response for a subnet: exactly the existing devices that own an address inside it, or a full answer of the least |
| `MapBranches.VlanAnswer` | core-go/internal/httpapi/map.go:804-856 | The layer 2 response for a VLAN from 1 to 4094: exactly the existing devices with a port in it |
| `MapBranches.PhysicalAnswer` | core-go/internal/httpapi/map.go:1100-1187 | The physical response: the device, and its existing neighbours each joined through the least link between the two, or a full answer of the least |
| `MapServices.DeviceServicesAnswer` | core-go/internal/httpapi/map.go:1216-1338 | The services response for a device: exactly its service rows, or a full answer of the first in the query's order, in the one region named after it |
| `MapServices.ServiceAnswer` | core-go/internal/httpapi/map.go:1216-1338 | The services response for a service: those of the device the row names |
| `MapServices.ServiceOrder` | core-go/internal/sqlcgen/map_services.go:28-31 | The first column in which two service rows differ decides: newer first, then protocol, port and name ascending with NULLs last, then id |
| `MapServices.ServiceCaptions` | core-go/internal/httpapi/map.go:1374-1391 | The caption of a service for every combination of missing protocol, port and name |
| `MapFacts.AddressesMean` | core-go/internal/sqlcgen/queries.go:580-589 | A device's addresses are those of rows bound to it or to one of its interfaces |
| `MapFacts.SubnetPeersMean` | core-go/internal/sqlcgen/map_l3.go:21-31 | The peers of a subnet are the existing devices, but the focus, that own an address inside it: the row's own device, else its interface's |
| `MapFacts.VlanPeersMean` | core-go/internal/sqlcgen/map_l2.go:48-59 | The peers of a VLAN are the existing devices, but the focus, with a PVID port in it |
| `MapParams.LimitsRead` | core-go/internal/httpapi/map.go:115-123 | At most 8 regions, 120 nodes and 80 edges, and no more of each than the limit parameter asks for, itself cut at 500 |
| `MapParams.AnswerLimits` | core-go/internal/httpapi/map.go:1392-1404 | Every successful response states those limits |
| `MapParams.LimitRead` | core-go/internal/httpapi/handler.go:852-867 | A limit: the default when absent, an error when not positive, else the number cut at the maximum |
| `MapParams.DepthRead` | core-go/internal/httpapi/map.go:1434-1451 | A depth: 1 when absent, an error when negative, else the number up to 3 |
| `MapParams.DeviceLookup` | core-go/internal/httpapi/map.go:165-186 | A device is found exactly when the query works, the id is a UUID and a row has it, and each failure has its own error |
| `MapParams.ServiceLookup` | core-go/internal/httpapi/map.go:590-625 | The same for a service |
| `MapParams.HostLookup` | core-go/internal/httpapi/map.go:1216-1250 | The host of services is named as known, or by its row; a failing query and a missing row are errors |
| `MapParams.CutsAreReal` | core-go/internal/httpapi/map.go:1392-1404 | Nothing is called cut where nothing can be: regions but of a device on layers 2 and 3, edges but of a device on layer 3 or the physical one, nodes without depth |
| `MapParams.FocusTypesServed` | core-go/internal/httpapi/map.go:1415-1422 | The five types of focus are served and any other is refused as such |
| `MapParams.DeviceAlone` | core-go/internal/httpapi/map.go:1365-1368 | A device view without depth, or on the security layer, is the device alone |
| `MapParams.AnswerTotals` | core-go/internal/httpapi/map.go:668-1345 | Which totals each answer gives, exactly: of regions where there is one or they were listed, of nodes and edges where they were listed and not cut, on layer 3 of edges always |
| `MapParams.OtherLayers` | core-go/internal/httpapi/map.go:496-600 | On a layer that does not show what the focus holds, the answer names the canonical focus and shows nothing; a bad subnet or VLAN is refused |
| `MapParams.WithoutDepth` | core-go/internal/httpapi/map.go:804-813 | Without depth a subnet or a VLAN is shown alone, a service not at all |
| `MapParams.BlankHost` | core-go/internal/httpapi/map.go:1218-1235 | A host with a blank id is answered with nothing |
| `MapParams.LayersServed` | core-go/internal/httpapi/map.go:1406-1413 | The five layers are served and no other |
| `MapSort.SortedWellFormed` | core-go/internal/httpapi/map.go:1452-1456 | Sorting a coherent projection by id makes it well formed |
| `MapWellFormed.SubnetIdsSameAddresses` | core-go/internal/httpapi/map.go:1458-1474 | The derived subnets depend only on which addresses there are |
| `MapWellFormed.SubnetIdsMembers` | core-go/internal/httpapi/map.go:1458-1474 | A subnet is derived exactly when some address has it |
| `MapHandler.DeriveL3SubnetIDs` | core-go/internal/httpapi/map.go:1458-1474 | The loop with its seen map and sort returns the sorted distinct subnets |
| `MapHandler.MergePeers` | core-go/internal/httpapi/map.go:278-288 | Merging one query result adds the region to exactly its peers and keeps first-seen names |
| `MapHandler.CollectPeers` | core-go/internal/httpapi/map.go:270-289 | The collecting loop holds exactly the limited peers with all regions that returned them, or fails when a query fails |
| `MapHandler.CollectedSuffices` | core-go/internal/httpapi/map.go:697-715 | What limited queries collect yields the peers and the truncation flag of the unlimited specification |
| `MapHandler.BuildDeviceFocus` | core-go/internal/httpapi/map.go:674-777 | Built from limited queries and maps walked in any order, the L3 or L2 device projection equals the one specified over unlimited queries |
| `MapHandler.BuildRegionFocus` | core-go/internal/httpapi/map.go:824-856 | Probing one row beyond the limit gives the specified subnet or VLAN projection |
| `MapHandler.BuildPhysical` | core-go/internal/httpapi/map.go:1100-1187 | Limited links give the specified physical projection |
| `MapHandler.BuildServices` | core-go/internal/httpapi/map.go:1216-1338 | Limited service rows give the specified services projection |
| `MapHandler.HandleGetMapProjection` | core-go/internal/httpapi/map.go:101-1372 | Every request, valid or not, gets exactly the specified response or error |
| `Cursor.CursorText` | core-go/internal/httpapi/handler.go:831-834 | A cursor is the base64url text of the timestamp, a bar and the id |
| `Cursor.CursorRoundTrip` | core-go/internal/httpapi/handler.go:831-850 | Decoding an encoded cursor gives the same instant and id for any id bytes, "\|" included |
| `Cursor.GroupsRoundTrip` | core-go/internal/httpapi/handler.go:831-837 | Unpadded base64url (section 5 of RFC 4648) decodes to what was encoded |
| `Cursor.KnownEncodings` | core-go/internal/httpapi/handler.go:831-837 | Test vectors of section 10 of RFC 4648, and the URL alphabet's two letters |
| `Cursor.FieldPlaces` | core-go/internal/httpapi/handler.go:831-837 | Where the fields of a formatted timestamp stand, each with all its digits, and what separates them |
| `Cursor.FractionRead` | core-go/internal/httpapi/handler.go:836-849 | A fraction follows a point or a comma and counts to nine digits: missing ones are zeros, further ones are dropped |
| `Cursor.LineBreaksDropped` | core-go/internal/httpapi/handler.go:838-850 | The decoder drops line breaks wherever they stand and nothing else |
| `Cursor.TimeRoundTrip` | core-go/internal/httpapi/handler.go:831-846 | An RFC 3339 UTC timestamp (section 5.6) with nanoseconds parses back to the same instant |
| `PageWalk.HandleList` | core-go/internal/httpapi/handler.go:2117-2158 | Asking for one row more than a page returns the specified page, cursor or error |
| `TimeOrder.TimeLessIffEarlier` | core-go/internal/sqlcgen/queries.go:1669-1676 | For valid timestamps the list order is the order of the instants, in nanoseconds counted from days, leap years and month lengths |
| `TimeOrder.GregorianYears` | core-go/internal/httpapi/handler.go:831-850 | Days before a year by the closed Gregorian formula |
| `TimeOrder.TextPagesNewestFirst` | core-go/internal/sqlcgen/queries.go:1669-1676 | A page of runs, devices or history is rows older than the bound, newest instant first and then by falling id, and leaves a row out only behind a full page of newer ones |
| `TimeOrder.LogPagesNewestFirst` | core-go/internal/sqlcgen/queries.go:1704-1712 | The same for run logs with numbers as ids |
| `PageWalk.FollowCursors` | core-go/internal/httpapi/handler.go:2122-2153 | Requests chained by passing back the cursor text form a walk: no cursor handed out is empty or refused, only a bad limit is an error, and a chain that ends returned each key there throughout exactly once |
| `PageWalk.FetchCovers` | core-go/internal/sqlcgen/queries.go:1669-1676 | A page skips nothing between its bound and its last row, and without a cursor leaves nothing behind |
| `PageWalk.NoRowTwice` | core-go/internal/httpapi/handler.go:2141-2149 | No row is returned twice on any walk, whatever is inserted between its pages |
| `PageWalk.StableKeysOnce` | core-go/internal/httpapi/handler.go:2126-2153 | Whatever is inserted, deleted or moved to another key meanwhile, a finished walk returns each key that stayed, no key twice, and only keys that were stored |
| `PageWalk.FinishedWalkExact` | core-go/internal/httpapi/handler.go:2126-2153 | A finished walk returns every row present from the start exactly once and nothing that was never stored |
| `PageWalk.WalkEnds` | core-go/internal/httpapi/handler.go:2141-2149 | A walk has at most one page more than the table holds full pages |
| `PageWalk.FixedTableWalk` | core-go/internal/httpapi/handler.go:2126-2153 | On a table that does not change the pages concatenate to the sorted table |
| `PageWalk.TextKeyWalkExact` | core-go/internal/httpapi/handler.go:1854-1882 | The walk theorems for runs, created-order devices and device history, through real cursor strings: keys that stay, and every row when rows are only added |
| `PageWalk.LogKeyWalkExact` | core-go/internal/httpapi/handler.go:2207-2241 | The same for run logs with numeric ids |
| `PageWalk.TextKeysPageable` | core-go/internal/sqlcgen/queries.go:1669-1676 | Timestamp and id are a total order that survives the cursor |
| `PageWalk.LogKeysPageable` | core-go/internal/sqlcgen/queries.go:1704-1712 | The same for timestamp and 64-bit number |
| `MovedRows.ReturnedUnlessOvertaken` | core-go/internal/httpapi/handler.go:1854-1882 | A finished walk returns a row that was there throughout, under keys that never fall, exactly when it never went from below the cursor handed out to it or above before the next fetch; it never returns it twice |
| `MovedRows.EventReturnedIff` | core-go/internal/sqlcgen/queries.go:1516-1647 | The same for an event of a device's history, told apart by its id, through real cursor strings |
| `MovedRows.RestampedIsLost` | core-go/internal/sqlcgen/queries.go:1516-1647 | Whatever event is re-stamped past the one that ended a page of one row is lost by a finished walk |
| `MovedRows.EventMissed` | core-go/internal/sqlcgen/queries.go:1592-1599 | A device renamed between two pages: its display name event is in both tables and on neither page |
| `Inet.SendAll` | core-go/internal/discoveryworker/worker.go:838-853 | The address loop ends, also at 255.255.255.255, and sends the scope's addresses in order up to a cancellation |
| `Inet.SweepAddresses` | core-go/internal/discoveryworker/worker.go:788-860 | A sweep stops early for exactly the stated reasons and otherwise sends the whole scope |
| `Inet.SweepExact` | core-go/internal/discoveryworker/worker.go:616-640 | An accepted IPv4 scope is swept exactly: each contained address once, ascending, as many as counted and at most the cap |
| `Inet.SweepCountHonestIff` | core-go/internal/discoveryworker/worker.go:634-641 | The announced count is what is sent exactly for IPv4 |
| `Inet.CountedButNotSwept` | core-go/internal/discoveryworker/worker.go:634-641 | A single IPv6 address is accepted, counted as one target, and nothing is swept |
| `Inet.AcceptedIff` | core-go/internal/discoveryworker/worker.go:616-633 | An IPv4 scope is accepted exactly when it is /2 or longer and fits the cap, an IPv6 one exactly when it is a single address, and each refusal has its error |
| `Inet.ContainsIsBlock` | core-go/internal/discoveryworker/worker.go:616-617 | A prefix holds exactly the block of addresses from its masked address on |
| `Inet.ClearedRemainder` | core-go/internal/discoveryworker/worker.go:789 | Masking clears the remainder by the size of the prefix |
| `Inet.DerivedContains` | core-go/internal/httpapi/map.go:1476-1509 | Every accepted address lies in its derived subnet, whose host bits are zero |
| `Inet.DerivedLength` | core-go/internal/httpapi/map.go:1497-1507 | A mask shorter than the address is kept; a host mask or none becomes /24 or /64 |
| `Inet.UnroutableV4` | core-go/internal/httpapi/map.go:1493-1495 | No subnet is derived from exactly 0.0.0.0, loopback, multicast and link-local IPv4 addresses |
| `Inet.UnroutableV6` | core-go/internal/httpapi/map.go:1493-1495 | Nor from exactly ::, ::1, ff00::/8, fe80::/10 and the IPv6 forms of such IPv4 addresses |
| `Inet.DerivedPartition` | core-go/internal/httpapi/map.go:1497-1509 | Derived subnets of one length that share an address are the same |
| `Inet.HostMaskRegions` | core-go/internal/httpapi/map.go:1497-1507 | Two host-mask IPv4 addresses share a region exactly when their first 24 bits agree |
| `DiscoveryRuns.RowEffectsCoherent` | core-go/internal/sqlcgen/queries.go:1043-1085 | Every statement on a run leaves stage, completion time and error agreeing with its status |
| `RunProtocol.ExecutionInv` | core-go/internal/sqlcgen/queries.go:1043-1060 | Every state of every interleaving of any number of workers satisfies the protocol invariant |
| `RunProtocol.ClaimedAtMostOnce` | core-go/internal/sqlcgen/queries.go:1043-1060 | No run is claimed twice, rows stay coherent, and a run nobody holds is running only if its failure update errored |
| `RunProtocol.StatusOnlyForward` | core-go/internal/sqlcgen/queries.go:1077-1085 | Over a whole execution a status only moves forward and a finished row never changes |
| `RunProtocol.IdleOnlyWhenLocked` | core-go/internal/sqlcgen/queries.go:1044-1051 | A worker finds nothing only when every queued run is being claimed by somebody |
| `RunProtocol.OldestIsTaken` | core-go/internal/sqlcgen/queries.go:1044-1051 | Of the queued runs nobody is claiming the one created first is taken |
| `ClaimOrder.OutOfOrderWasLocked` | core-go/internal/sqlcgen/queries.go:1044-1051 | Over any execution of any number of workers, a younger run is claimed before an older one only if another worker was claiming the older one when the younger was locked |
| `ClaimOrder.LoneWorkerClaimsInOrder` | core-go/internal/sqlcgen/queries.go:1044-1051 | In every execution with a single worker the committed claims are in creation order |
| `ScanConfig.WrongOrderLeaksIff` | core-go/internal/discoveryworker/worker.go:297-305 | The other order leaks exactly when there are tags and the preset flips a flag |
| `ScanConfig.PresetBudgets` | core-go/internal/discoveryworker/presets.go:118-147 | A fast run stays within the positive budgets configured, a deep run never goes below them, and budgets stay positive |
| `ScanConfig.FastBudgets` | core-go/internal/discoveryworker/presets.go:118-128 | Under the fast preset each budget is the smaller of the one configured and its cap, or the cap when none is; port scan budgets stay |
| `ScanConfig.DeepBudgets` | core-go/internal/discoveryworker/presets.go:129-142 | Under the deep preset each budget is the larger of the one configured and its floor, and every feature is on |
| `ScanConfig.NormalRun` | core-go/internal/discoveryworker/presets.go:143-145 | A normal run keeps every budget and adds only the features its tags ask for |
| `ScanConfig.FastFeatures` | core-go/internal/discoveryworker/tags.go:74-86 | Under the fast preset a feature runs exactly when a tag asks for it |
| `ScanConfig.CanonicalTagsMeaning` | core-go/internal/discoveryworker/tags.go:15-53 | The result is exactly the known tags some entry names, once each, ascending |
| `ScanConfig.StoredTagForms` | core-go/internal/discoveryworker/tags.go:15-31 | A stored string counts as a list of it; what is neither string nor list is no tags |
| `ScanConfig.OtherEntries` | core-go/internal/discoveryworker/tags.go:21-26 | An entry that is no string does not matter |
| `ScanConfig.ScanTags` | core-go/internal/discoveryworker/tags.go:8-13 | The four tags a scan can name |
| `ScanConfig.CanonicalTagsSameNames` | core-go/internal/discoveryworker/tags.go:32-52 | Order, case, blanks and repeats of the entries do not matter |
| `ScanConfig.CanonicalizeScanTags` | core-go/internal/discoveryworker/tags.go:15-53 | The loop with its seen map and sort returns that result |
| `ScanConfig.BackoffGrowsIff` | core-go/internal/discoveryworker/worker.go:249-266 | More failures never shorten the wait exactly when the interval is at most ten seconds |
| `ScanConfig.BackoffDoubles` | core-go/internal/discoveryworker/worker.go:249-266 | The wait starts at the interval, or 400 ms, and doubles with each of up to six failures until ten seconds |
| `ScanConfig.DefaultValues` | core-go/internal/discoveryworker/worker.go:112-172 | Each budget not set gets its own default, and the feature flags are those of the options |
| `ScanConfig.DefaultsPositive` | core-go/internal/discoveryworker/worker.go:112-172 | A new worker's budgets are positive under every preset and any tags, and positive options are kept |
| `ScanConfig.Worker.constructor` | core-go/internal/discoveryworker/worker.go:112-215 | The fields of a new worker are the options with every missing budget at its default |
| `ScanConfig.Worker.ApplyScanPreset` | core-go/internal/discoveryworker/presets.go:84-147 | The field assignments amount to the preset's configuration and the snapshot is the one before |
| `ScanConfig.Worker.RestorePreset` | core-go/internal/discoveryworker/presets.go:149-163 | All saved fields are back and the name resolution flag is untouched |
| `ScanConfig.Worker.ApplyScanTags` | core-go/internal/discoveryworker/tags.go:55-87 | The tag loop switches on exactly what the tags name |
| `ScanConfig.Worker.RestoreTags` | core-go/internal/discoveryworker/tags.go:89-96 | The saved flags are back; without tags nothing changes |
| `ScanRequest.AcceptedPresetIsRead` | core-go/internal/httpapi/handler.go:764-777 | A preset the API accepts is the one the worker reads, before and after storing; one it refuses the worker would take for normal |
| `ScanRequest.NormalizeScanTags` | core-go/internal/httpapi/handler.go:786-804 | The loop lists every canonical tag asked for that is not blank, once |
| `ScanRequest.ValidateScanTags` | core-go/internal/httpapi/handler.go:806-821 | A request is accepted exactly when every entry is blank or a known tag, and yields those tags ascending |
| `ScanRequest.StoredTagsReadBack` | core-go/internal/discoveryworker/tags.go:15-53 | Tags the API stored come back unchanged from the worker's own canonicalization |
| `ScanRequest.RequestReachesWorker` | core-go/internal/httpapi/handler.go:1970-1991 | The worker that claims a run sees exactly the preset, tags and scope the API accepted |
| `ScanRequest.SettledRunReadsBack` | core-go/internal/discoveryworker/worker.go:464-555 | However a claimed run ends, its row still reads as the preset, tags and scope it ran under, and a failed one shows the budgets in force |
| `WorkerRun.RunOnce` | core-go/internal/discoveryworker/worker.go:268-514 | On every exit path, with others interfering, the configuration is as before, the claimed run was the oldest to be had, and its row is settled as its environment determines |
| `WorkerRun.Drain` | core-go/internal/discoveryworker/worker.go:226-247 | Any number of runs leaves the configuration as it was and the worker idle, and sets the next wait |
| `WorkerRun.ClaimNext` | core-go/internal/discoveryworker/worker.go:270-279 | A claim commits the oldest unlocked queued run to this worker, or leaves it idle |
| `WorkerRun.Execute` | core-go/internal/discoveryworker/worker.go:337-419 | The branches between claim and row update end as specified |
| `WorkerRun.Settle` | core-go/internal/discoveryworker/worker.go:487-568 | The row ends succeeded, failed, or abandoned only if the failure update errored |
| `WorkerRun.SettledStatus` | core-go/internal/discoveryworker/worker.go:516-555 | A settled row is coherent, keeps its identity, and stays running exactly when the run failed and so did the failure update |
| `WorkerRun.CompletedWithinBudget` | core-go/internal/discoveryworker/worker.go:367-410 | A completed run had no scope or one within the target budget in force, swept as announced unless IPv6 |
| `RunReport.SucceededReports` | core-go/internal/discoveryworker/worker.go:462-491 | By key, the row of a run that succeeded shows the scrape's entries, devices seen and created; as many pings tried as the IPv4 scope has addresses and no more answered; the scope, its targets, and the target and runtime budgets in force; what enrichment and port scan reported |
| `RunReport.ScrapeAndSettle` | core-go/internal/discoveryworker/worker.go:412-491 | With the scrape's own loop: devices_created is the growth of the device table, and arp_entries and devices_seen are both the number of entries in scope |
| `RunReport.FailureText` | core-go/internal/discoveryworker/worker.go:516-545 | A failed row carries the message of what broke the run off, or of the update that failed |
| `WorkerRun.OthersLeaveMine` | core-go/internal/sqlcgen/queries.go:1043-1060 | Nobody else's step touches a worker's slot or the row it holds |
| `WorkerRun.RunTable.Interfere` | core-go/internal/sqlcgen/queries.go:1043-1085 | Any steps of other workers and the API keep the worker's claim and row |
| `WorkerRun.RunTable.PickOldest` | core-go/internal/sqlcgen/queries.go:1044-1051 | The inner select finds the oldest queued unlocked run, or there is none |
| `ArpScrape.OnRecord` | core-go/internal/discoveryworker/worker.go:729-767 | What an entry resolved to owns both its addresses when the scrape ends |
| `ArpScrape.SameMacSameDevice` | core-go/internal/sqlcgen/queries.go:1169-1176 | Entries sharing a MAC resolve to one device wherever they stand |
| `ArpScrape.RescrapeChangesNothing` | core-go/internal/discoveryworker/worker.go:717-786 | Scraping the same table again creates no device, changes no row, and resolves every entry as before |
| `ArpScrape.MacNeverMoves` | core-go/internal/sqlcgen/queries.go:1169-1176 | A MAC resolves to the same device in every later scrape of any table |
| `ArpScrape.SameIpNewMac` | core-go/internal/discoveryworker/worker.go:727-743 | An unknown MAC makes a new device exactly when its address is unknown too |
| `ArpScrape.FindUpsert` | core-go/internal/sqlcgen/queries.go:1201-1223 | An upsert never changes who a key belongs to, and gives an unowned key to its device |
| `ArpScrape.TargetsExact` | core-go/internal/discoveryworker/worker.go:773-781 | The targets are distinct and exactly the device and address pairs of the entries |
| `ArpScrape.NotedAreTargets` | core-go/internal/discoveryworker/worker.go:755-781 | The address observations of a run are its targets |
| `ArpScrape.Inventory.ScrapeARP` | core-go/internal/discoveryworker/worker.go:699-786 | Whichever of the up to seven statements per entry fail, success means the entries in scope were resolved in order and the run's MAC and address observations written; seen equals entries, created equals the growth of the device table, and an error leaves rows and observations only added |
| `ScrapeRace.FaultEndsEntry` | core-go/internal/discoveryworker/worker.go:725-756 | A failed statement writes nothing and its entry is given up |
| `ScrapeRace.OwnerNeverMoves` | core-go/internal/sqlcgen/queries.go:1169-1176 | Under any interleaving of any number of scraping workers, the device a MAC is looked up to never changes once there is one |
| `ScrapeRace.WriteSplitsIff` | core-go/internal/discoveryworker/worker.go:727-754 | A MAC write makes its device the owner exactly when there was none or it was that one; otherwise the writer had looked the MAC up in vain before the owner's write, and the MAC now has two devices |
| `ScrapeRace.AtMostOneDevicePerWorker` | core-go/internal/discoveryworker/worker.go:727-754 | From empty tables, n workers never give one MAC to more than n devices |
| `ScrapeRace.LoneWorkerScrapes` | core-go/internal/discoveryworker/worker.go:717-786 | The statements of a lone worker amount to scraping its entries in order |
| `ScrapeRace.TwoDevicesOneMac` | core-go/internal/sqlcgen/queries.go:1218-1223 | An execution of two workers in which one entry makes two devices and both rows are stored |
| `EnrichmentPool.AtMostOnce` | core-go/internal/discoveryworker/enrichment.go:65-107 | Under every interleaving, cancelled or not, no device is polled or looked up twice, and only those within the target cap are |
| `EnrichmentPool.ExactlyOnce` | core-go/internal/discoveryworker/enrichment.go:372-438 | A pool that ends uncancelled did each enabled kind of work exactly once for every device given within the target cap |
| `EnrichmentPool.ExecutionInv` | core-go/internal/discoveryworker/enrichment.go:65-107 | Every reachable state keeps the guards, covers every sent target, and does only enabled work |
| `EnrichmentPool.NamedBeforePolled` | core-go/internal/discoveryworker/enrichment.go:99-134 | With names and SNMP enabled no device is polled before its names were looked up, under any interleaving |
| `EnrichmentPool.ExecutionsEnd` | core-go/internal/discoveryworker/enrichment.go:412-438 | Every execution is bounded by the initial amount of work |
| `EnrichmentPool.NeverStuck` | core-go/internal/discoveryworker/enrichment.go:404-438 | Until the pool has finished some worker or the producer can move: no deadlock on the channel |
| `EnrichmentPool.ConsideredIff` | core-go/internal/discoveryworker/enrichment.go:41-43 | The targets worked on are those given before the cap, all of them when there is none |
| `PortScan.SelectTargets` | core-go/internal/discoveryworker/portscan.go:59-74 | The selection loop returns the first allowed target of each device, in order, up to the cap |
| `PortScan.DeviceCandidateIff` | core-go/internal/discoveryworker/portscan.go:61-70 | Cap aside, a device is scanned exactly when one of its addresses is allowed |
| `PortScan.CandidateDevicesDistinct` | core-go/internal/discoveryworker/portscan.go:59-69 | No device is scanned twice |
| `Tags.MergeSuggestions` | core-go/internal/tagging/tagging.go:14-56 | Every known tag with a positive suggestion once, with the highest confidence suggested, by falling confidence and rising tag |
| `Tags.MergedUnique` | core-go/internal/tagging/tagging.go:44-55 | That result is unique, so map order cannot show |
| `Tags.MergedOrder` | core-go/internal/tagging/tagging.go:44-55 | Stronger suggestions come first, and of one confidence the smaller tag |
| `Tags.BestOfSameSuggestions` | core-go/internal/tagging/tagging.go:17-42 | Order and repetition of suggestions do not matter |
| `Tags.AfterIsHighest` | core-go/internal/sqlcgen/queries.go:471-482 | After any upserts a key holds the highest confidence it had or was given, and manual rows are untouched |
| `Tags.ConfidencesConverge` | core-go/internal/discoveryworker/worker.go:427-442 | After the per-run delete any batching and interleaving of suggestions leaves their pointwise maximum and the manual rows |
| `Tags.SameSuggestionsSameTags` | core-go/internal/discoveryworker/enrichment.go:82-96 | Two runs that gather the same suggestions end with the same automatic tags |
| `Tags.TagTable.ClearAuto` | core-go/internal/discoveryworker/worker.go:427-442 | The loop removes exactly the automatic rows of the run's devices |
| `Tags.TagTable.UpsertSuggestions` | core-go/internal/discoveryworker/portscan.go:164-179 | The loop writes one upsert per merged suggestion |
| `TagRuns.SurvivesLastClear` | core-go/internal/discoveryworker/worker.go:427-442 | However the clears and upserts of any runs interleave, a device that was ever cleared has exactly the automatic tags upserted since its last clear, each at the highest confidence upserted since; manual rows are as before |
| `TagRuns.OnlyLastPutsShow` | core-go/internal/sqlcgen/queries.go:471-500 | A device's rows are as if only the upserts after its last clear had been made |
| `TagRuns.LastClearerDecides` | core-go/internal/discoveryworker/worker.go:427-442 | A device ends with no less than the last run to clear it suggests, no more than some run suggests, and exactly what that run suggests when nobody else writes for the device after it |
| `TagRuns.ClearedByAnother` | core-go/internal/discoveryworker/worker.go:427-442 | One run's suggestion removed by another run's clear |
| `Tags.PortsOfTags` | core-go/internal/tagging/tagging.go:162-201 | Exactly which open ports suggest which tag, and how strongly |
| `Tags.OpenPortsMonotone` | core-go/internal/tagging/tagging.go:162-201 | More open ports never lose a suggestion, and their order does not matter |
| `Tags.Tokenize` | core-go/internal/tagging/tagging.go:203-226 | The buffer loop returns the maximal runs of token characters |
| `Tags.TokensSplit` | core-go/internal/tagging/tagging.go:213-222 | Any other character separates: the tokens of the two sides in order |
| `Tags.TailOfWord` | core-go/internal/tagging/tagging.go:213-224 | A run of token characters is one token |
| `Links.CanonicalOrder` | core-go/internal/discoveryworker/enrichment.go:461-481 | The end with the smaller device comes first, and of one device the one with the smaller interface |
| `Links.KeySymmetric` | core-go/internal/discoveryworker/enrichment.go:461-493 | Either end of a link reports the same key, for all field values |
| `Links.KeyIdentifiesLink` | core-go/internal/discoveryworker/enrichment.go:483-493 | For plain fields keys are equal exactly for the same source and canonical endpoints |
| `Links.KeysCollideIff` | core-go/internal/discoveryworker/enrichment.go:483-493 | For colon-free fields keys are equal exactly when source, devices and shown interfaces are |
| `Links.DiscoveredKeysNeverCollide` | core-go/internal/discoveryworker/enrichment.go:354-355 | For LLDP and CDP observations between devices and interfaces given by UUID, keys are equal exactly for the same link |
| `Links.KeysThatCollide` | core-go/internal/discoveryworker/enrichment.go:484-492 | Arguments for which the key function gives two links one key: an interface "-", and a colon between fields |
| `Links.LinkTable.RecordNeighbours` | core-go/internal/discoveryworker/enrichment.go:279-368 | The loop over a device's neighbours leaves the rows of everything observed so far plus each neighbour resolved to another device, with a fitting name and an upsert that succeeds, and counts exactly those |
| `Links.StoredExactly` | core-go/internal/discoveryworker/enrichment.go:279-368 | An observation is stored exactly when it is some neighbour, seen on the polled device at its local interface, that is resolved to another device, has a fitting name and whose upsert succeeds |
| `Links.NoSelfLinkStored` | core-go/internal/discoveryworker/enrichment.go:306-308 | No row of observations that discovery accepts joins a device to itself |
| `Links.OneRowPerLink` | core-go/internal/sqlcgen/queries.go:1269-1289 | Two observations share a row exactly when they are of the same link, and the row shows it |
| `Links.RowCount` | core-go/internal/sqlcgen/queries.go:1280-1289 | There are as many rows as distinct links |
| `Naming.BetterIsStrictWeak` | core-go/internal/naming/naming.go:126-139 | The comparison is a strict weak order whose ties share score, display name and stored name |
| `Naming.EligibleNames` | core-go/internal/naming/naming.go:141-185 | A name that may be set unasked has two characters, no blanks, a known source, and is a plain label unless DHCP or reverse DNS reports it |
| `Naming.ChooseBestDisplayName` | core-go/internal/naming/naming.go:53-80 | The fold returns the display name of an eligible candidate no eligible one beats, and nothing exactly when none is eligible |
| `NameChoice.DottedDisplay` | core-go/internal/naming/naming.go:37-43 | A label, a dot and any rest without blanks display as the label, in lower case from reverse DNS and mDNS, with or without a final dot |
| `NameChoice.UndottedDisplay` | core-go/internal/naming/naming.go:20-43 | A name with no dot displays as itself |
| `NameChoice.BestSourceShortest` | core-go/internal/naming/naming.go:53-80 | Among host labels, alone or in a domain that is not local, one is chosen exactly when a source is known, and it is of the best source, DHCP before reverse DNS before SNMP before LLDP and CDP alike before mDNS before NetBIOS before manual, shortest first and then alphabetically |
| `NameChoice.LocalNameLoses` | core-go/internal/naming/naming.go:180-182 | A name in a local domain loses to any other clean name from its source |
| `NameChoice.GarbageIsRefused` | core-go/internal/naming/naming.go:202-215 | Placeholders and names from reverse zones are never candidates |
| `NameChoice.ListedBySource` | core-go/internal/naming/naming.go:103-117 | The listing keeps that order of sources, and from one rank is alphabetical |
| `Naming.ChoiceIgnoresOrder` | core-go/internal/naming/naming.go:53-80 | The choice depends only on which candidates there are |
| `Naming.MoreCandidates` | core-go/internal/naming/naming.go:53-80 | A further candidate takes the choice or leaves it as it was |
| `Naming.DisplayNotBlank` | core-go/internal/naming/naming.go:20-51 | An accepted candidate never has a blank display name, so the final blank test only catches the empty start value |
| `Naming.SortCandidatesForDisplay` | core-go/internal/naming/naming.go:82-124 | The two loops around the sort return the listing of the scored candidates |
| `Naming.PairedOriginals` | core-go/internal/naming/naming.go:91-101 | The list that is sorted holds the very candidates, in their order |
| `Naming.ListingOrdered` | core-go/internal/naming/naming.go:82-124 | The listing is a permutation in which no candidate follows one it should precede |
| `Naming.ListingStable` | core-go/internal/naming/naming.go:103-117 | Candidates that normalize alike keep their recorded order |
| `Naming.ChosenScoresLikeFirst` | core-go/internal/naming/naming.go:53-124 | The first candidate listed scores what the chosen one does |
| `Serializer.ShowInjective` | ui-node/app/(app)/map/MapProjectionContext.tsx:32-46 | Equal texts mean trees equal up to key order, whatever the collation |
| `Serializer.ShowIff` | ui-node/app/(app)/map/MapProjectionContext.tsx:32-46 | Under a total collation texts are equal exactly for such trees |
| `Serializer.OrderBlindIff` | ui-node/app/(app)/map/MapProjectionContext.tsx:42-43 | The printer is blind to key order exactly when the collation never ties distinct keys |
| `Serializer.QuoteEnds` | ui-node/app/(app)/map/MapProjectionContext.tsx:35 | A quoted string ends where its text says, and determines the string |
| `Serializer.EscapeRoundTrip` | ui-node/app/(app)/map/MapProjectionContext.tsx:35 | A reader of JSON strings (section 7 of RFC 8259) gets back the string that was printed |
| `Serializer.FingerprintIff` | ui-node/app/(app)/map/MapProjectionContext.tsx:48-59 | Two projections have one fingerprint exactly when layer, focus, guidance, regions, nodes, edges, inspector and truncation are each equal up to key order, and no fingerprint is empty |
| `PinnedView.Provider.RunEffects` | ui-node/app/(app)/map/MapProjectionContext.tsx:132-154 | The effect settles after at most two runs, in one known state |
| `PinnedView.Provider.constructor` | ui-node/app/(app)/map/MapProjectionContext.tsx:99-101 | A mounted view is at rest on the initial projection |
| `PinnedView.Provider.Receive` | ui-node/app/(app)/map/MapProjectionContext.tsx:107-120 | A fetched projection leads to the specified state at rest |
| `PinnedView.Provider.ApplyPendingUpdates` | ui-node/app/(app)/map/MapProjectionContext.tsx:156-162 | Applying leads to the specified state at rest |
| `PinnedView.Provider.SetPinnedWithSemantics` | ui-node/app/(app)/map/MapProjectionContext.tsx:164-173 | Pinning and unpinning lead to the specified state at rest |
| `PinnedView.RestMeans` | ui-node/app/(app)/map/MapProjectionContext.tsx:132-154 | At rest the latest projection is pending exactly when pinned and different, nothing else is pending, and an unpinned view shows it |
| `PinnedView.PendingIsLatestIff` | ui-node/app/(app)/map/MapProjectionContext.tsx:120-135 | What is pending is the latest projection exactly when there is one |
| `PinnedView.StalePending` | ui-node/app/(app)/map/MapProjectionContext.tsx:133-162 | A run of events that leaves a stale pending projection which applying would show |
| `PinnedView.PinnedShowsTheSame` | ui-node/app/(app)/map/MapProjectionContext.tsx:147-150 | A pinned view shows the same projection through any events but an apply or an unpin |
| `PinnedView.CatchUp` | ui-node/app/(app)/map/MapProjectionContext.tsx:156-173 | Applying or unpinning catches up with the latest projection |
| `PinnedView.LastRefreshWins` | ui-node/app/(app)/map/MapProjectionContext.tsx:132-154 | For a pinned view at rest with an applied projection, two refreshes leave the same state as the last one alone, if that one is present |
| `NetBios.EncodeNetBIOSName` | core-go/internal/enrichment/mdns/mdns.go:213-229 | The 32 bytes are the half-byte letters of the upper-cased, cut and padded name |
| `NetBios.PaddedChars` | core-go/internal/enrichment/mdns/mdns.go:213-222 | Character by character: the name in upper case up to its end or the 15th, then spaces |
| `NetBios.NameRoundTrip` | core-go/internal/enrichment/mdns/mdns.go:213-229 | First-level decoding (section 14.1 of RFC 1001) gives that name back |
| `NetBios.EncodesAlikeIff` | core-go/internal/enrichment/mdns/mdns.go:213-229 | Names encode alike exactly when they agree after upper-casing, cutting and padding |
| `NetBios.SkipDomainName` | core-go/internal/enrichment/mdns/mdns.go:330-350 | The cursor loop ends inside the message or reports why not, on every input |
| `NetBios.SkipEncoded` | core-go/internal/enrichment/mdns/mdns.go:330-350 | An encoded name, rooted or ending in a pointer, is skipped exactly, wherever it stands |
| `NetBios.ParseNodeStatusResponse` | core-go/internal/enrichment/mdns/mdns.go:231-328 | The parser never reads outside the buffer and returns the specified names or error |
| `NetBios.CollectNames` | core-go/internal/enrichment/mdns/mdns.go:285-327 | The row loop keeps first occurrences of unique names, suffix 0x20 before 0x00 |
| `NetBios.ParsesLaidOutMessage` | core-go/internal/enrichment/mdns/mdns.go:231-328 | Any message laid out as one question and one NBSTAT answer gives back exactly the device names of its table |
| `NetBios.ReturnedIff` | core-go/internal/enrichment/mdns/mdns.go:299-323 | A name comes back exactly when its first occurrence is a unique name with one of the two suffixes |
| `NetBios.HiddenByGroup` | core-go/internal/enrichment/mdns/mdns.go:299-323 | A two-row table whose group name hides the usable unique name after it |
| `NetBios.NamesDistinct` | core-go/internal/enrichment/mdns/mdns.go:299-327 | No two returned names agree up to case, and file server names come first |

## Left out

- NetBios.ParseNodeStatusResponse: white space and case are ASCII only; the parser strips a multi-byte blank or lower-cases a non-ASCII letter differently.
- Cursor.CursorRoundTrip: the decoder of the model accepts UTC timestamps ending in Z only, which are all the encoder emits; Go also accepts numeric offsets.
- PageWalk.TextKeyWalkExact: link, VLAN, metadata, SNMP, service and display-name events of a device's history change their timestamp in place; `MovedRows` says exactly when such an event comes back. A self-linked device has two history events under one id, which the theorems exclude.
- ScanRequest.RequestReachesWorker: the scope is carried as it is; checking its text and parsing it again in the worker are not modelled.
- Links.LinkTable.RecordNeighbours: a neighbour comes resolved to a device, or not, and with the outcome of its name check and upsert; a poll cancelled midway is one with fewer neighbours.
- MapHandler.HandleGetMapProjection: CIDR and UUID text is canonicalized by functions passed in, and interface VLAN ids fit the 32-bit column; inspector fields, guidance, warnings and node metadata are not built.
- MapWellFormed.SubnetIdsSameAddresses: the text of a subnet is a parameter; `Inet` proves what the derivation does to addresses, not how prefixes are spelled.
- WorkerRun.RunOnce: enrichment and port scan statistics are arbitrary values, run log lines are not kept, and the scope statistic is the parsed scope rather than its spelling.
- WorkerRun.Drain: the inner polling loop is cut after any finite number of runs; timers and metrics are not modelled.
- ArpScrape.Inventory.ScrapeARP: entries come parsed; the text format of the ARP table is not modelled.
- ScrapeRace.OwnerNeverMoves: a lookup returns the first row by order of writing, where the query orders by a time taken as each insert starts; and only scrapes write MACs, not link discovery.
- EnrichmentPool.ExactlyOnce: what a poll or lookup writes is not part of the state, only that it happened.
- Tags.MergeSuggestions: evidence maps, which depend on the order of suggestions in both the merge and the upsert.
- Naming.ChooseBestDisplayName: letters and blanks are ASCII; lengths are characters where Go counts bytes.
- Serializer.ShowIff: numbers are integers and strings hold no lone surrogates; floating point and Unicode collation are an abstract order.
- PinnedView.Provider.RunEffects: each handler and its effect run to rest before the next event; fetching, polling and React's scheduling are not modelled.
- The keyword tables that suggest tags from names and SNMP descriptions.
- Device paging by last seen or last change, whose keys move, and the global change feed, which emits a link twice under one id.
- SNMP walks, VLAN collection, DNS and mDNS exchanges, and the NetBIOS request packet around the encoded name.
- HTTP routing, JSON decoding, authentication, audit, import and export: plumbing with no invariant across functions.
