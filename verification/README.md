# Verified models of navitia's data preparation and street-network core

This project models five parts of the C++ core of navitia and proves what they keep or compute:

1. **Street-network search** (`georef`). A start projected on an edge, a graph with a walking, a biking
   and a driving layer, a Dijkstra search on arrays that are never reset between searches, its two
   stop rules, and the rebuilt path with its items.
   `Basics`, `StreetNetworks`, `ShortestPaths`, `Frontiers`, `SearchLaws`, `Restarts`, `Projections`, `Divergences`,
   `PathItems`, `PathFinders`, `GeoRefs`.
2. **Fare engine** (`fare`). A nondeterministic automaton run section by section on lists of labels.
   `FareTypes`, `FareTickets`, `FareEngine`, `FareRuns`, `FareLaws`.
3. **Schedule preparation** (`ed::Data`). Shifting journeys to their day while shared patterns are rebased
   (`Schedules` on values, `ScheduleObjects` on the shared objects), stay-in links between journeys of a
   block (`Blocks`), cleaning (`Erasing`, `Cleaning`), and the split at daylight-saving changes (`Daylight`).
4. **Autocomplete** (`Words`, `Autocompletes`, `CommonSubstrings`). The prefix index and the longest common substring.
5. **OSM ways** (`OsmWays`). Which nodes are shared, how ways are cut into edges, and which nodes get a row.

`dafny verify dfyconfig.toml` checks everything.

## How the model is built

Code that updates fields, vectors or arrays is a class or a method with loops; each such method is proved
against a specification given as a function or a relation (a walk and its length, a run of the automaton,
a set of dates, the survivors of a list), and the theorems are lemmas about that specification. Code that
only computes is a function.

- **Distances.** `ShortestPaths.IsWalk`, `Length` and `IsDistance` define least durations without any
  reference to the search. `Tree`/`Sound` is what the arrays satisfy between two searches: finite entries are
  supported by a settled predecessor, every chain of predecessors ends, and no parallel edge would do better.
  It is kept by every relaxation, so a search may start from whatever an earlier one has left; which
  entries are distances already is a separate question (`ExactUpTo`, `NothingTense`).
- **Runs.** `FareRuns.After` says where a run of the automaton ends without any list of labels;
  `FareRuns.Represents` says that the lists hold exactly the ends of all runs.
- **Service.** `Schedules.DatesOf` and `Instants` turn bits and times of day into absolute dates and instants;
  conservation of service is equality of these sets.

A test the program makes by one route is stated by another: modes as vertex ranges, the label order as inequalities between
fields, starts and ends as times of day, items as ways and characteristics.

## Where the code and its own description differ

- **Only one end of the starting edge is queued.** `source/georef/dijkstra_path_finder.cpp:226-256` hands both ends over
  and the comment at line 48 says that the search starts from both, but `&s_begin, &s_end` at line 291 is a
  half-open range over the two-element array, so only the source end is queued. The other end is first reached through an
  edge and is white until then; the queued vertex is black from then on, so no walk can come back to it. The model follows the
  code: `Task()` closes that one vertex, and distances are those over walks that do not enter it.
  - `Restarts.ReturnDecides` says exactly when this changes no distance: no way from the other end back to the queued one is
    shorter than the difference of the start values. `Divergences.ReturnIsMissed` is a start where 15 becomes 90.
  - A start on the far node of its edge (`source/georef/path_finder.cpp:122-128`) leaves the queued end without a value: every way
    back over it is lost (`Divergences.NodeStartLosesReturn`), and a radius search stalls at its first vertex.
    `PathFinder.UpdatePath` covers this case too: a finite answer needs a walk to the source end, and the target end only has
    to be linked to the queued vertex.
  - A radius search whose queued end lies beyond the radius changes nothing. `PathFinder.StartDistanceDijkstra` says exactly when the
    arrays are exact all the same, `SearchLaws.StalledSearchIsExact` what this means for fresh arrays, and
    `Divergences.StalledSearchMisses` is a start where a vertex eleven seconds away is missed.
  - `PathFinder.BreadthFirstVisit` takes the list of queued vertices as a parameter and is also proved for the case that all
    seeds are queued.
- **Skipping the search** (`source/georef/dijkstra_path_finder.cpp:235`). `update_path` searches only when an end of the target
  has no entry. After a search that was cut off, by a radius or by an earlier target, both ends may hold entries that
  are not yet the distances, and the answer is read off them. `Projections.SkippedIsExact` says exactly when it is right: no edge that
  is still to be relaxed opens a shortcut that undercuts it. It is right whenever it lies within a radius the arrays are exact up
  to (`PathFinder.UpdatePath`), and `SearchLaws.ExactIffNothingTense` tells how to see that from the arrays.
  `Divergences.SkippedSearchIsLonger` is a graph where 100 is answered instead of 30.
- **One end unreached does not mean both are** (`source/georef/path_finder.cpp:145`). `Projections.NearestIsExact` states
  the answer with the extra condition that the source end has an entry; `Divergences.OneEndUnreached` is a one-way street
  whose target is 15 away and is reported as unreachable.
- **Counting finishes** (`source/georef/visitor.h:79-84`) needs the two targets to be distinct: a target whose two ends are the same vertex is
  never found by `PathFinder.SearchFor`.
- **A shift by two days** (`source/ed/data.cpp:221`): a start of exactly -86400 s gives 2 and ends the run with an exception.
  `Schedules.ShiftIsOneDay` gives the exact range, `ScheduleObjects.Data.ShiftStopTimes` the journey at which a run stops.
- **A clash ends all linking** (`source/ed/data.cpp:125`): the `break` stops the loop over all journeys, also of other blocks.
  `Blocks.Calm` is part of the condition for a link; `Blocks.ClashStopsLaterBlock` shows a pair of a later block left unlinked.
- **Sharing is seen only from streets** (`source/ed/osm2ed.cpp:209-211`): a node is flagged when a street
  meets it again, not when another way does. `OsmWays.SharedByStreets` is what holds, `OsmWays.SharedWithOtherWay` an
  example of what does not.
- **The order of the change dates is that of the last year** (`source/ed/data.cpp:869-879`), and the first period is left out when
  saving starts on the first of January. `Daylight.AllPiecesCover` counts exactly how often each day is covered,
  `Daylight.PartitionIffNoneReversed` gives the exact condition for a partition, `Daylight.TurnedYearIsCoveredTwice` a zone without it.

## Model

| member | source | states |
|---|---|---|
| StreetNetworks.AcceptsIsRange | source/georef/path_finder.h:75-99 | the filter by division and mode table accepts exactly the copies of the mode, told as ranges of vertices |
| StreetNetworks.CaracteristicIsRange | source/georef/georef.cpp:245-275 | each of the seven characteristics is exactly one pair of ranges for the two ends |
| SearchLaws.WalksKeepToLayers | source/georef/path_finder.h:75-99 | for every mode, each step of a walk stays in the vertex ranges of that mode and has one of its characteristics |
| SearchLaws.LayersMakeWalks | source/georef/path_finder.h:75-99 | every edge of the graph within these ranges that leads to an open vertex prolongs a walk |
| ShortestPaths.DistanceIsUnique | source/georef/path_finder.h:102-114 | the least duration over walks of the filtered, scaled graph is a function of the vertex |
| ShortestPaths.Realised | source/georef/path_finder.cpp:106-130 | every finite entry of the arrays is the length of a walk from a seed, also between searches |
| ShortestPaths.BoundedIsExact | source/georef/dijkstra_path_finder.cpp:275-292 | an entry no walk undercuts is the true distance |
| ShortestPaths.RootedAfterImproving | source/georef/path_finder.cpp:376-385 | replacing the predecessor of an improved vertex leaves the chains of all nearer vertices intact, zero durations included |
| ShortestPaths.RootedElsewhere | source/georef/path_finder.cpp:376-385 | a chain through the improved vertex continues along the new predecessor's chain and still ends |
| ShortestPaths.SettledIsKept | source/georef/dijkstra_path_finder.cpp:275-292 | relaxing an edge never changes a vertex that already holds its distance |
| ShortestPaths.RelaxKeepsSupport | source/georef/dijkstra_path_finder.cpp:275-292 | after a relaxation every finite entry is a seed's value or is explained by an edge from a settled predecessor |
| ShortestPaths.RelaxKeepsRoots | source/georef/dijkstra_path_finder.cpp:275-292 | after a relaxation every chain of predecessors of a reached vertex still ends |
| ShortestPaths.RelaxKeepsTree | source/georef/dijkstra_path_finder.cpp:275-292 | one relaxation from a settled vertex keeps the predecessor forest |
| Frontiers.WalkMeetsGray | source/georef/dijkstra_path_finder.cpp:275-292 | a walk to a vertex that is not black passes a queued vertex whose entry is at most the walk's length |
| Frontiers.LeastGrayIsSettled | source/georef/dijkstra_path_finder.cpp:275-292 | the least queued vertex holds its true distance |
| Frontiers.NothingMissed | source/georef/visitor.h:61-64 | stopping at the first popped vertex beyond the radius leaves every vertex within the radius exact and every other entry beyond it |
| Frontiers.PopStartsScan | source/georef/dijkstra_path_finder.cpp:275-292 | popping the least queued vertex keeps the search invariant |
| Frontiers.LookKeepsScanning | source/georef/dijkstra_path_finder.cpp:275-292 | looking at one out-edge (filter, colour, strict relaxation, queueing) keeps the search invariant |
| Frontiers.ScannedIsReady | source/georef/dijkstra_path_finder.cpp:275-292 | a fully scanned vertex may turn black |
| SearchLaws.Reroute | source/georef/dijkstra_path_finder.cpp:275-292 | any walk can be replaced by one that does not come back to the queued vertex and is no longer, if that vertex's start value is its distance |
| SearchLaws.LeadDecides | source/georef/dijkstra_path_finder.cpp:275-292 | queueing one end only changes no distance if and only if it does not change that end's own |
| Restarts.ReturnDecides | source/georef/dijkstra_path_finder.cpp:275-292 | queueing one end only changes no distance if and only if no way from another seed to it is shorter than the difference of the two start values (none at all when it has no start value) |
| SearchLaws.NearerLeadDecides | source/georef/path_finder.cpp:109-115 | queueing one end only changes no distance when no seed has a smaller start value |
| SearchLaws.ExactIffNothingTense | source/georef/path_finder.h:102-114 | whatever searches ran, the arrays are exact up to a radius if and only if no edge would give a smaller entry within it |
| SearchLaws.StalledSearchIsExact | source/georef/dijkstra_path_finder.cpp:43-53 | with the queued end beyond the radius or without a value, the fresh arrays are exact up to the radius if and only if no edge from another seed gives a smaller entry within it; always with no other seed |
| Divergences.StalledSearchMisses | source/georef/dijkstra_path_finder.cpp:43-53 | a graph and start where the radius search of fifty misses a vertex eleven seconds away |
| Divergences.ReturnIsMissed | source/georef/dijkstra_path_finder.cpp:275-292 | a start whose queued end keeps 90 although it is 15 away over the other end |
| Divergences.NodeStartLosesReturn | source/georef/path_finder.cpp:122-128 | a start on the far node of its edge, from which the other end is never reached |
| Divergences.OneEndUnreached | source/georef/path_finder.cpp:145-147 | a target on a one-way street, 15 away over its one reached end, whose answer is infinite on exact arrays |
| Divergences.SkippedSearchIsLonger | source/georef/dijkstra_path_finder.cpp:235-258 | after a search of radius 5 a target 30 away is answered without a search, with 100 |
| SearchLaws.WarmEqualsFresh | source/georef/path_finder.cpp:106-107 | arrays that are both exact up to a radius have the same entries up to it |
| SearchLaws.ExactUpToMeans | source/georef/visitor.h:61-64 | exactness up to a radius means: an entry is within the radius if and only if the true distance is, and then equals it |
| SearchLaws.DistanceExists | source/georef/path_finder.h:102-114 | every vertex has a distance, finite or infinite |
| SearchLaws.BestEdgeExplains | source/georef/path_finder.cpp:387-402 | the cheapest parallel edge accounts for the difference between the entries of its two ends |
| SearchLaws.ChainAddsUp | source/georef/path_finder.cpp:376-385 | following predecessors, the entry equals the root's seed value plus the scaled durations of the walked edges |
| Restarts.ShortcutExists | source/georef/path_finder.h:102-114 | a walk shorter than the entry at its end goes over an edge that is still to be relaxed |
| Restarts.ShortcutIsWalk | source/georef/path_finder.h:102-114 | what goes on from such an edge is a walk of the problem, of that length |
| Restarts.LinkedEndsBlack | source/georef/dijkstra_path_finder.cpp:275-292 | when the queue is empty everything linked to the queued vertices is finished, whatever its entry |
| Projections.NearestIsExact | source/georef/path_finder.cpp:137-167 | with and without the on-node rule, after searches exact up to the radius: a finite answer is within it exactly when the true duration over both ends (or of the coinciding end) is and the source end has an entry; it then is that duration |
| Projections.NearestIsUnique | source/georef/path_finder.cpp:137-167 | a target has one true duration |
| Projections.DirectionMeans | source/georef/path_finder.cpp:137-167 | the direction names the end the duration is over; without the on-node rule the target end only when it is strictly nearer |
| Projections.SameEdgeMeans | source/georef/path_finder.cpp:404-409 | the same edge means the same set of two ends, the same duration and the same way |
| Projections.SkippedIsExact | source/georef/dijkstra_path_finder.cpp:235-258 | an answer read off two entries, whatever searches left them, is the true duration if and only if no shortcut still to be relaxed undercuts it |
| PathFinders.BothFinished | source/georef/visitor.h:69-88 | the counter reaches two exactly when two distinct targets are finished |
| PathFinders.BlackIsReached | source/georef/dijkstra_path_finder.cpp:206-224 | a finished vertex holds its distance, finite exactly when a walk leads to it |
| PathFinders.FoundOnlyKeepsLast | source/georef/dijkstra_path_finder.cpp:68-78 | dropping the destinations that are not projected does not change which destination is last under a key |
| PathFinders.PathFinder.Relax | source/georef/path_finder.h:102-114 | a strict improvement replaces entry and predecessor, anything else changes nothing |
| PathFinders.PathFinder.Scan | source/georef/dijkstra_path_finder.cpp:275-292 | scanning a popped vertex keeps the invariant and blackens exactly that vertex |
| PathFinders.PathFinder.FinishVertex | source/georef/visitor.h:79-84 | the counter is the number of distinct finished targets, and the visitor throws exactly at the last |
| PathFinders.PathFinder.BreadthFirstVisit | source/georef/dijkstra_path_finder.cpp:275-292 | from any sound arrays: soundness is kept, finished vertices are exact, a radius stop is exact up to the radius, a target stop happens exactly when all targets are finished, a search that is not stopped is exact everywhere, and what is seen is exactly what is linked to the queued vertices, if it is not stopped |
| PathFinders.PathFinder.InitStart | source/georef/path_finder.cpp:95-135 | the arrays are sound afterwards with exactly the two ends as seeds, the on-node trick included, although old predecessors stay |
| PathFinders.PathFinder.StartValues | source/georef/path_finder.cpp:106-130 | after the writes in program order the seeds hold their values and point to themselves and nothing else is reached |
| PathFinders.PathFinder.Dijkstra | source/georef/dijkstra_path_finder.cpp:206-224 | the contract of the visit for the start's own problem, whose walks are those of the mode's vertex ranges |
| PathFinders.PathFinder.StartDistanceDijkstra | source/georef/dijkstra_path_finder.cpp:43-53 | exact up to the radius if and only if the queued end was within it or nothing was left to relax within it; unchanged when the queued end is beyond it |
| PathFinders.PathFinder.SearchTwice | source/georef/dijkstra_path_finder.cpp:43-53 | from one start, a search after another radius search without a reset leaves the entries of a single fresh search, up to its radius |
| PathFinders.PathFinder.SearchFor | source/georef/dijkstra_path_finder.cpp:236-252 | the answer is finite if and only if the ends differ, the source end has a walk and the target end is linked to the queued vertex; it is then the true duration, over the end it names |
| PathFinders.PathFinder.FoundByWalks | source/georef/dijkstra_path_finder.cpp:236-252 | when the queued end has a start value, a target can be found exactly when its ends differ and both have a walk |
| PathFinders.PathFinder.UpdatePath | source/georef/dijkstra_path_finder.cpp:226-258 | after a search a finite answer is true; without one it is true if and only if no shortcut undercuts it, and always within a radius the arrays were exact up to; its direction names the nearer end |
| PathFinders.PathFinder.FillDurations | source/georef/dijkstra_path_finder.cpp:63-107 | one answer per destination, the last projected one under a key deciding; on exact arrays, for other ends, another duration or another way than the start's, reached in a finite duration exactly when the true duration is within the radius and the source end has an entry, and then that duration; else the duration along the edge decides |
| PathFinders.PathFinder.FollowPredecessors | source/georef/path_finder.cpp:376-385 | the loop ends and returns the whole chain of predecessors up to its root |
| PathFinders.PathFinder.BuildPath | source/georef/path_finder.cpp:376-385 | the duration of the built path plus the seed value at its root is the entry; items add up and their edges concatenate to the walked edges |
| PathItems.GetBestEdge | source/georef/path_finder.cpp:387-402 | the first of the cheapest parallel edges, none exactly when there is no edge |
| PathItems.BestEdgeIsLeast | source/georef/path_finder.cpp:387-402 | no parallel edge is cheaper |
| PathItems.ItemsAddUp | source/georef/path_finder.cpp:411-462 | the durations of the items add up to that of the walked edges |
| PathItems.AppendKeeps | source/georef/path_finder.cpp:425-455 | one more edge either extends the open item or closes it where way or characteristic change, and the grouping stays well formed |
| PathItems.CreatePath | source/georef/path_finder.cpp:411-462 | lossless in edges, durations and coordinates; behind an edge on a way an item holds only edges of that way, all with its characteristic, and at each boundary a way is left or the characteristic changes |
| GeoRefs.ModeUndoesOffset | source/georef/georef.cpp:241-243 | the layer of an offset vertex is the layer of the mode |
| GeoRefs.AddKeepsSane | source/georef/georef.cpp:245-275 | adding an edge that has a characteristic keeps all edges labelled |
| GeoRefs.GeoRef.Init | source/georef/georef.cpp:362-377 | two more copies of the vertices, without edges, and the five offsets |
| GeoRefs.GeoRef.AddRow | source/ed/ed_reader.cpp:1752-1785 | exactly the edges of the row, one per allowed layer with a known duration; all edges stay labelled |
| GeoRefs.GeoRef.AddBssEdges | source/georef/georef.cpp:865-896 | exactly a pickup and a putback edge between the walking and the biking layer, or nothing |
| GeoRefs.GeoRef.AddParkingEdges | source/georef/georef.cpp:898-931 | exactly a leaving and a parking edge between the walking and the driving layer, or nothing |
| GeoRefs.BikeUntilPutBack | source/georef/georef.cpp:245-275 | after taking a bike the path stays on the biking layer until the bike is put back |
| GeoRefs.BssAlternates | source/georef/georef.cpp:245-275 | along any path taking and putting back bikes alternate |
| GeoRefs.CarUntilParked | source/georef/georef.cpp:245-275 | after leaving a car park the path stays on the driving layer until the car is parked |
| GeoRefs.ParkingAlternates | source/georef/georef.cpp:245-275 | along any path leaving a car park and parking alternate |
| GeoRefs.RebuiltIsPath | source/georef/path_finder.cpp:411-462 | a rebuilt path is a path in this sense |
| FareTickets.ODListIsFirstMatch | source/fare/fare.cpp:533-577 | the list found is that of the first of nine listed pairs of origin and destination keys that matches, and none is found exactly when none matches |
| FareTickets.PlusDates | source/fare/fare.cpp:412-425 | the sum period by period over the common length |
| FareTickets.GetOd | source/fare/fare.cpp:550-602 | the sum of the components in the order of the list |
| FareTickets.SumKeepsTickets | source/fare/fare.cpp:412-425 | apart from its values the sum is the first component |
| FareTickets.ODPriceIsAdditive | source/fare/fare.cpp:579-602 | for components with the same periods the price on a date is the sum of the components' prices on it, and exists exactly when all of them do |
| FareTypes.CompareIntMeans | source/fare/fare.cpp:359-382 | each comparison in terms of the difference of the two numbers |
| FareTypes.CompareStringMeans | source/fare/fare.cpp:359-382 | each comparison in terms of the order of words |
| FareTypes.ElapsedMeans | source/fare/fare.cpp:384-400 | the one duration below a day that leads from the punch to the given time of day |
| FareTypes.GetFareIsFirst | source/fare/fare.cpp:402-410 | the ticket of the first period that holds the date; none exactly when no period does |
| FareTypes.SectionFits | source/fare/fare.cpp:100-104 | a state allows the sections that agree with what it asks for |
| FareTypes.LabelFits | source/fare/fare.cpp:106-111 | a state allows the labels that agree with what it asks for |
| FareTypes.TransitionFits | source/fare/fare.cpp:427-531 | the loops over the conditions accept exactly when all of them hold and no continuation is without a ticket |
| FareEngine.MakeNext | source/fare/fare.cpp:53-98 | updating the label field by field gives the specified next label, or the exception without a ticket |
| FareEngine.FindTicket | source/fare/fare.cpp:157-172 | the ticket under the key on the date, the default ticket when there is none, no ticket without a key |
| FareEngine.EnabledSteps | source/fare/fare.cpp:53-98 | an allowed transition never meets the "internal problem" and gives a label with a ticket |
| FareEngine.Deliver | source/fare/fare.cpp:183-214 | a transition adds exactly the labels it leads to, settled origin-destination labels at the begin node included |
| FareEngine.TakeEdge | source/fare/fare.cpp:140-216 | an edge delivers exactly what it can from all labels of its source, or throws its ticket when exclusive and allowed |
| FareEngine.ComputeLabels | source/fare/fare.cpp:134-229 | the new lists are exactly what one step of the automaton allows, the override by the first exclusive edge included |
| FareEngine.TakeExclusive | source/fare/fare.cpp:219-227 | all lists are cleared and the begin node holds its previous labels with the imposed ticket |
| FareRuns.FirstLabelsRepresent | source/fare/fare.cpp:260-263 | before the first section the lists are the empty run |
| FareRuns.AdvanceRepresents | source/fare/fare.cpp:134-229 | if the lists are exactly the ends of all runs, so are the lists of one more section |
| FareRuns.AdvanceKeepsConsistent | source/fare/fare.cpp:134-229 | labels stay well formed and the begin node's list is never empty |
| FareRuns.DefaultDelivers | source/fare/fare.cpp:612-625 | the default ticket always leads a label of the begin node back to it |
| FareLaws.StepLedger | source/fare/fare.cpp:53-98 | a bought or ridden transition keeps the ledger: sections once each and in order, cost paid, changes and start time of the last ticket |
| FareLaws.SettleLedger | source/fare/fare.cpp:183-199 | settling pays for the open ticket and keeps its sections |
| FareLaws.RunKeepsLedger | source/fare/fare.cpp:134-229 | every run over named sections keeps the ledger, open tickets still unpaid |
| FareLaws.FindBestLabel | source/fare/fare.cpp:231-250 | the first label with fewest undefined tickets, then least cost, then fewest tickets, then fewest changes |
| FareLaws.PriceMeans | source/fare/fare.h:61-70 | a cost is the sum of the ticket values, undefined exactly when one of them is |
| FareLaws.BestIsCheapest | source/fare/fare.h:262-272 | against every run: no more undefined tickets, then no greater sum of ticket values, then no more tickets, then no more changes |
| FareLaws.ComputeFare | source/fare/fare.cpp:252-278 | tickets, sum and `not_found` are those of such a best run; the total is at most that of any run without an undefined ticket |
| FareLaws.BeginIsPaid | source/fare/fare.cpp:183-214 | at the begin node the cost is the sum of all ticket values |
| FareLaws.NotFoundIsExact | source/fare/fare.cpp:231-250 | with priced origin-destination tickets `not_found` is false exactly when some run needs no undefined ticket |
| Schedules.ShiftIsOneDay | source/ed/data.cpp:221 | the shift is at most one day exactly for starts from one day before (excluded) to one day after midnight, and then brings the start between midnight and midnight |
| Schedules.ServiceIsConserved | source/ed/data.cpp:200-254 | moving dates by whole days and times by as many keeps the instants exactly when no date lies beyond the limit |
| Schedules.ShiftMovesDates | source/ed/data.cpp:174-198 | the bit operations on a journey's pattern, read as dates, are a move by the shift up to an exact limit, with and without a rebase |
| Schedules.RebaseMovesDates | source/ed/data.cpp:185-189 | a rebase for another journey changes no date of an already shifted pattern but those beyond the limit |
| Schedules.RebasesOnce | source/ed/data.cpp:175-178 | once the production period was moved no journey asks for it again |
| Schedules.TriggerIsFirst | source/ed/data.cpp:175-178 | the journey that moves the period is the first one that would |
| Schedules.RunReaches | source/ed/data.cpp:200-254 | after any prefix of the run every journey is placed exactly as its own shift and the one rebase say |
| Schedules.CanShiftOn | source/ed/data.cpp:222-238 | whether a journey can be shifted does not depend on the journeys before it |
| Schedules.RunConservesService | source/ed/data.cpp:200-254 | a run keeps all instants of a stop of a journey exactly when none of its active dates falls off the bits, for every journey, shifted or waiting |
| Schedules.RunTimes | source/ed/types.h:419-425 | every shifted journey has its times changed once, whatever the others do |
| Schedules.CanShiftMeans | source/ed/data.cpp:206-238 | a frequency can be shifted exactly when its start time is within a day of today, any other journey exactly when its earliest arrival or boarding is |
| Schedules.FrequencyAfterRun | source/ed/data.cpp:245-252 | a shifted frequency has its start time between midnight and midnight, its stops moved by as much, and a non-negative end time congruent modulo a day |
| Schedules.OthersAfterRun | source/ed/data.cpp:206-243 | any other shifted journey has no arrival or boarding before midnight and one on the day itself, all stops moved by the same whole days |
| Schedules.RunStartsToday | source/ed/data.cpp:206-213 | after the run the deciding time of every shifted journey is between midnight and midnight |
| Schedules.EarliestMoves | source/ed/types.cpp:123-128 | the earliest time moves with the stops |
| ScheduleObjects.StopTime.ShiftTimes | source/ed/types.h:419-425 | all four times move by whole days |
| ScheduleObjects.VehicleJourney.ShiftFrequency | source/ed/data.cpp:245-252 | the start moves by the shift, the end is only made positive |
| ScheduleObjects.Data.GetOrCreateValidityPattern | source/ed/data.cpp:163-171 | a listed pattern with the same days if there is one, otherwise a new one at the end |
| ScheduleObjects.Data.ShiftVpLeft | source/ed/data.cpp:174-198 | the pattern moves one day; the period and all listed patterns are rebased exactly when the first day is active, and the period is cut to fit the bits |
| ScheduleObjects.Data.ShiftPattern | source/ed/data.cpp:223-240 | the journey gets the pattern of its shift, shared if possible; false exactly beyond one day, and then nothing changes |
| ScheduleObjects.Data.ShiftJourney | source/ed/data.cpp:201-253 | one journey is normalised, and nothing but a rebase happens to listed patterns |
| ScheduleObjects.Data.ShiftNext | source/ed/data.cpp:201-253 | on the shared objects, shifting one journey is one step of the specified run for all journeys |
| ScheduleObjects.Data.ShiftStopTimes | source/ed/data.cpp:200-254 | the objects hold what the specified run says, up to the first journey that cannot be shifted; all shifted frequencies start between midnight and midnight |
| Blocks.LessIsWeakOrder | source/ed/data.cpp:87-103 | the comparison given to the sort is a strict weak order |
| Blocks.SortedMeans | source/ed/data.cpp:87-103 | the sorted order by block, offset, journeys without stops first, then departure |
| Blocks.JoinedMeans | source/ed/data.cpp:106-139 | neighbours are joined exactly when they share block and offset, both have stops, the second does not leave before the first arrives, and no pair up to there overlaps on different stop points |
| Blocks.Data.BuildBlockId | source/ed/data.cpp:83-141 | exactly the joined neighbours of the sorted list are linked, both ways, up to the first clash |
| Blocks.LinkedIsSymmetric | source/ed/data.cpp:132-136 | links are symmetric and stay in the list |
| Blocks.ClashStopsLaterBlock | source/ed/data.cpp:118-125 | two blocks: a clash in the first leaves a pair of the second unlinked that would be joined |
| Blocks.JoinedAreConsecutive | source/ed/data.cpp:87-136 | joined journeys share block and offset, do not travel back in time, and no other journey of them starts in between |
| Erasing.SurvivorsCount | source/ed/data.cpp:394-404 | a survivor is kept as often as it was there, and nothing else |
| Erasing.EraseRound | source/ed/data.cpp:397-402 | overwriting a marked element by the last one keeps the survivors behind it as a multiset and all in front of it in place |
| Erasing.EraseEnd | source/ed/data.cpp:404 | after all rounds the kept prefix is the survivors' multiset |
| Cleaning.CondemnedMeans | source/ed/data.cpp:360-381 | a journey is kept on its own account exactly when it is not badly formed, has stops, is active on a day of one of its patterns, and has no negative time |
| Cleaning.RemainingNext | source/ed/data.cpp:424-441 | removing one more journey from its meta journey, and the meta journey when it is left empty, gives the meta journeys without it |
| Cleaning.RemainingAreSurvivors | source/ed/data.cpp:424-441 | if meta journeys listed exactly the journeys, what remains lists exactly the survivors and none is empty |
| Cleaning.Data.ToErase | source/ed/data.cpp:360-381 | the uris of exactly the condemned journeys |
| Cleaning.Data.EraseStops | source/ed/data.cpp:383-404 | the stop times left are the survivors' multiset |
| Cleaning.Data.RemoveFromMeta | source/ed/data.cpp:424-441 | the first occurrence is removed, the meta journey too when left empty; false exactly when it is not listed |
| Cleaning.Data.EraseJourney | source/ed/data.cpp:417-446 | the links of what is left never lead to an erased journey and are otherwise unchanged |
| Cleaning.Data.OverwriteJourneys | source/ed/data.cpp:406-448 | all marked journeys are erased, or the exception comes exactly when one is not listed by its meta journey |
| Cleaning.Data.Clean | source/ed/data.cpp:355-448 | journeys, stop times, meta journeys and links left are exactly those of the survivors; a journey survives exactly when all journeys with its uri run well; links stay symmetric |
| Daylight.FirstDayIsGregorian | source/ed/data.cpp:863-866 | the first days of years follow the closed form of the Gregorian calendar |
| Daylight.WholeMinutesMeans | source/ed/data.h:93-98 | offsets lose less than a minute, towards zero |
| Daylight.IntersectionIsExact | source/ed/data.cpp:954-961 | intersecting two periods keeps exactly the common days, empty periods included |
| Daylight.AllPiecesCover | source/ed/data.cpp:854-912 | each day of the years is in one piece, and once more for each year whose summer is reversed around it; no other day is in any |
| Daylight.PartitionIffNoneReversed | source/ed/data.cpp:854-912 | the pieces are a partition of the years if and only if no year but an exempt first one has its summer reversed |
| Daylight.TurnedYearIsCoveredTwice | source/ed/data.cpp:872-884 | a zone whose order of change dates turns between two years, and a day in two pieces |
| Daylight.AllPiecesShift | source/ed/data.cpp:872-879 | when the order of the change dates is the same in all years, every piece carries the offset that each of its days has by its own year's dates |
| Daylight.GetDstPeriods | source/ed/data.cpp:854-912 | the pieces of all years the period has days in; none for an empty period |
| Daylight.SplitOverDst | source/ed/data.cpp:919-965 | the parts of the period by offset; the period itself without daylight saving, nothing without a zone |
| Daylight.SplitIsPartition | source/ed/data.cpp:919-965 | every day of the period is in exactly one interval, in the group of its own offset |
| Words.BeforeMeans | source/autocomplete/autocomplete.h:221-226 | words are ordered by the first place where they differ, a word after its own beginnings |
| Autocompletes.BelowIsDownward | source/autocomplete/autocomplete.h:225-226 | one half of the asymmetric comparison cuts an ordered dictionary in two |
| Autocompletes.AboveIsUpward | source/autocomplete/autocomplete.h:218-222 | so does the half that treats words starting with the token as equal to it |
| Autocompletes.BetweenIsPrefix | source/autocomplete/autocomplete.h:213-227 | what is neither below nor above is exactly what starts with the token |
| Autocompletes.LowerBound | source/autocomplete/autocomplete.h:232 | exactly the words in front of the bound are below the token |
| Autocompletes.UpperBound | source/autocomplete/autocomplete.h:233 | exactly the words from the bound on are above the token |
| Autocompletes.Match | source/autocomplete/autocomplete.h:230-244 | exactly the positions of the words that start with the token |
| Autocompletes.Common | source/autocomplete/autocomplete.h:262-277 | the sorted intersection without duplicates |
| Autocompletes.FindIn | source/autocomplete/autocomplete.h:247-281 | sorted and without duplicates, exactly the positions where every query word starts some word; none for an empty query |
| Autocompletes.IncreasingIsUnique | source/autocomplete/autocomplete.h:247-281 | such a list is determined by its elements |
| Autocompletes.ListingMatches | source/autocomplete/autocomplete.h:188-201 | matching in a built dictionary is matching in the indexed words |
| Autocompletes.Autocomplete.AddString | source/autocomplete/autocomplete.h:127-150 | exactly the given words are indexed at the position in addition |
| Autocompletes.Autocomplete.Build | source/autocomplete/autocomplete.h:188-193 | the words in order, each with its positions in order, behind what was there |
| Autocompletes.Autocomplete.Find | source/autocomplete/autocomplete.h:247-281 | the answer in terms of what was indexed |
| CommonSubstrings.RunIsGreatest | source/autocomplete/autocomplete.cpp:175-183 | a cell of the table is the greatest number of characters that match there |
| CommonSubstrings.FillRow | source/autocomplete/autocomplete.cpp:173-188 | one row of the table from the row before, with the best cell so far |
| CommonSubstrings.LongestCommonSubstring | source/autocomplete/autocomplete.cpp:164-192 | the greatest length of a common substring and where the first of that length, row by row, ends in the second string |
| CommonSubstrings.LongestIsUnique | source/autocomplete/autocomplete.cpp:164-192 | this determines the result |
| OsmWays.OSMCache.ReadWay | source/ed/osm2ed.cpp:207-215 | a node is flagged exactly when a street refers to it while it is known already |
| OsmWays.SharedByStreets | source/ed/osm2ed.cpp:207-215 | a node two street references lead to is flagged |
| OsmWays.SharedWithOtherWay | source/ed/osm2ed.cpp:207-215 | a node a street shares with a later way that is no street is not flagged |
| OsmWays.OSMCache.FlagNodes | source/ed/osm2ed.cpp:1102-1117 | the first and the last defined node of every way are flagged, and nothing else changes |
| OsmWays.OSMCache.InsertNodes | source/ed/osm2ed.cpp:351-375 | a row with the coordinates for exactly the nodes that have coordinates and one of the two flags |
| OsmWays.OSMCache.InsertWay | source/ed/osm2ed.cpp:433-479 | two rows, one per direction, for each part from cut to cut |
| OsmWays.OSMCache.InsertEdges | source/ed/osm2ed.cpp:418-490 | the rows of all ways in order |
| OsmWays.CutIsCutting | source/ed/osm2ed.cpp:441-479 | parts have at least two nodes, are cut at both ends (or begin the way) and nowhere in between |
| OsmWays.PartsAddUp | source/ed/osm2ed.cpp:441-479 | the parts glued at their ends, and what is left open, are the defined nodes of the way |
| OsmWays.WayIsReproduced | source/ed/osm2ed.cpp:441-479 | the forward geometries reproduce the defined nodes exactly when the last of them is shared or ends the way |
| OsmWays.DefinedWayIsReproduced | source/ed/osm2ed.cpp:441-479 | for a way of at least two nodes, all defined, the forward geometries run through all of them |
| OsmWays.PartsAreClosed | source/ed/osm2ed.cpp:433-479 | the ends of a part have rows, its inner nodes are not shared |
| OsmWays.AllRowsAreClosed | source/ed/osm2ed.cpp:361-365 | both ends of every inserted edge are inserted nodes |
| OsmWays.InteriorIsPrivate | source/ed/osm2ed.cpp:207-215 | no two street references lead to an inner node of a part |

## Left out

- Reading and writing tables, files and protobuf messages: a bulk insert appends to a sequence or a map, and read rows are parameters.
- Geometry: projections, crow-fly and along-edge durations and coordinates are parameters; headings (`path_item.angle`), `get_path` with its stitching of projections, and shapes are not modelled.
- Durations are natural numbers with an infinity. One scale function stands for the speed: the search multiplies by the inverse factor and `create_path` divides by the factor, and floating-point differences between the two are not modelled. Path lengths need that function to be monotone.
- The heap and the two-bit colour map: any queued vertex of least entry may be popped.
- A* search, its visitor and its heuristic.
- PathFinders.PathFinder.FillDurations: destinations on the starting edge take their duration from a parameter; the duplicate entries of the two public searches that call it and their crow-fly cases are not modelled.
- PathFinders.PathFinder.UpdatePath: the assertion behind the search, that both ends are reached, is not modelled; `CanBeFound` says when an answer is finite. The direction that goes with the answer is that of `find_nearest_vertex`.
- `FareTypes.Loaded` is what the loader guarantees: no `with_changes` edge enters the begin node, tickets in the map can be told from a change and from an open ticket, and origin-destination lists are not empty. Section stop areas have names.
- FareLaws.ComputeFare: the second entry point over protobuf journeys and the construction of sections from routing items are not modelled; conditions hold numbers that are already parsed, and the assertion at `source/fare/fare.cpp:470` is not modelled.
- A state that asks for a ticket reads the last ticket of a label; on a label without tickets that is undefined in the program, and false in the model. Consistent labels without tickets occur only at the begin node, whose state asks for nothing.
- ScheduleObjects.Data.ShiftStopTimes: the rebuilt time-zone table after a rebase and the assertion that shifted times are not negative are not modelled; adapted patterns are not part of the model of the shift.
- Journeys, stop times and the data set are declared once per concern (`ScheduleObjects`, `Blocks` with `Cleaning`), each with the fields that concern reads or writes.
- Blocks.Data.BuildBlockId: the sorted order is a parameter, any order a sort by the comparison may produce; UTC offsets are fields.
- Cleaning.Data.Clean: journeys carry their days instead of their pattern objects; comments and codes of erased objects and the removal of duplicate connections are not modelled. What the lists hold after the exception is not stated.
- Daylight.GetDstPeriods: change dates per year are a function of the zone; that they lie in their year is a hypothesis of the theorems. Offsets are kept in whole minutes, as the program keeps them, so a zone with odd seconds loses them.
- Autocompletes.Autocomplete.AddString: the words a string is cut into are given; tokenising, synonyms, patterns of two letters, word counts, scoring and ranking are not modelled.
- `Autocompletes.Sort`, `Unique` and the binary searches stand for the standard library's.
- OsmWays.OSMCache.ReadWay: which ways are kept and which are streets is given; admin boundaries, house numbers, points of interest and the merging of ways are not modelled. Coordinates are the stored integers, and rows are not turned into text.
- Building of associated calendars, pick-up and drop-off rules at borders, grids of patterns, connections, routes' destinations: easy beside the above.
