# A verified model of ROCOCO/DST's transaction core

ROCOCO runs distributed transactions by shipping dependency graphs between servers; beside it the repository has an optimistic
two-phase-commit protocol, an in-memory database with secondary indexes, row storage and multi-version snapshots, and the hash
and sharding code under them. This project models the parts whose correctness is hardest to see in the C++ and proves what
they promise, for every input, every reachable state or every run.

Code that changes things in place is modelled with classes, arrays and loops proved against specification functions; what the
source promises is proved of those functions as lemmas.

| area | files |
|---|---|
| shared helpers | `Options`, `Seqs` |
| strongly connected components, their execution order, ancestor search | `Graph`, `Tarjan`, `Sorting`, `SortedSccSpec`, `SortedScc`, `Ancestors` |
| graph union | `UnionSpec`, `VertexStore`, `GraphUnion` |
| graph marshalling | `Marshal`, `Unmarshal` |
| optimistic commit across sites | `Locking`, `OccSite`, `OccServer`, `OccInv`, `History`, `OccSystem`, `OccProof`, `OccSerial`, `OccVotes` |
| one coordinator attempt | `CoordSpec`, `Coordinator` |
| snapshot maps | `SnapshotData`, `SnapshotRing`, `SnapshotSpec`, `SnapshotProof`, `SnapshotRuns`, `SnapshotMap`, `Snapshots` |
| secondary indexes and key order | `IndexSpec`, `IndexedTable`, `KeyOrder` |
| schema and row storage | `RowLayout`, `RowStore` |
| a transaction's view of its own staged changes | `StagedOrder`, `OwnViewSpec`, `OwnViewProof`, `MergedView`, `MergeOrder`, `OwnView` |
| XXH32 | `Xxh32`, `Xxh32Stream`, `Xxh32Vectors` |
| odometer of sharding, item draw of the TPC-C generator | `Odometer`, `ItemDraw` |

## Main results

- `Tarjan.FindScc`: full correctness of the component search.
- `SortedScc.SortedSccOf` and `SortedScc.TwoServers`: the execution order is a topological order of the whole component, exists
  exactly under a condition on its immediate edges, and is the same on every server.
- `OccSerial.Serializable` and `OccSerial.SettledSerial`: every run of the protocol is equivalent to the serial run in decision
  order.
- `OccVotes.VoteExact` and `OccVotes.CommitExact`: when a site votes yes and when a transaction commits, told from the steps
  of the run without versions or locks.
- `CoordSpec.OutcomeExact`, `CoordSpec.OneOutcome` and `CoordSpec.FinishesExactlyOnce`: one decision, sent once, and which.
- `SnapshotRuns.SharedLooksPrivate`: a shared multi-version map with garbage collection refines private copies.
- `OwnViewProof.RunAgrees` with `OwnView.Txn2PL.Commit`: a transaction sees what it will commit.
- `IndexSpec.QueryFilters` with the methods of `IndexedTable.Indexed`: indexes follow every update.
- `Unmarshal.RoundTrip`, `UnionSpec.JoinLeast` with `GraphUnion.Graph.UnionGraph`, `Xxh32Stream.SameHash`,
  `RowStore.CreateAndReplay`, `Odometer.EveryTupleOnce`, `ItemDraw.DrawsCorrespond`.

## Where a promise does not hold as stated

Each has the exact condition under which it does, and an instance that breaks it.

- `sorted_scc` returns only if no member has immediate parents both inside and outside the component, because the start set
  looks inside only and the ready test everywhere (`SortedSccSpec.OrderDefined`, `SortedScc.MixedParentsStop`).
- `find_txn_scc_anc_opt` searches from one member and may miss ancestors when members are decided
  (`Ancestors.SingleSearchExact`, `Ancestors.AlwaysExactWhen`, `Ancestors.DecidedMemberHides`). The condition of
  `SingleSearchExact` is exact for the member that was searched. That of `AlwaysExactWhen` is over all members that may be
  listed first as far as paths tell: it is sufficient for the code, and exact over those members.
- The rows of a query on a sorted table come in key order only if their addresses do, because the merged cursor compares row
  addresses (`MergeOrder.MergeInOrder`, `OwnView.Txn2PL.Query`, `OwnView.AddressBeatsKey`).
- Server-side graph union depends on the order of arrival (`UnionSpec.ServerMergeOrder`, `UnionSpec.ServerOrderMatters`).
- Removal without `do_free`, as commit does it, leaves index entries behind (`IndexedTable.RemoveWithoutFree`,
  `IndexedTable.LeftBehind`); inserting the row again mends it exactly when no indexed column has changed
  (`IndexedTable.InsertAgain`).
- Copying a row loses hidden string columns; adding a hidden column under a taken name hides a visible one
  (`RowStore.Copy`, `RowStore.HiddenStringLost`, `RowStore.Schema.AddHiddenColumn`, `RowStore.TakenNameHides`). The repository
  itself hides only one 64-bit column.
- A range query before commit goes by the old value of a key column with a staged write (`OwnViewProof.QueryAgrees`,
  `OwnViewProof.QueriesAgreeWhen`, `OwnViewProof.KeyWriteHides`).
- A key column of a row staged for insertion may be written only so far as the new key fits between its neighbours, since staged
  rows are not filed again (`OwnViewProof.WriteExact`, `OwnViewProof.NewKeyFits`, `OwnViewProof.KeyWriteDisorders`).
- Collection keeps entries newer than every member, which nobody can see: the highest version starts from an unsigned -1 and
  is never found (`SnapshotProof.LeftUnseen`, `Snapshots.Snapshots.GcRun`).
- An attempt with no piece ready, or with one that is never released, never finishes (`CoordSpec.FinishesExactlyOnce`,
  `CoordSpec.NothingReady`, `CoordSpec.NeverReleased`).

One assertion is not modelled: the bound on the version at rococo-dst/memdb/snapshot.h:518 compares an unsigned
value with -1. The -1 of an unset version is "none" here.

## Model

| member | source | states |
|---|---|---|
| `Tarjan.FindScc` | rococo-dst/deptran/graph.hpp:480-493 | for every finite closed graph the search ends and lists exactly the vertices mutually reachable with `v`, once each and `v` last; every vertex but the first listed can be reached from `v` without passing the first |
| `Tarjan.Search.StrongConnect` | rococo-dst/deptran/graph.hpp:293-329 | a visit keeps the stack, index and lowlink invariants; a root leaves the stack as it found it and returns its whole component, any other vertex stays stacked with a lowlink that a stacked vertex it reaches has as its index |
| `Tarjan.Search.LookAll` | rococo-dst/deptran/graph.hpp:305-317 | after the loop over the children no edge out of `v` or its finished part leads below the stack position its lowlink allows |
| `Tarjan.Search.Look` | rococo-dst/deptran/graph.hpp:306-316 | one child: recursion into an unnumbered one, the index of a stacked one, nothing for a settled one |
| `Tarjan.Search.PopComponent` | rococo-dst/deptran/graph.hpp:319-327 | popping down to a root removes exactly its component |
| `Tarjan.PushInv` | rococo-dst/deptran/graph.hpp:300-303 | numbering and stacking a new vertex keeps the reachability invariants of the search |
| `Tarjan.PopInv` | rococo-dst/deptran/graph.hpp:319-327 | popping a detached segment keeps them |
| `Tarjan.PoppedComponent` | rococo-dst/deptran/graph.hpp:319-327 | a detached stack segment is the set of vertices mutually reachable with its root, in both directions |
| `Tarjan.EarlyNext` | rococo-dst/deptran/graph.hpp:300-309 | numbering the next vertex keeps that every numbered vertex has a walk from the start through vertices numbered no later |
| `Tarjan.FirstLeavesRest` | rococo-dst/deptran/graph.hpp:319-327 | the vertex popped first was numbered last, so every other one is reached without passing it |
| `Sorting.Partition` | rococo-dst/deptran/graph.hpp:332-355 | the in-place partition permutes its range and splits it at the pivot by id |
| `Sorting.QsortVv` | rococo-dst/deptran/graph.hpp:332-355 | the in-place quicksort permutes exactly its range and leaves it ascending by id |
| `SortedScc.SortVv` | rococo-dst/deptran/graph.hpp:358-363 | a permutation, ascending by id or, with the flag, descending |
| `SortedScc.HasInnerParent` | rococo-dst/deptran/graph.hpp:396-407 | whether a member has an immediate parent inside the component |
| `SortedScc.AllParentsVisited` | rococo-dst/deptran/graph.hpp:461-470 | whether every immediate parent, inside the component or not, is placed |
| `SortedScc.StartVv` | rococo-dst/deptran/graph.hpp:392-411 | the start set is the members without an immediate parent inside, once each |
| `SortedScc.Release` | rococo-dst/deptran/graph.hpp:441-474 | the members a placement makes ready, in ascending id order |
| `SortedScc.TopoSort` | rococo-dst/deptran/graph.hpp:432-475 | the stack loop places vertices as the id-level loop does, whatever order maps and sets are walked in |
| `SortedScc.SortedSccOf` | rococo-dst/deptran/graph.hpp:365-478 | a result has every member of the component once, and where the relation stored from one member to another is 2 or more the first comes before the second; there is a result if and only if those edges are acyclic inside and no member has such parents both inside and outside, otherwise the final `verify` fails |
| `SortedScc.ImmediateSigned` | rococo-dst/deptran/graph.hpp:399-400 | for every byte, the relation counts as immediate if and only if it is at least 2 as a signed number |
| `SortedScc.ImmediateBits` | rococo-dst/deptran/constants.hpp:45-55 | on relations that are not negative, any bit but that of `EDGE_D` makes an edge immediate, and or-ing relations keeps that |
| `SortedScc.TwoServers` | rococo-dst/deptran/graph.hpp:384-387 | two graphs that agree by transaction id, over different vertex objects, give the same id sequence or both fail |
| `SortedScc.OrderById` | rococo-dst/deptran/graph.hpp:384-387 | components and immediate edges of such graphs agree by id |
| `SortedSccSpec.OrderMembers` | rococo-dst/deptran/graph.hpp:389-477 | the id-level order has every member exactly once |
| `SortedSccSpec.OrderTopological` | rococo-dst/deptran/graph.hpp:461-477 | a member comes after each member with an immediate edge to it |
| `SortedSccSpec.StartsAscend` | rococo-dst/deptran/graph.hpp:411-434 | members without an immediate parent inside come in ascending order of their ids |
| `SortedSccSpec.SiblingsDescend` | rococo-dst/deptran/graph.hpp:451-473 | of two members that wait for the same last parent, the one with the greater id comes first |
| `SortedSccSpec.OrderDefined` | rococo-dst/deptran/graph.hpp:476-477 | the order exists if and only if the immediate edges inside are acyclic and no member has mixed immediate parents |
| `SortedScc.MixedParentsStop` | rococo-dst/deptran/graph.hpp:389-477 | a three-vertex graph on which `sorted_scc` fails its count check: 1 and 2 depend on each other, and 1 and the outsider 0 both come immediately before 2 |
| `SortedSccSpec.StepInv` | rococo-dst/deptran/graph.hpp:434-475 | one placement keeps: stack and placed members disjoint, ready, without repetition |
| `Ancestors.FindTxnAncOpt` | rococo-dst/deptran/dep_graph.cc:145-185 | from an empty result set, exactly the vertices that reach the source through undecided vertices only; from a given set, what it adds and what it leaves unexpanded |
| `Ancestors.AddParents` | rococo-dst/deptran/dep_graph.cc:157-163 | one expansion adds the undecided parents to the result and, if new, to the work list, and nothing else |
| `Ancestors.Round` | rococo-dst/deptran/dep_graph.cc:153-179 | a round of the work list keeps the search invariant and makes progress |
| `Ancestors.PerMemberSearch` | rococo-dst/deptran/dep_graph.cc:197-199 | the per-member loop left in a comment: the open ancestors of any member, minus the component |
| `Ancestors.FindTxnSccAncOpt` | rococo-dst/deptran/dep_graph.cc:194-212 | the single search returns the open ancestors of one candidate minus the component; the result is that of the per-member loop when every undecided entry is above every candidate, and so when no member is decided |
| `Ancestors.SingleSearchExact` | rococo-dst/deptran/dep_graph.cc:194-212 | the single search equals the per-member loop if and only if every undecided entry into the component reaches the searched member through undecided vertices |
| `Ancestors.AlwaysExactWhen` | rococo-dst/deptran/dep_graph.cc:194-212 | searches from all candidates, the members without which every other is still reachable from `v`, equal the per-member loop if and only if every undecided entry into the component is an open ancestor of every candidate: a condition on the graph and the decided set alone, sufficient for the code, and exact as long as each candidate is listed first under some order of the edges |
| `Ancestors.FirstIsCandidate` | rococo-dst/deptran/dep_graph.cc:201-202 | the member searched is a candidate: every other member is reachable from `v` without passing it |
| `Ancestors.CandidateNotStart` | rococo-dst/deptran/dep_graph.cc:201-202 | `v` itself is a candidate only if the component has no other member |
| `Ancestors.DecidedMemberHides` | rococo-dst/deptran/dep_graph.cc:194-212 | edges 0 to 1, 1 to 2, 2 to 1 with 1 decided: asked about 1, the single search finds nothing and the per-member loop finds 0 |
| `UnionSpec.JoinComm` | rococo-dst/deptran/graph.hpp:527-571 | client-side union of abstract graphs is commutative |
| `UnionSpec.JoinAssoc` | rococo-dst/deptran/graph.hpp:527-571 | it is associative |
| `UnionSpec.MergeIdem` | rococo-dst/deptran/graph.hpp:527-571 | union with oneself changes nothing, on clients and on servers |
| `UnionSpec.JoinLeast` | rococo-dst/deptran/graph.hpp:527-571 | it is the least graph above both in the componentwise order of vertices, status bits, servers, edges and relation bits |
| `UnionSpec.BelowJoin` | rococo-dst/deptran/graph.hpp:527-571 | a graph is componentwise below another if and only if the union with it adds nothing |
| `UnionSpec.ServerMergeOrder` | rococo-dst/deptran/txn_info.h:76-102 | two server-side unions commute if and only if, transaction by transaction, the own-server status rule gives the same bits in both orders |
| `UnionSpec.ServerOrderMatters` | rococo-dst/deptran/txn_info.h:93-102 | a graph and two updates for which the order of server-side unions shows |
| `UnionSpec.OwnStatusStands` | rococo-dst/deptran/txn_info.h:93-102 | after any sequence of unions at a server, the status of a transaction it is involved in is its own |
| `UnionSpec.OthersGather` | rococo-dst/deptran/txn_info.h:93-102 | after any sequence of unions at a server that nobody names for a transaction, a status bit is set if and only if someone has set it |
| `UnionSpec.ProgressEnd` | rococo-dst/deptran/graph.hpp:531-566 | when every received vertex has been handled in any order, the graph is the merge |
| `VertexStore.InsertedOk` | rococo-dst/deptran/graph.hpp:537-540 | adding a vertex keeps the id index in step with the vertex index and `from_` the mirror of `to_` |
| `VertexStore.LinkedAbs` | rococo-dst/deptran/graph.hpp:562-563 | or-ing relation bits into `to_` and `from_` adds those bits to one edge of the abstract graph |
| `GraphUnion.Vertex.UnionData` | rococo-dst/deptran/txn_info.h:76-102 | servers are united and status bits or-ed, on a server only under its own-server rule |
| `GraphUnion.Graph.FindOrNew` | rococo-dst/deptran/graph.hpp:549-558 | looks a transaction up by id or adds it with the received data; all else keeps its place |
| `GraphUnion.Graph.OrRelation` | rococo-dst/deptran/graph.hpp:560-563 | both ends of an edge get the relation bits and no vertex data changes |
| `GraphUnion.Graph.UnionEdges` | rococo-dst/deptran/graph.hpp:547-564 | every received out-edge of a vertex is added once, with its target |
| `GraphUnion.Graph.UnionVertex` | rococo-dst/deptran/graph.hpp:531-566 | one received vertex takes the union one step towards the merge |
| `GraphUnion.Graph.UnionGraph` | rococo-dst/deptran/graph.hpp:527-571 | in-place union computes the merge of the two abstract graphs, the join on a client, and keeps `from_`/`to_` mirrored and the indexes in step |
| `Marshal.MarshalHelp1` | rococo-dst/deptran/graph.cc:8-31 | writes the count and then id and relation of exactly the out-edges that stay inside the selection |
| `Marshal.CollectEnds` | rococo-dst/deptran/graph.cc:13-24 | collects those ends and relations in step |
| `Marshal.WriteVertex` | rococo-dst/deptran/graph.cc:57-61 | writes one entry of the induced subgraph |
| `Marshal.WriteToMarshal` | rococo-dst/deptran/graph.cc:49-72 | the stream encodes the subgraph induced on `ret_set` |
| `Marshal.WriteGraph` | rococo-dst/deptran/graph.hpp:581-604 | the stream encodes the whole graph |
| `Unmarshal.TakeVertices` | rococo-dst/deptran/graph.hpp:612-633 | reads the vertices and their raw edges, failing on a stream that is too short or malformed |
| `Unmarshal.LinkAll` | rococo-dst/deptran/graph.hpp:635-651 | turns ids into mirrored edges, and fails exactly on an edge to an id that was not read |
| `Unmarshal.TakeGraph` | rococo-dst/deptran/graph.hpp:607-655 | reads a graph as the reference reader does |
| `Unmarshal.ReadMirrored` | rococo-dst/deptran/graph.hpp:635-651 | whatever the stream, a graph that is read has `from` the mirror of `to` |
| `Unmarshal.RoundTrip` | rococo-dst/deptran/graph.hpp:581-655 | reading what was written gives back ids, status, servers and relations of any closed non-empty graph, and leaves the rest of the stream |
| `Unmarshal.SelectionRoundTrip` | rococo-dst/deptran/graph.cc:49-72 | reading what `write_to_marshal` wrote gives the induced subgraph, mirrored, even for a selection that is not closed: each selected vertex with its status and servers, and of its edges exactly those to selected vertices, with their bits |
| `Marshal.WireForm` | rococo-dst/deptran/graph.hpp:582-605 | the one stream that describes a given graph of one vertex, token by token |
| `Unmarshal.ReadEntries` | rococo-dst/deptran/graph.hpp:616-631 | entries are read back one by one in whatever order they were written |
| `Locking.RWLock.WlockBy` | rococo-dst/memdb/locking.h:27-46 | write lock: granted to the holder, to the only reader or on a free lock, otherwise nothing changes |
| `Locking.RWLock.RlockBy` | rococo-dst/memdb/locking.h:48-54 | read lock: refused exactly when another holds the write lock |
| `Locking.RWLock.UnlockBy` | rococo-dst/memdb/locking.h:56-75 | releases what the owner holds and reports whether it held anything |
| `Locking.OthersKept` | rococo-dst/memdb/locking.h:27-75 | a writer excludes every other owner, and no call changes what another owner holds |
| `Locking.GrantExact` | rococo-dst/memdb/locking.h:27-54 | a write lock can be had if and only if nobody else holds the row, a read lock if and only if nobody else writes |
| `OccServer.SiteServer.ReadColumn` | rococo-dst/memdb/txn.cc:1330-1367 | own staged value if any, otherwise the table value, with its version recorded the first time |
| `OccServer.SiteServer.WriteColumn` | rococo-dst/memdb/txn.cc:1369-1405 | stages the value and records the version; the table does not change |
| `OccServer.SiteServer.VersionCheck` | rococo-dst/memdb/txn.cc:1116-1143 | true if and only if every recorded version is still the current one |
| `OccServer.SiteServer.LockReads` | rococo-dst/memdb/txn.cc:1204-1226 | all read locks or none |
| `OccServer.SiteServer.LockWrites` | rococo-dst/memdb/txn.cc:1227-1249 | all write locks, or every lock taken so far is undone |
| `OccServer.SiteServer.CommitPrepare` | rococo-dst/memdb/txn.cc:1195-1253 | votes yes if and only if all recorded versions, of reads and of writes, match and all locks can be had, which `OccVotes.VoteExact` tells from the run; a no leaves the site as it was |
| `OccServer.SiteServer.ReleaseResource` | rococo-dst/memdb/txn.cc:1145-1173 | drops the locks and staged state of one transaction and no other |
| `OccServer.SiteServer.Abort` | rococo-dst/memdb/txn.cc:1175-1179 | the table is unchanged |
| `OccServer.SiteServer.ApplyUpdates` | rococo-dst/memdb/txn.cc:1262-1311 | installs the staged values and raises the versions of exactly the written columns |
| `OccServer.SiteServer.CommitConfirm` | rococo-dst/memdb/txn.cc:1255-1327 | installs a prepared transaction and releases it |
| `OccServer.Undone` | rococo-dst/memdb/txn.cc:1216-1222 | releasing the locks taken for a failed prepare restores every lock |
| `OccInv.PrepareKeeps` | rococo-dst/memdb/txn.cc:1195-1253 | prepare keeps the site invariant: recorded versions never ahead, a verified transaction holds the locks that guard what it read and wrote |
| `OccInv.ConfirmKeeps` | rococo-dst/memdb/txn.cc:1255-1327 | confirm keeps it for every other transaction and only raises versions |
| `OccInv.AbortKeeps` | rococo-dst/memdb/txn.cc:1175-1179 | abort keeps it |
| `OccInv.ReadKeeps` | rococo-dst/memdb/txn.cc:1330-1367 | a read keeps it and touches no other transaction |
| `OccInv.WriteKeeps` | rococo-dst/memdb/txn.cc:1369-1405 | a staged write keeps it and touches no other transaction |
| `OccInv.Apart` | rococo-dst/memdb/locking.h:27-67 | two verified transactions at a site never have one writing what the other read or wrote |
| `OccProof.PrepareInv` | rococo-dst/deptran/coordinator.cc:477-514 | handling a prepare request keeps the invariant of the whole system of coordinators and sites |
| `OccProof.ReplyInv` | rococo-dst/deptran/coordinator.cc:483-500 | so does counting the reply of a site that has handled the request, with or without an error code, and deciding |
| `OccProof.LoseInv` | rococo-dst/deptran/coordinator.cc:483-491 | so does counting the error of a prepare request that its site has never handled: the site stays as it was, and the attempt can only abort |
| `OccProof.FinishInv` | rococo-dst/deptran/coordinator.cc:517-588 | so does handling a commit or abort at a site |
| `OccProof.Deliverable` | rococo-dst/deptran/coordinator.cc:502-587 | every message under way can be handled: a prepare finds its transaction unverified, a commit finds it verified |
| `OccSerial.DecisionReplays` | rococo-dst/deptran/coordinator.cc:498-500 | at the moment of a commit decision the transaction's reads are those it would have in the serial table, and its writes go on top |
| `OccSerial.DecisionMatches` | rococo-dst/deptran/coordinator.cc:498-500 | the decision moves the serial table and the distributed one on together |
| `OccSerial.ConfirmMatches` | rococo-dst/memdb/txn.cc:1255-1327 | a site confirming later changes nothing of what the serial table promises |
| `OccSerial.StepKeeps` | rococo-dst/deptran/coordinator.cc:477-588 | every step of every site or coordinator keeps the tie to the serial execution |
| `OccSerial.Serializable` | rococo-dst/deptran/coordinator.cc:477-588 | in every reachable state of any number of coordinators and sites, replaying the committed transactions one after another in decision order gives each of them the reads it saw, and agrees with the sites up to commits still under way |
| `OccSerial.SettledSerial` | rococo-dst/deptran/coordinator.cc:477-588 | once nothing is under way the final column values are those of that serial execution |
| `OccSerial.DecidedOnce` | rococo-dst/deptran/coordinator.cc:498-500 | no transaction is decided twice |
| `OccVotes.VoteExact` | rococo-dst/memdb/txn.cc:1116-1253 | in every run, a site asked to prepare votes yes if and only if no committed update of a cell that the transaction read or wrote there has been installed since it used the cell, and no transaction that has voted yes there used the same row with a write on either side |
| `OccVotes.PreparedUntouched` | rococo-dst/memdb/txn.cc:1116-1122 | in every run, nothing that a prepared transaction read or wrote has been overwritten since it used it |
| `OccVotes.RunUpToDate` | rococo-dst/memdb/txn.cc:1123-1143 | in every run, the recorded versions of a cell match if and only if no committed update of it was installed since its first use |
| `OccVotes.CommitExact` | rococo-dst/deptran/coordinator.cc:483-500 | in every run, a transaction is decided after every site it contacted was asked, and commits if and only if every site voted yes, no request was lost and no reply carried an error |
| `OccVotes.VersionCounts` | rococo-dst/memdb/txn.cc:1262-1311 | in every run, the version of a cell has gone up by the number of committed updates of it that were installed |
| `CoordSpec.StepInv` | rococo-dst/deptran/coordinator.cc:223-298 | every reply callback keeps the counters in step with the requests out and the phase |
| `CoordSpec.RunInv` | rococo-dst/deptran/coordinator.cc:223-298 | so does every interleaving of replies from a fresh attempt |
| `CoordSpec.OneOutcome` | rococo-dst/deptran/coordinator.cc:517-588 | in every interleaving `finish` happens at most once, commit goes out only if nothing was rejected and every involved site accepted, and no site gets both commit and abort |
| `CoordSpec.FinishesExactlyOnce` | rococo-dst/deptran/coordinator.cc:223-588 | an attempt with no reply outstanding has finished exactly once and heard from every involved site, if and only if a piece was ready at the outset and some reply rejected or the replies released or dropped every piece that waited |
| `CoordSpec.OutcomeExact` | rococo-dst/deptran/coordinator.cc:223-588 | once `finish` has run, its message has gone to exactly the sites of the pieces that answered; it is commit if and only if no start reply rejected and every prepare reply accepted, otherwise abort |
| `CoordSpec.RunOutcome` | rococo-dst/deptran/coordinator.cc:483-500 | the commit flag and the pieces answered, from the replies alone |
| `CoordSpec.OneSiteCommits` | rococo-dst/deptran/coordinator.cc:498-571 | one ready piece at one site, with both replies in favour: the site is sent commit |
| `CoordSpec.RunTrack` | rococo-dst/deptran/coordinator.cc:242-275 | what a run knows of rejections, waiting pieces and involved sites, from the pieces at the outset and the replies alone |
| `CoordSpec.NothingSent` | rococo-dst/deptran/coordinator.cc:232-236 | with no piece ready nothing is sent, no reply ever comes and `finish` never runs |
| `CoordSpec.NothingReady` | rococo-dst/deptran/coordinator.cc:232-236 | such an attempt: one piece, which waits |
| `CoordSpec.NeverReleased` | rococo-dst/deptran/coordinator.cc:261-274 | an attempt whose second piece is never released: every reply is in and it has not finished |
| `Coordinator.Attempt.NextPiece` | rococo-dst/deptran/txn_chopper.cc:13-48 | hands out the first ready piece, marks it and its site, and returns none exactly when there is none |
| `Coordinator.Attempt.Start` | rococo-dst/deptran/coordinator.cc:223-298 | sends every ready piece |
| `Coordinator.Attempt.Prepare` | rococo-dst/deptran/coordinator.cc:477-514 | asks every involved site |
| `Coordinator.Attempt.Finish` | rococo-dst/deptran/coordinator.cc:517-588 | broadcasts commit or abort by the vote flag to every involved site |
| `Coordinator.Attempt.OnStartReply` | rococo-dst/deptran/coordinator.cc:242-275 | counts the reply, then starts more pieces, prepares or winds down, as the step relation says |
| `Coordinator.Attempt.OnPrepareReply` | rococo-dst/deptran/coordinator.cc:483-501 | counts the vote and finishes on the last one; which way is told by `CoordSpec.OutcomeExact` |
| `Coordinator.Attempt.OnFinishReply` | rococo-dst/deptran/coordinator.cc:522-537 | counts the acknowledgement and reports done on the last one |
| `SnapshotData.VisiblePut` | rococo-dst/memdb/snapshot.h:262-278 | an insert shows at versions from its own on and nowhere before |
| `SnapshotData.VisibleMark` | rococo-dst/memdb/snapshot.h:302-363 | marking removed at the next version hides exactly the matches from that version on |
| `SnapshotData.VisibleMarkBefore` | rococo-dst/memdb/snapshot.h:302-363 | and leaves every older version's view alone |
| `SnapshotData.VisibleDrop` | rococo-dst/memdb/snapshot.h:302-363 | erasing the entries outright does the same for a lone writer |
| `SnapshotData.VisibleCollect` | rococo-dst/memdb/snapshot.h:467-495 | dropping entries removed before the lowest member version changes no view from that version on |
| `SnapshotMap.KeyRange` | rococo-dst/memdb/snapshot.h:307 | the bounds of a key in the sorted multimap |
| `SnapshotMap.EraseMarking` | rococo-dst/memdb/snapshot.h:306-318 | the marking loop marks all matches visible to the writer and counts them |
| `SnapshotMap.EraseDropping` | rococo-dst/memdb/snapshot.h:319-326 | the erasing loop drops all matches |
| `SnapshotMap.CollectGarbage` | rococo-dst/memdb/snapshot.h:467-495 | the collection loop drops exactly the garbage |
| `SnapshotMap.LoadVisible` | rococo-dst/memdb/snapshot.h:147-174 | loading from a view copies it in order into a new multimap at version 1 |
| `SnapshotProof.InsertOk` | rococo-dst/memdb/snapshot.h:262-278 | insert changes the writer's view by one pair and no other member's |
| `SnapshotProof.EraseOk` | rococo-dst/memdb/snapshot.h:302-363 | all-match erase changes the writer's view by exactly the matches and no other member's, by marking or by dropping |
| `SnapshotProof.CollectOk` | rococo-dst/memdb/snapshot.h:467-495 | garbage collection changes no member's view |
| `SnapshotProof.SnapshotOk` | rococo-dst/memdb/snapshot.h:517-539 | a snapshot sees what its source sees and the ring stays a circle with its versions in order |
| `SnapshotProof.DestroyOk` | rococo-dst/memdb/snapshot.h:541-571 | a member leaving, a dying writer that collects included, changes no remaining member's view |
| `SnapshotProof.CreateOk` | rococo-dst/memdb/snapshot.h:143-145 | a new map is empty and alone |
| `SnapshotProof.LoadOk` | rococo-dst/memdb/snapshot.h:177-180 | loading any range of pairs into a new map shows their stable sort by key |
| `SnapshotData.ArrangedStable` | rococo-dst/memdb/snapshot.h:279-289 | inserting pairs one by one arranges them by key, keeps every pair, and keeps the order of arrival under each key |
| `SnapshotData.ErasedPairs` | rococo-dst/memdb/snapshot.h:302-363 | what an erase leaves, as the places of the pairs that stay |
| `SnapshotData.PutPlace` | rococo-dst/memdb/snapshot.h:262-278 | where an inserted pair goes |
| `SnapshotRuns.Copying` | rococo-dst/memdb/snapshot.h:147-174 | copying a read-only member shares, copying a writer loads through a temporary snapshot; both give an equal private copy |
| `SnapshotRuns.Assigning` | rococo-dst/memdb/snapshot.h:200-226 | assignment, to oneself included, is destroy and copy |
| `SnapshotRuns.StepRefines` | rococo-dst/memdb/snapshot.h:200-363 | every operation on the shared structure does to the members' views what it does to private copies |
| `SnapshotRuns.SharedLooksPrivate` | rococo-dst/memdb/snapshot.h:21-603 | after any sequence of create, insert, all-match erase, snapshot, copy, assign, destroy and collection, each live member sees what its own private copy would hold |
| `Snapshots.Snapshots.Insert` | rococo-dst/memdb/snapshot.h:262-278 | the in-place insert computes the specified heap and keeps the invariants; the pair comes into the writer's view behind all pairs with keys up to its own and before the first with a greater one |
| `Snapshots.Snapshots.Erase` | rococo-dst/memdb/snapshot.h:302-363 | so does erase, choosing between marking and dropping; by key, the writer's view keeps exactly the pairs of other keys, by key and value exactly the other pairs, in their places |
| `Snapshots.Snapshots.MakeSnapshot` | rococo-dst/memdb/snapshot.h:517-539 | so does linking a snapshot into the ring |
| `Snapshots.Snapshots.LowestVersion` | rococo-dst/memdb/snapshot.h:468-480 | the walk around the ring finds the lowest member version |
| `Snapshots.Snapshots.GcRun` | rococo-dst/memdb/snapshot.h:467-495 | collection at that version: an entry goes if and only if it was removed before the version of every member |
| `SnapshotProof.LeftUnseen` | rococo-dst/memdb/snapshot.h:482-491 | what collection takes no member sees; what it leaves is seen by no version from the lowest to the highest if and only if it was created after all of them or removed at the lowest |
| `Snapshots.Snapshots.Unlink` | rococo-dst/memdb/snapshot.h:555-564 | takes a member out of the ring |
| `Snapshots.Snapshots.Destroy` | rococo-dst/memdb/snapshot.h:541-571 | disowns, collects if asked to, unlinks or deletes the group |
| `Snapshots.Snapshots.Disown` | rococo-dst/memdb/snapshot.h:545-553 | a dying writer gives up the right to write, and asks for collection exactly after 16 changes or more that are at least half of the entries |
| `Snapshots.Snapshots.CopyFrom` | rococo-dst/memdb/snapshot.h:147-174 | the copy constructor |
| `Snapshots.Snapshots.Assign` | rococo-dst/memdb/snapshot.h:200-226 | the assignment operator |
| `Snapshots.Snapshots.SanityCheck` | rococo-dst/memdb/snapshot.h:573-603 | the debug check passes in every reachable state: at most one version descent around the ring, and a writer with the highest version |
| `Snapshots.Descent` | rococo-dst/memdb/snapshot.h:586-595 | around the ring versions fall at most once |
| `Snapshots.WriterHighest` | rococo-dst/memdb/snapshot.h:596-601 | the writer is in the ring and no neighbour is above it |
| `IndexSpec.AddOk` | rococo-dst/memdb/table.cc:224-246 | filing an index row gives its base row the one entry it lacked and disturbs no other row |
| `IndexSpec.DropOk` | rococo-dst/memdb/table.cc:209-222 | dropping an index row takes exactly that entry |
| `IndexSpec.ChangeOk` | rococo-dst/memdb/row.cc:168-194 | changing a column keeps the entries of the indexes that do not use it |
| `IndexSpec.QueryFilters` | rococo-dst/memdb/table.cc:189-203 | in a consistent table an index query is the base table filtered on the current columns, with one entry a row |
| `IndexedTable.Indexed.MakeIndexRow` | rococo-dst/memdb/table.cc:224-246 | makes and files one index row |
| `IndexedTable.Indexed.Insert` | rococo-dst/memdb/table.cc:278-296 | a row without a master index gets an entry in every index; one that still has its master index and fitting entries keeps both and is filed again; the table is consistent either way |
| `IndexedTable.Indexed.EnterIndexes` | rococo-dst/memdb/table.cc:280-294 | a new master index has a fitting entry in every index |
| `IndexedTable.Indexed.RemoveAndInsert` | rococo-dst/memdb/table.cc:278-322 | removal without `do_free` and insertion of the same row give the table back as it was |
| `IndexedTable.InsertAgain` | rococo-dst/memdb/table.cc:278-322 | a row removed without `do_free`, changed while out of the table and inserted again leaves the table consistent if and only if no indexed column has another value |
| `IndexedTable.Indexed.DestroySecondaryIndices` | rococo-dst/memdb/table.cc:209-222 | drops every entry of a row |
| `IndexedTable.Indexed.Free` | rococo-dst/memdb/table.cc:298-322 | a freed row leaves the table and every index |
| `IndexedTable.Indexed.Remove` | rococo-dst/memdb/table.cc:101-114 | looks the row up under its current key and takes it out, or changes nothing if it is not filed; with `do_free` the table stays consistent, without it the index entries stay behind |
| `IndexedTable.Sweep` | rococo-dst/memdb/table.cc:101-114 | the sweep over the rows filed under a key finds a row exactly when it is filed under that key |
| `IndexedTable.Indexed.FindFiled` | rococo-dst/memdb/table.cc:101-114 | the lookup under the current key finds the row exactly when its key has not changed since it was filed |
| `IndexedTable.Indexed.DropIndexRow` | rococo-dst/memdb/table.cc:343-349 | finds one index row of a base row under its key, takes it out, and clears the slot |
| `IndexedTable.WrittenFirst` | rococo-dst/memdb/row.cc:184-188 | a key column written to another value while the row is filed makes the lookup miss it, which is why removal comes before the write |
| `IndexedTable.Indexed.NotifyBeforeUpdate` | rococo-dst/memdb/table.cc:324-353 | drops exactly the entries of the indexes on the column |
| `IndexedTable.Indexed.NotifyAfterUpdate` | rococo-dst/memdb/table.cc:355-383 | puts them back under the new value |
| `IndexedTable.Indexed.Reinsert` | rococo-dst/memdb/row.cc:177-193 | notify, remove by the old key, change, insert, notify: the table is consistent again with one column changed |
| `IndexedTable.Indexed.Update` | rococo-dst/memdb/row.cc:168-240 | any column update keeps every index exact and changes that column alone |
| `IndexedTable.Indexed.Query` | rococo-dst/memdb/table.cc:189-191 | the base rows that have the values of the key, one by one, in the indexed columns |
| `IndexedTable.ConsistentAgrees` | rococo-dst/memdb/table.cc:189-203 | consistent tables answer through an index only with rows they hold |
| `IndexedTable.RemoveWithoutFree` | rococo-dst/memdb/table.cc:309-322 | after a removal without `do_free` the indexes still agree with the table if and only if there are none |
| `IndexedTable.LeftBehind` | rococo-dst/memdb/txn.cc:575-582 | such a removal, as commit does it, that leaves an index entry behind |
| `KeyOrder.Compare` | rococo-dst/memdb/table.cc:8-75 | zero exactly for equal keys; below zero exactly when the first column in which they differ has the smaller value, numbers by size and strings by their first different byte or as a proper prefix |
| `KeyOrder.CompareStrings` | rococo-dst/memdb/table.cc:56-68 | common prefix, then length |
| `KeyOrder.KeysOrdered` | rococo-dst/memdb/table.cc:8-75 | keys of one schema are totally ordered and only equal keys compare equal |
| `KeyOrder.CmpExact` | rococo-dst/memdb/table.cc:8-75 | the recursive comparison is below zero if and only if the first difference says so |
| `RowLayout.RegionsApart` | rococo-dst/memdb/schema.cc:27-47 | no two columns share a byte or a string slot; they lie in column order |
| `RowLayout.Inside` | rococo-dst/memdb/schema.cc:27-47 | every column lies inside its part of the row |
| `RowLayout.FivePlaces` | rococo-dst/memdb/schema.cc:27-47 | where an i32, an i64, a string, a double and another string lie |
| `RowLayout.SlotOwner` | rococo-dst/memdb/schema.cc:27-31 | every string slot belongs to a column |
| `RowLayout.AddedPlaced` | rococo-dst/memdb/schema.cc:10-53 | adding a column keeps the layout the running totals of the columns before |
| `RowLayout.SameSizeInPlace` | rococo-dst/memdb/row.cc:228-231 | overwriting a string by one of its length changes that string alone |
| `RowLayout.FixedWrite` | rococo-dst/memdb/row.cc:188 | writing a number changes that column and no other |
| `RowLayout.StringWrite` | rococo-dst/memdb/row.cc:232-233 | writing a string slot changes that column and no other |
| `RowLayout.Decoded` | rococo-dst/memdb/row.cc:124-166 | bytes laid out column by column read back as those columns |
| `RowStore.Schema.DoAddColumn` | rococo-dst/memdb/schema.cc:10-53 | a taken name gives -1 and changes nothing; a new one gives the next id, offset or slot, and the names index stays exact |
| `RowStore.Schema.AddColumn` | rococo-dst/memdb/schema.h:40-43 | a visible column |
| `RowStore.Schema.AddHiddenColumn` | rococo-dst/memdb/schema.h:90-100 | the number of visible columns is kept if and only if the name was new: the hidden counter moves either way |
| `RowStore.Create` | rococo-dst/memdb/row.cc:276-357 | a new row reads back the given values, hidden columns zero or empty; creation fails if and only if there is a hidden string and no visible one, where the source reads in front of its index table |
| `RowStore.WriteNumbers` | rococo-dst/memdb/row.cc:285-332 | the first pass and its size check |
| `RowStore.WriteStrings` | rococo-dst/memdb/row.cc:334-354 | the second pass, and exactly when it fails |
| `RowStore.Row.GetBlob` | rococo-dst/memdb/row.cc:124-166 | the bytes of a column, dense or sparse |
| `RowStore.Row.GetColumn` | rococo-dst/memdb/row.cc:88-113 | the value last written to the column |
| `RowStore.Row.MakeSparse` | rococo-dst/memdb/row.cc:58-86 | no column changes |
| `RowStore.Row.UpdateFixed` | rococo-dst/memdb/row.cc:168-194 | one number changes |
| `RowStore.Row.UpdateString` | rococo-dst/memdb/row.cc:196-240 | one string changes, in place or by going sparse; the row stays writable and only its string objects may be new |
| `RowStore.Row.Update` | rococo-dst/memdb/row.cc:242-261 | one column changes, of any kind; layout, writability and buffers are kept |
| `RowStore.Copy` | rococo-dst/memdb/row.cc:21-56 | visible columns are copied always; the copy is a whole row if and only if no hidden column is a string, and then every column is equal |
| `RowStore.Replay` | rococo-dst/memdb/row.cc:21-261 | after any sequence of writes, dense-to-sparse conversions and copies, each column holds the value last written to it or the one it began with |
| `RowStore.CreateAndReplay` | rococo-dst/memdb/row.cc:21-357 | the same from creation on, read back through `get_column` |
| `RowLayout.LastWins` | rococo-dst/memdb/row.cc:88-261 | writing columns one after another leaves in each the value last written |
| `RowStore.HiddenStringLost` | rococo-dst/memdb/row.cc:21-56 | a row with a hidden string whose copy is not a whole row |
| `RowStore.TakenNameHides` | rococo-dst/memdb/schema.h:90-100 | a hidden column under a taken name: no column is added and the only visible one is hidden |
| `StagedOrder.PairOrder` | rococo-dst/memdb/txn.cc:238-255 | the order of staged inserts, markers included, is a total preorder |
| `StagedOrder.SliceExact` | rococo-dst/memdb/txn.cc:936-1068 | the bounds each query takes enclose exactly the staged rows of the table with a key in range |
| `StagedOrder.RangeExact` | rococo-dst/memdb/txn.cc:936-1068 | what the five queries ask for, by the first column in which two keys differ; bounds are exclusive |
| `StagedOrder.SliceForward` | rococo-dst/memdb/txn.cc:936-1068 | and they are never the wrong way round |
| `StagedOrder.PlacedInOrder` | rococo-dst/memdb/txn.cc:742 | an insert keeps the staged rows in order |
| `MergedView.MergedCursor.PrefetchNext` | rococo-dst/memdb/txn.cc:849-888 | caches the next row and changes nothing of what is still to come; false exactly at the end |
| `MergedView.MergedCursor.HasNext` | rococo-dst/memdb/txn.cc:918-924 | whether a row is left |
| `MergedView.MergedCursor.Next` | rococo-dst/memdb/txn.cc:926-932 | gives the head of what is left |
| `MergedView.MergeInterleaves` | rococo-dst/memdb/txn.cc:865-885 | the merge by address is an interleaving of the two lists |
| `MergedView.InterleavedCounts` | rococo-dst/memdb/txn.cc:865-885 | an interleaving has each row as often as the two lists together |
| `MergedView.KeptExact` | rococo-dst/memdb/txn.cc:852-861 | rows staged for removal are left out and no others |
| `MergeOrder.MergeInOrder` | rococo-dst/memdb/txn.cc:865-885 | for two lists in key order, the merge by address is in key order if and only if, of any two rows from different lists and with different keys, the one to come first has the smaller maximum of the addresses up to it in its list |
| `MergeOrder.KeptInOrder` | rococo-dst/memdb/txn.cc:852-861 | leaving out removed rows keeps a list in key order |
| `OwnView.Txn2PL.ReadColumn` | rococo-dst/memdb/txn.cc:640-680 | the staged value if there is one, otherwise the row's |
| `OwnView.Txn2PL.WriteColumn` | rococo-dst/memdb/txn.cc:697-736 | stages the write, or writes a row that is in no table directly; the staging invariants hold afterwards if and only if the staged rows are still in key order |
| `OwnView.Txn2PL.InsertRow` | rococo-dst/memdb/txn.cc:738-745 | stages the row in key order |
| `OwnView.Txn2PL.RemoveRow` | rococo-dst/memdb/txn.cc:747-789 | the sweep over rows of equal key finds a staged row by identity and unstages it; any other row is staged for removal; its staged writes go |
| `OwnView.Txn2PL.Query` | rococo-dst/memdb/txn.cc:936-1092 | the merged cursor gives each row in view exactly once and no other, as the merge by address of the table's own rows and the staged ones; on a sorted table both lists come in the key order asked for, and the merge does if and only if the addresses fit |
| `OwnView.Txn2PL.ListTable` | rococo-dst/memdb/table.h:209-260 | the table's own rows with a key in range, once each; those of a sorted table in the key order asked for, forwards or backwards |
| `OwnView.SliceInOrder` | rococo-dst/memdb/txn.cc:962-975 | the slice of staged rows that a range query takes is in key order |
| `OwnView.AddressBeatsKey` | rococo-dst/memdb/txn.cc:874 | a table row at address 9 with key 1 and a staged row at address 4 with key 2: an ascending scan gives key 2 first |
| `OwnView.Txn2PL.Commit` | rococo-dst/memdb/txn.cc:539-589 | the tables and rows after commit are the ones the transaction saw |
| `OwnView.Txn2PL.Abort` | rococo-dst/memdb/txn.cc:503-509 | nothing staged reaches the tables |
| `OwnView.EachOnce` | rococo-dst/memdb/txn.cc:807-933 | each base row in range and not removed and each staged row in range comes once |
| `OwnView.CommitAgrees` | rococo-dst/memdb/txn.cc:542-582 | inserts, then updates, then removes, in any order within each, give what was seen |
| `OwnView.AppliedColumn` | rococo-dst/memdb/txn.cc:567-571 | with one staged write a column their order does not matter |
| `OwnViewProof.WriteSeen` | rococo-dst/memdb/txn.cc:697-736 | a write shows in one column of one row |
| `OwnViewProof.WriteExact` | rococo-dst/memdb/txn.cc:697-736 | a write keeps the staging invariants if and only if the staged rows stay in key order |
| `OwnViewProof.FreeWriteOrder` | rococo-dst/memdb/txn.cc:702-706 | writing a row that is in no table keeps the staging invariants if and only if the staged rows stay in key order |
| `OwnViewProof.NewKeyFits` | rococo-dst/memdb/txn.cc:702-706 | they stay in key order if and only if the new key fits between the keys staged before and after the row |
| `StagedOrder.ReplacedInOrder` | rococo-dst/memdb/txn.cc:238-255 | an element changed where it is leaves the staged rows in order if and only if it fits between its neighbours |
| `OwnViewProof.KeyWriteDisorders` | rococo-dst/memdb/txn.cc:702-706 | a key write that puts two staged rows out of order |
| `OwnViewProof.StepInv` | rococo-dst/memdb/txn.cc:640-789 | every operation keeps the staging invariants |
| `OwnViewProof.StepAgrees` | rococo-dst/memdb/txn.cc:640-789 | every operation does to the view what it does to a private copy |
| `OwnViewProof.RunAgrees` | rococo-dst/memdb/txn.cc:640-789 | after any operations the transaction sees what a private copy of the database would hold |
| `OwnViewProof.AgreesOnce` | rococo-dst/memdb/txn.cc:539-589 | what a transaction sees fixes the tables and every row not removed, so commit can install only that |
| `OwnViewProof.QueryAgrees` | rococo-dst/memdb/txn.cc:936-1092 | a query before commit finds what it finds after, if and only if no staged write to a key column moves a row into the range or out of it |
| `OwnViewProof.QueriesAgreeWhen` | rococo-dst/memdb/txn.cc:936-1092 | every range query on a table agrees before and after commit, if and only if each of its rows is filed under the key that the transaction sees |
| `OwnViewProof.QueriesAgree` | rococo-dst/memdb/txn.cc:1060-1092 | with no staged key write every query agrees; a scan of the whole table always does |
| `OwnViewProof.KeyWriteHides` | rococo-dst/memdb/txn.cc:936-960 | a staged key write that a query by the new key misses before commit and finds after |
| `Xxh32.XXH32` | rococo-dst/memdb/xxhash.cc:206-262 | one-shot hashing computes the reference definition |
| `Xxh32.EatStripes` | rococo-dst/memdb/xxhash.cc:224-230 | the stripe loop consumes all whole 16-byte stripes |
| `Xxh32.Finish` | rococo-dst/memdb/xxhash.cc:241-261 | the tail and the final mix |
| `Xxh32.StripesSplit` | rococo-dst/memdb/xxhash.cc:339-401 | stripes may be cut at any multiple of 16 |
| `Xxh32.StripesByLane` | rococo-dst/memdb/xxhash.cc:224-230 | accumulator j is fed the bytes 4j to 4j + 3 of each stripe, in order, and nothing else |
| `Xxh32.LaneLocal` | rococo-dst/memdb/xxhash.cc:226-229 | after one stripe an accumulator depends on its own value and its own four bytes alone |
| `Xxh32Vectors.EmptyHash` | rococo-dst/memdb/xxhash.cc:206-262 | the published value of the empty string, 0x02CC5D05 |
| `Xxh32Vectors.SpammishHash` | rococo-dst/memdb/xxhash.cc:206-262 | the published value of a 39-byte string, 0xE2293B2F |
| `Xxh32Stream.State32.constructor` | rococo-dst/memdb/xxhash.cc:317-328 | a reset state has absorbed nothing |
| `Xxh32Stream.State32.TopUp` | rococo-dst/memdb/xxhash.cc:358-370 | completing the buffered stripe |
| `Xxh32Stream.State32.Bulk` | rococo-dst/memdb/xxhash.cc:372-398 | whole stripes from the input, the rest to the buffer |
| `Xxh32Stream.State32.Update` | rococo-dst/memdb/xxhash.cc:339-401 | after an update the state stands for everything fed so far |
| `Xxh32Stream.State32.Digest` | rococo-dst/memdb/xxhash.cc:415-454 | the digest is the reference hash of everything fed |
| `Xxh32Stream.HashChunks` | rococo-dst/memdb/xxhash.cc:317-454 | init, an update for each chunk and digest give the hash of the chunks joined |
| `Xxh32Stream.SameHash` | rococo-dst/memdb/xxhash.cc:206-454 | streamed and one-shot hashing agree for every way of cutting the input |
| `Odometer.InitIndex` | rococo-dst/deptran/sharding.cpp:1491-1500 | all digits zero, -1 on an empty index |
| `Odometer.Increase` | rococo-dst/deptran/sharding.cpp:1532-1568 | in-place increment with carries over the digits in a given order |
| `Odometer.IncreaseAll` | rococo-dst/deptran/sharding.cpp:1532-1568 | forwards and backwards: a digit moves on, to zero after its last value, if and only if all digits of smaller keys, backwards of greater ones, show their last values; -1 if and only if all do |
| `Odometer.StepDigits` | rococo-dst/deptran/sharding.cpp:1532-1568 | the carry loop moves exactly those digits |
| `Odometer.IncVal` | rococo-dst/deptran/sharding.cpp:1551-1568 | an increment adds one to the mixed-radix value, or wraps to all zeros at the largest |
| `Odometer.ValInjective` | rococo-dst/deptran/sharding.cpp:1551-1568 | the value fixes the digits |
| `Odometer.Follow` | rococo-dst/deptran/sharding.cpp:1523-1528 | tied digits take the first one's value and base |
| `Odometer.IndexIncrease` | rococo-dst/deptran/sharding.cpp:1502-1530 | both bound forms do that to the free digits and make the tied ones copies of the first |
| `Odometer.Walk` | rococo-dst/deptran/sharding.cpp:1491-1530 | from `init_index`, increments in either direction until -1 visit as many tuples as the product of the free bases, with the tied digits in lockstep, and end with every digit zero |
| `Odometer.EveryTupleOnce` | rococo-dst/deptran/sharding.cpp:1491-1568 | every digit tuple is visited exactly once |
| `ItemDraw.Adjust` | rococo-dst/deptran/txn_req_factory.cc:196-208 | the adjustment loop ends with the r-th smallest id not yet chosen |
| `ItemDraw.CountTaken` | rococo-dst/deptran/txn_req_factory.cc:200-203 | the inner count |
| `ItemDraw.PlaceOf` | rococo-dst/deptran/txn_req_factory.cc:198-208 | the r-th unused id exceeds r by the number of chosen ids up to it |
| `ItemDraw.NotBelow` | rococo-dst/deptran/txn_req_factory.cc:198-208 | it is the least solution of the equation the loop stops at |
| `ItemDraw.DrawItems` | rococo-dst/deptran/txn_req_factory.cc:193-210 | all ids are distinct and in range, each the one its draw stands for |
| `ItemDraw.DrawsCorrespond` | rococo-dst/deptran/txn_req_factory.cc:195-208 | draws and unused ids correspond one to one |

## Left out

- Graph copy construction (rococo-dst/deptran/graph.hpp:90 files the old vertex under `from_`) and assignment.
- Events fired by a status change (`trigger`, `DragonBall`) in graph union and unmarshalling.
- Received graphs are values: a graph handed to `union_graph` is not itself a linked structure.
- Marshal streams are sequences of typed tokens: byte widths, negative counts and 32-bit truncation of counts are not modelled.
- RPC, futures, timers, logging and recording; each reply callback and each site handler is one atomic step.
- Code of the ROCOCO, read-only and batch modes of the coordinator; only the OCC and 2PL mode is modelled.
- The mapping from a site's prepare, commit and abort requests to `commit_prepare`, `commit_confirm` and `abort`, in code that is
  not part of this model, is taken to be direct.
- `OCC_EAGER`, one-phase `commit`, and inserts, removes and range queries in the serializability proof; the row set is fixed.
- A retry is a new transaction, although the source may keep its id.
- Column versions and snapshot versions are unbounded.
- CoordSpec.StepInv: which pieces a start reply makes ready or drops is any choice of the waiting ones, since the benchmark
  choppers that decide it are not modelled.
- Lock groups, wait-die and wound-wait locks, whose source is not part of this model; 2PL staging is modelled without them, as
  its lock calls are commented out.
- Snapshot erase of a range and `first_match_only`, reverse ranges, cursors kept across a collection, reference counts.
- `SnapshotTable`; the snapshot branch of `Txn2PL::commit` stops at a `verify(0)`.
- Index tables are sets of entries: the order of a cursor, `Index::all` and `SortedTable::clear` are left out, and keys are
  values, so that blobs aliasing row storage are not modelled.
- NaN in key comparison; doubles are reals there and eight bytes in row storage.
- A row takes its schema's layout as it is at creation; rows in tables and their notifications are in `IndexedTable`, not in
  `RowStore`. Numbers are their bytes, so endianness does not show.
- RowStore.Create: a layout with a hidden string and no visible one gives no row, because the source then reads the entry before
  the first of its index table; what it reads there is not modelled.
- OwnViewProof.RunAgrees: runs hold no key write that puts the staged rows out of order, because a multiset whose order has been
  broken promises nothing for its later lookups; `OwnViewProof.NewKeyFits` says exactly which writes those are.
- OwnView.Txn2PL.Query: the table's own rows are listed by a scan of the table, not from its key bounds, and rows of equal key in
  any order; the order of a hash table is any. The removals are those at the time of the query.
- A prepare request whose call has failed at the coordinator is handled by its site before the failure or never, not later.
- Reference counts of staged rows, `marshal_stage` and piece status in `Txn2PL`.
- The big-endian path of XXH32, and inputs of 2^31 bytes or more, for which the source's length is an `int`.
- Wrap-around of the odometer's unsigned digits; `RandomGenerator` is a parameter.
- Table population, configuration, benchmark choppers, MurmurHash3, scripts, and the MySQL and DrTM files.
