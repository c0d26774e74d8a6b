# Data explorer: a verified model

A Dafny model of the parts of the data explorer whose correctness no finite set of examples
settles: the workflow engine, the dataframe algebra, both rate limiters, the scheduler,
refresh-token rotation, pagination and two text formats. `dafny verify dfyconfig.toml`
checks everything.

## What is modelled

| file | what it models |
|---|---|
| `Definition.dfy`, `Aggregates.dfy`, `Graph.dfy` | workflow definitions, validation, Kahn's algorithm, paths and cycles |
| `Projection.dfy`, `SqlGuard.dfy` | the projection walk; the projected query and the read-only check on it |
| `Nodes.dfy`, `Pushdown.dfy`, `EnginePushdown.dfy`, `JoinPushdown.dfy` | the filter and aggregate nodes, and what narrowing a source to its hint does to results, on a path, in the engine and behind a join |
| `Engines.dfy` | `Run`: wiring, executing, capping in place, the report, the output shown |
| `Frames.dfy` | frames that widen row by row; select, filter, concat, row and column limits |
| `Joins.dfy`, `GroupBys.dfy` | the hash join against the nested loop; grouping as a partition |
| `Dictionaries.dfy`, `Columnar.dfy` | the string index and the columnar form against the plain columns |
| `Quota.dfy`, `TokenBuckets.dfy` | the sliding-window log and the Redis token bucket, over whole call histories |
| `Scheduling.dfy` | one scheduler goroutine, manual runs and schedule edits as interleaved steps |
| `RefreshTokens.dfy` | the token table and every call that touches it |
| `Pagination.dfy` | the driver, the offset and page strategies, the REST connector's row limit |
| `Csv.dfy`, `Digest.dfy` | two print and parse pairs |
| `Strings.dfy`, `Text.dfy`, `Wrappers.dfy` | trimming, splitting, words; byte order, sorting, joining; optional values and results |

Code that changes state in the repository changes state here: frames, buckets, the token
table, the schedule table, the paginator and the engine's loops are classes and methods, each
proved against a function or relation whose own properties the lemmas state.

## How the system's terms are rendered

- Executors, expression evaluation, `fmt.Sprint`, hash functions, `strings.ToUpper`, the cron
  library and HTTP servers are functions passed in. A `json.Number` carries what the library
  parses it as.
- A table is a frame's state as a value; a column's type and nullability are stored with its
  cells. The order in which Go ranges over a map is left open everywhere.
- A database is a function from query texts to answers. It is taken to answer a projected query
  with that projection of the query's own answer, and with an error when a column does not
  exist or is there twice; the text sent is the one `connectors/projection.go` words, and only
  if `connectors/sqlguard.go` allows it. A source's frame has been through the guardrails of
  `connections/service.go`; which columns a limit cuts off is left open, as Go's map order is.
- `Run` is called with unique ids and no dangling edge, as `Service.Execute` guarantees by
  validating first; without that the projection walk need not terminate.
- Panics of the original are results here: an unhashable join key, an aggregate field that is
  not a column.
- Sums are over reals, times over integers (nanoseconds for quotas, milliseconds for buckets).
  The nonce counter wraps at 32 bits.
- Strings the dataframe truncates are one character a byte.
- A service call on the token table is one atomic step, tokens are drawn fresh, and they stand
  for their hashes. A limiter call has two times, its caller's, which refills, and the Redis
  server's, which expires the key; either may step back. Quota calls may reach a bucket out of
  order, and the scheduler's clock may step back.
- Computing a schedule edit and storing it are two steps, and so are asking for a row's next run
  and marking it.

## Where the code and its comments part

The model follows the code.

- `join.go` line 17 says a prefix keeps a join from dropping data; `NothingLostIffNoClash`
  says when that is so.
- `pagination.go` line 28 calls paginators stateless as to page count; the offset paginator
  keeps its offset across runs (`ReusedPaginatorSkips`).
- `schedule.go` line 24 promises a strictly later time; a cron that never fires is answered
  with the zero time (`FiringsIncreaseIffCronFires`).
- `projection.go` lines 47 to 62 hand both keys of a join to either side, which fails on a side
  that lacks one (`ReadBeforeJoinHasBothKeys`).
- `sqlguard.go` allows a semicolon at the end of a query, and any column name; under a projection
  both can be refused (`AllowedStaysAllowedIff`).
- `scheduler.go` skips overlapping runs, but check and start are two steps
  (`ManualRunSlipsIn`).
- `pagination.go` line 45 describes the truncation flag; it is also set when the last page
  allowed ends the dataset exactly (`OffsetFetchesAllOrPrefix`).

## Model

| member | source | states |
|---|---|---|
| Definition.TopologicalOrder | backend/internal/workflow/definition.go:115-150 | On a definition with unique ids and no dangling edge the answer is an order exactly when the graph has no cycle; the order is a permutation of the node ids with every edge's source before its target; an error comes with a cycle that really exists. Total on malformed definitions too. |
| Definition.Validate | backend/internal/workflow/definition.go:74-110 | Accepts exactly the definitions within both size limits, with non-empty unique ids, known node types, no dangling edge and no cycle; the error returned names a defect the definition really has. |
| Definition.CheckNodes | backend/internal/workflow/definition.go:82-96 | No error exactly when the ids are distinct and non-empty and every type is known; otherwise one that really applies. |
| Definition.CheckEdges | backend/internal/workflow/definition.go:97-104 | No error exactly when both ends of every edge are nodes; otherwise the edge named has an unknown end. |
| Definition.Incoming | backend/internal/workflow/definition.go:118-124 | The indegree of every node is the number of its incoming edges, parallel ones counted each, and the adjacency is that of the edges in order. |
| Definition.Unblocked | backend/internal/workflow/definition.go:126-131 | The first queue holds exactly the nodes with no incoming edge, each once when ids are unique. |
| Definition.Release | backend/internal/workflow/definition.go:138-143 | Relaxing a popped node's targets restores the invariant of the algorithm and never adds work. |
| Definition.KahnPop | backend/internal/workflow/definition.go:135-137 | Moving the head of the queue into the order keeps the invariant: every counter is the number of edges from nodes not yet out, and exactly the unblocked nodes are queued. |
| Definition.KahnStuck | backend/internal/workflow/definition.go:146-148 | When nodes are left over every one of them has a predecessor among the left-over ones, and a cycle follows. |
| Definition.SortedIsAcyclic | backend/internal/workflow/definition.go:112-115 | A graph that has any topological order has no cycle: the other half of the equivalence. |
| Definition.BuildDag | backend/internal/workflow/engine_helpers.go:5-11 | Maps every source of an edge to its targets in edge order, and no other node. |
| Graph.StuckSetHasCycle | backend/internal/workflow/definition.go:146-148 | Any non-empty set of nodes in which each has a predecessor in the set contains a cycle. |
| Projection.CollectProjectedColumns | backend/internal/workflow/projection.go:13-78 | Terminates on every acyclic graph although nodes may be queued again; gives up exactly when a transform or an undecodable filter, aggregate or join is reached without passing a join; otherwise answers the ascending list of exactly the columns named by the nodes reached that way. |
| Graph.ExpandingIsProgress | backend/internal/workflow/projection.go:15-19 | Replacing the head of the queue by its successors strictly lowers the number of walks still to make: the measure behind that termination. |
| Projection.NamedColumns | backend/internal/workflow/projection.go:23-68 | What one node adds: a filter its expression's identifiers, an aggregate its group keys and non-empty fields, a join its non-empty keys, any other node nothing. |
| Projection.ExpressionColumns | backend/internal/workflow/projection.go:80-96 | Ascending, and holds exactly the texts the identifier pattern matches, keywords left out. |
| Projection.IdentifiersAreMatches | backend/internal/workflow/projection.go:11-11 | Scanning left to right for maximal runs finds exactly the matches of the pattern with its word boundaries. |
| Projection.LiteralTakenForColumn | backend/internal/workflow/projection.go:80-89 | A word between double quotes is taken for a column in any expression whose text goes up to that quote and on behind the other. |
| Engines.Engine.Run | backend/internal/workflow/engine.go:56-160 | Reports a cycle exactly when there is one; otherwise, along a topological order, every node that ran yielded its recursive meaning, the results are a prefix of the order with only a failed node's after it, the error is never that of a dependency not run, and the output is the last output node's frame or else the last node's. |
| Engines.Engine.Turn | backend/internal/workflow/engine.go:77-148 | One turn of the loop: earlier frames keep their contents, the new one is the node's meaning capped at maxRows, and its result says so; or the loop ends with that node's error and nothing changed. |
| Engines.Engine.RunNode | backend/internal/workflow/engine.go:80-135 | Wiring, executing and capping one node gives what its step means on the tables of its upstreams, and leaves every earlier frame as it was even when the executor hands one of them on. |
| Engines.CapRows | backend/internal/workflow/engine.go:135-135 | Capping a frame in place changes no earlier frame: a shared one is within the cap already. |
| Engines.WireInputs | backend/internal/workflow/engine.go:84-96 | Fails exactly when some upstream has no output; otherwise every edge's frame is under its handle and its source, later edges winning. |
| Engines.ProjectionHints | backend/internal/workflow/engine_helpers.go:29-46 | A node gets a hint exactly when it is a source, the walk from it is not hindered, and some column is named; the hint is the sorted list of those columns. |
| Engines.MeaningIsStep | backend/internal/workflow/engine.go:77-96 | A node run on upstreams that mean what they hold yields its own meaning, so no execution order enters into it. |
| Engines.ReportsIgnoreOrder | backend/internal/workflow/engine.go:77-148 | Under any two topological orders the runs succeed or fail alike, and every node that ran in both has the same result. |
| Engines.CompleteMeansAllYield | backend/internal/workflow/engine.go:56-160 | A run succeeds exactly when every node's meaning is a table. |
| Engines.SingleOutputIgnoresOrder | backend/internal/workflow/engine.go:150-157 | With exactly one output node, every topological order shows that node. |
| Pushdown.PushdownPreservesAggregates | backend/internal/workflow/projection.go:13-78 | On every path from a source through filters to an aggregate, whose expressions read only the identifiers found in them, and under a hint that applies: whatever columns the column limit leaves of either frame, as long as those the path names are among them, reading just the hint gives the same outcome as reading everything if and only if the whole answer would give no result, or the projected query is allowed and answered just when the query by itself is allowed. Texts are cut at their limit, row caps applied after every node, and a source without rows has no columns. |
| Pushdown.PushdownPreservesAllowed | backend/internal/connections/connectors/projection.go:32-38 | For a query that is allowed by itself, in such frames, the outcomes are the same if and only if the run fails anyway, or the query holds no semicolon, no hinted column is named like a keyword, and every one is the name of exactly one column of the answer. |
| Pushdown.HintIsSureIffWithin | backend/internal/connections/service.go:176-183 | Under a column limit, for an allowed query with a group key behind it and a hint within the limit: the hinted run yields a result exactly when the hint fits and there is one to be had, and then it is sure to be that of reading everything if and only if the answer is within the limit too; over it that depends on the order in which a map was ranged over. |
| Pushdown.CutKeyShows | backend/internal/connections/service.go:176-183 | Where the limit cuts a group key off, the run that reads everything fails, so the outcomes agree only if the hinted run fails as well. |
| Pushdown.IgnoredHintReadsAlike | backend/internal/connections/connectors/projection.go:10-30 | A hint that does not apply changes nothing in what is read. |
| Pushdown.RefusedUnderHint | backend/internal/connections/connectors/projection.go:32-38 | An allowed query yields nothing under a hint that applies once it holds a semicolon or a hinted column is named like a keyword, whatever the database answers. |
| Pushdown.NoRowsNoKeys | backend/internal/connections/connectors/postgres.go:126-155 | A source without rows yields a frame without columns, on which grouping by any key fails. |
| EnginePushdown.HintsPreserveAggregates | backend/internal/workflow/engine.go:56-160 | In the engine: every aggregate fed by a source through filters, each with that one upstream, yields the same rows with hints as it would were none handed out, or fails alike, if and only if the source's hint is harmless in the sense above, provided both frames hold what the path names. The source's executor alone is taken to fetch rows and pass them through the guardrails, in some order of columns. |
| EnginePushdown.WithinLimitCovers | backend/internal/connections/service.go:176-183 | Both frames do hold it whenever the query's answer is within the column limit. |
| EnginePushdown.CutKeyFailsUnhinted | backend/internal/connections/service.go:176-183 | Without hints the engine fails at such an aggregate once a group key was cut off the source's frame. |
| EnginePushdown.ServesRows | backend/internal/connections/service.go:176-183 | A frame through the guardrails holds the fetched rows, narrowed to columns the limit allows to keep and with long texts cut. |
| JoinPushdown.ReadBeforeJoinHasBothKeys | backend/internal/workflow/projection.go:47-62 | A source before a join is read under its hint only if its answer has both keys of the join, each once. |
| JoinPushdown.JoinShowsIff | backend/internal/workflow/projection.go:47-62 | With no clashing names, a join of tables narrowed to hints shows the same rows if and only if no row it emits comes from a side that lost a column. |
| JoinPushdown.AggregateBehindJoin | backend/internal/workflow/projection.go:47-62 | An aggregate behind the join yields the same rows, or fails alike, when every column it names is kept and still comes from the same column under the same name. |
| JoinPushdown.CutKeyFailsBehindJoin | backend/internal/workflow/projection.go:47-62 | It fails when it groups by a column that was cut off and whose name no right column takes. |
| EnginePushdown.PipelineMeans | backend/internal/workflow/nodes/aggregate.go:22-43 | The meaning of such an aggregate is what its path makes of the rows the source read, caps included. |
| Nodes.RunFilter | backend/internal/workflow/nodes/filter.go:21-56 | Fails exactly on an empty or invalid expression or an error on some row; otherwise the same columns and exactly the rows that are kept. |
| Nodes.RunAggregate | backend/internal/workflow/nodes/aggregate.go:22-43 | Fails exactly without aggregations, on an unknown key, or on an unknown field once there is a row; otherwise the frame built from the grouped rows. |
| SqlGuard.WrappedVerdict | backend/internal/connections/connectors/projection.go:32-38 | The verdict on a projected query: refused for a semicolon anywhere in the query, then for a keyword in the query or as a column, and allowed otherwise. |
| SqlGuard.AllowedStaysAllowedIff | backend/internal/connections/connectors/sqlguard.go:18-40 | An allowed query stays allowed under a projection if and only if it has no semicolon and no column is named like a keyword. |
| SqlGuard.TrailingSemicolonIsRefused | backend/internal/connections/connectors/sqlguard.go:24-28 | Every allowed query is allowed with a semicolon at its end as well, and then refused under any projection. |
| SqlGuard.KeywordColumnIsRefused | backend/internal/connections/connectors/sqlguard.go:16-16 | Every keyword is a safe column name, and no query is allowed when projected to it. |
| SqlGuard.OnlyAllowedProjected | backend/internal/connections/connectors/sqlguard.go:30-33 | A text that is refused for not being a query is allowed inside a projection when it has no semicolon and no keyword. |
| SqlGuard.KeywordsApart | backend/internal/connections/connectors/sqlguard.go:16-16 | Keyword matches never go across a character that is neither a word character nor folds to a letter. |
| SqlGuard.ProjectedReadOnlySQL | backend/internal/connections/connectors/projection.go:10-38 | The loop keeps the first mention of each safe column, ignores the hint on an unsafe one, and the text is sent only if the check allows it. |
| Pushdown.FilterCommutes | backend/internal/workflow/nodes/filter.go:21-56 | Filtering commutes with narrowing every row to columns that cover the expression, failures included. |
| Pushdown.AggregateCommutes | backend/pkg/dataframe/groupby.go:38-105 | An aggregate gives the same rows, or fails alike, on rows narrowed to columns that cover its keys and fields. |
| Pushdown.GroupingIsGroupedRows | backend/pkg/dataframe/groupby.go:82-100 | The rows GroupBy emits are a function of its input rows. |
| Pushdown.ProjectionShowsIff | backend/internal/workflow/projection.go:68-70 | Without an aggregate at the end, the projected run shows the same rows if and only if no surviving row has a column outside the hint. |
| Pushdown.OutputLosesColumns | backend/internal/workflow/projection.go:68-70 | source, filter, output: the hint is the filter's column alone and another column is lost. |
| Frames.UnifyIsLeastUpperBound | backend/pkg/dataframe/infer.go:42-56 | Type unification is a join semilattice with null at the bottom and json on top. |
| Frames.Frame.EnsureColumn | backend/pkg/dataframe/frame.go:68-75 | An existing column stays as it is; a new one is last, null in every earlier row, nullable exactly when there are any. |
| Frames.Frame.AppendRow | backend/pkg/dataframe/frame.go:77-97 | Every column grows by the row's cell or a null, its type unified and its nullability raised as needed; new columns follow the old ones in any order; nothing else changes. |
| Frames.AppendKeepsBuilt | backend/pkg/dataframe/frame.go:77-97 | Appending keeps the whole-history invariant: every column has length numRows and holds its rows' cells, its type is the join of their types, and it is nullable exactly when one of them is nil. |
| Frames.FromRecords | backend/pkg/dataframe/frame.go:34-40 | The frame of any list of rows satisfies that invariant for exactly those rows. |
| Frames.BuiltRows | backend/pkg/dataframe/frame.go:60-66 | The rows of a built frame are the given ones, widened with nulls to all columns. |
| Frames.JoinTypesIsLeastUpperBound | backend/pkg/dataframe/infer.go:42-56 | A column's type is the least type all its cells fit in. |
| Frames.ColumnIgnoresRowOrder | backend/pkg/dataframe/frame.go:89-92 | A column's type and nullability do not depend on the order the rows were appended in. |
| Frames.Frame.LimitRows | backend/pkg/dataframe/guardrails.go:40-51 | Keeps the first maxRows rows of every column and flags it, or changes nothing. |
| Frames.Frame.LimitColumns | backend/pkg/dataframe/guardrails.go:53-72 | Keeps the first maxCols columns and their dictionaries and flags it, or changes nothing. |
| Frames.Frame.Select | backend/pkg/dataframe/ops.go:6-24 | The known ones of the wanted columns in the wanted order, with type, nullability and cells. |
| Frames.Frame.Filter | backend/pkg/dataframe/ops.go:45-56 | The same columns and exactly the rows kept, in order. |
| Frames.Concat | backend/pkg/dataframe/ops.go:62-77 | Built from the rows of every non-nil frame one after the other. |
| Joins.Join | backend/pkg/dataframe/join.go:23-83 | Succeeds exactly when both keys are named and known and every key cell can be hashed; the rows are those of the nested-loop join, in its order; otherwise the error is the first that applies. |
| Joins.NestedLoopIsExact | backend/pkg/dataframe/join.go:51-78 | That reference holds exactly the pairs of rows with equal keys, and the unmatched left rows for a left join, each once, in ascending order of left then right row. |
| Joins.InnerJoinSize | backend/pkg/dataframe/join.go:51-78 | The inner join has the sum over keys of left count times right count rows. |
| Joins.LeftJoinSize | backend/pkg/dataframe/join.go:56-61 | A left join has one row more for every unmatched left row. |
| Joins.BuildIndex | backend/pkg/dataframe/join.go:40-44 | The index maps every key to the ascending list of its rows, and fails exactly on a key that cannot be hashed. |
| Joins.MergeRows | backend/pkg/dataframe/join.go:64-75 | The left row with every right cell written under its output name, whatever order the map is ranged in. |
| Joins.MergedRowReadsBack | backend/pkg/dataframe/join.go:64-75 | Without a clash both input rows can be read from the merged one. |
| Joins.NothingLostIffNoClash | backend/pkg/dataframe/join.go:16-19 | Two pairs of rows never merge into the same row if and only if no prefixed name clashes with another output name. |
| GroupBys.GroupBy | backend/pkg/dataframe/groupby.go:38-105 | Fails exactly on an unknown key, or on an unknown field once there is a row; otherwise one row per distinct group key, keys strictly ascending, each the summary of exactly the rows with that key. |
| GroupBys.Accumulate | backend/pkg/dataframe/groupby.go:51-80 | After the loop every group holds its members' key cells, count and values, and the order lists each group once. |
| GroupBys.Emit | backend/pkg/dataframe/groupby.go:84-100 | Every emitted row is the summary of its group's rows. |
| GroupBys.ReduceFloat | backend/pkg/dataframe/groupby.go:107-140 | The loops compute the reference reduction, zero for no values or an unknown operation. |
| GroupBys.LeastAndGreatestBound | backend/pkg/dataframe/groupby.go:121-136 | Minimum and maximum are among the values and bound them all. |
| GroupBys.SplitUndoesJoin | backend/pkg/dataframe/groupby.go:62-62 | Splitting at the separator gives back the key texts if and only if none of them contains it. |
| GroupBys.SameGroupIffSameTexts | backend/pkg/dataframe/groupby.go:55-62 | For a row whose key texts are free of 0x1f, any other row shares its group exactly when the texts agree column by column. |
| GroupBys.OwnGroupIffFree | backend/pkg/dataframe/groupby.go:55-62 | With distinct keys, a row shares its group with exactly the rows of the same texts if and only if there is at most one key or none of its texts holds 0x1f. |
| GroupBys.SeparatorMergesGroups | backend/pkg/dataframe/groupby.go:62-62 | Whenever a text of a row holds 0x1f and there is more than one key, some row with other texts falls into its group. |
| GroupBys.GroupsPartition | backend/pkg/dataframe/groupby.go:54-80 | Any weight of the rows summed group by group is its sum over all rows. |
| GroupBys.CountsAddUp | backend/pkg/dataframe/groupby.go:93-96 | The counts of the groups add up to the number of rows when output names are distinct. |
| GroupBys.SumsAddUp | backend/pkg/dataframe/groupby.go:71-79 | The sums of the groups add up to the column's total when output names are distinct. |
| GroupBys.OwnColumnIffOwnName | backend/pkg/dataframe/groupby.go:76-77 | An aggregation sees exactly its own column on all rows if and only if no other one collecting values has its output name. |
| Dictionaries.EncodeColumn | backend/pkg/dataframe/frame.go:115-148 | A column gets a dictionary exactly when its non-null cells are strings, at least one and at most threshold different ones; it lists them in order of first appearance. |
| Dictionaries.DictionaryDecodes | backend/pkg/dataframe/frame.go:154-161 | Every row read through the dictionary is the plain text of its cell, null reading as the empty string. |
| Dictionaries.EntriesAreTexts | backend/pkg/dataframe/frame.go:133-142 | The entries are distinct and exactly the column's strings. |
| Dictionaries.ApplyDictionaryEncoding | backend/pkg/dataframe/frame.go:106-152 | Exactly the string columns that can be encoded get a new dictionary, the others keep what they had, and the count returned is their number. |
| Dictionaries.GainsAreChosen | backend/pkg/dataframe/frame.go:111-114 | A column is counted exactly when it is among the fields and gets a dictionary. |
| Dictionaries.EncodingKeepsStrings | backend/pkg/dataframe/frame.go:154-168 | Encoding keeps every string read, whatever dictionaries there were before. |
| Dictionaries.ApplyFrameGuardrails | backend/internal/connections/service.go:176-183 | Limits columns, truncates and encodes, in that order, on any frame, older dictionaries included. |
| Dictionaries.FreshDictionariesAgree | backend/internal/connections/service.go:176-183 | On a frame that brings no dictionary every string then reads as in the plain column, and every dictionary has distinct entries within the threshold. |
| Dictionaries.GuardedAgreesIff | backend/internal/connections/service.go:176-183 | On a frame that brings dictionaries that agree, every string reads right afterwards if and only if each cell still read through an older dictionary was within the byte limit. |
| Dictionaries.TruncatingKeepsStringsIff | backend/pkg/dataframe/guardrails.go:14-38 | Truncating under dictionaries keeps every string right if and only if no cell read through one is over the limit. |
| Dictionaries.AppendsThenLimitKeepStrings | backend/pkg/dataframe/frame.go:77-97 | Any appends after encoding, then any row limit, keep every string right. |
| Dictionaries.AppendIsSafeIffInStep | backend/pkg/dataframe/guardrails.go:40-51 | One more row reads right whatever it holds if and only if no dictionary reaches past the rows, which is what a row limit brings about. |
| Dictionaries.TruncateCells | backend/pkg/dataframe/guardrails.go:14-38 | Every string cell over the limit is cut and suffixed, and nothing else changes. |
| Dictionaries.TruncatingAfterEncodingIsStale | backend/internal/connections/service.go:180-182 | Any cell over the limit that is read through a dictionary reads as before the cut, so in the other order the strings go wrong. |
| Columnar.ValueAt | backend/pkg/dataframe/columnar.go:97-139 | The running count of non-nulls is the row's rank, and the cell read is the one of that rank. |
| Columnar.ToColumnar | backend/pkg/dataframe/columnar.go:29-75 | Each column's typed slice, values slice and null flags are those of its cells in order. |
| Columnar.ToFrame | backend/pkg/dataframe/columnar.go:77-95 | The frame rebuilt has the same columns and the rows the columnar form tells. |
| Columnar.ColumnComesBackIff | backend/pkg/dataframe/columnar.go:39-71 | A column comes back, up to numeric normalisation, if and only if its non-null cells all landed in the same slice and the texts of a string column are its cells' own. |
| Columnar.RowsComeBackIff | backend/pkg/dataframe/columnar.go:77-95 | ToFrame after ToColumnar gives back every row, normalised, if and only if every column comes back. |
| Columnar.RoundTrip | backend/pkg/dataframe/columnar.go:29-95 | Running ToColumnar and then ToFrame on any frame gives back its rows, normalised, if and only if every column comes back; the columns keep their order. |
| Columnar.SlicesFillRanks | backend/pkg/dataframe/columnar.go:35-38 | The two slices together hold one cell for every non-null row. |
| Quota.Service.Check | backend/internal/quota/quota.go:40-71 | Without a quota or a user the call is allowed and nothing is logged; otherwise the answer and the new log of this kind and user are the pure step's, and no other log changes. |
| Quota.Bucket.Check | backend/internal/quota/quota.go:48-70 | The step on one bucket's hits, kept in a backing array that is reused or grown. |
| Quota.Bucket.Prune | backend/internal/quota/quota.go:51-57 | Compaction in place leaves exactly the hits later than the cutoff, in order. |
| Quota.QuotaIsLargest | backend/internal/quota/quota.go:73-92 | The largest quota any role grants for the kind, and never a negative one. |
| Quota.KeysAreApart | backend/internal/quota/quota.go:45-45 | Two users, or the two kinds of one user, never share a log. |
| Quota.LogIsWindow | backend/internal/quota/quota.go:51-57 | Over any run with non-decreasing times the pruned log is the whole allowed history filtered to the window. |
| Quota.AnswerFollowsHistory | backend/internal/quota/quota.go:58-59 | A call is allowed exactly when the whole history holds fewer than quota allowed calls in the window before it. |
| Quota.EveryHourIsBounded | backend/internal/quota/quota.go:48-69 | Any hour, open at its start, holds at most quota allowed calls, over the whole history. |
| Quota.ClosedHourCanHoldTwice | backend/internal/quota/quota.go:53-53 | For every quota an hour closed at both ends can hold that quota and up to as many again. |
| Quota.ClosedHourIsBounded | backend/internal/quota/quota.go:48-69 | And it never holds more than twice the quota. |
| Quota.EverySpanIsBounded | backend/internal/quota/quota.go:48-69 | Calls that reach the bucket out of order, by at most some lag: no window shorter than an hour by that lag holds more than quota of the allowed ones. |
| Quota.LaggedHourIsBounded | backend/internal/quota/quota.go:48-69 | With a lag of half an hour or less an hour holds at most twice the quota. |
| Quota.LaggedHourCanHoldMore | backend/internal/quota/quota.go:51-57 | Under the least lag a run in which a full quota, one call an hour later, and up to a quota less one of late calls are all allowed. |
| Quota.LateFillsHour | backend/internal/quota/quota.go:51-57 | All of those calls but one fall into one hour. |
| Quota.RetryAfterIsEnough | backend/internal/quota/quota.go:59-67 | After a refusal, with no call in between, every call from RetryAfter on is allowed, and none before when the wait is more than the one-second minimum. |
| Quota.RetryAfterIffEnough | backend/internal/quota/quota.go:62-65 | For any quota and log, lowered quotas included, waiting RetryAfter is enough if and only if the hit quota places from the end of the window is as old as its first one or leaves the window within a second. |
| Quota.LoweredQuotaCanOutlastRetryAfter | backend/internal/quota/quota.go:62-65 | A lowered quota for which RetryAfter is too short. |
| TokenBuckets.Redis.TokenBucket | backend/internal/adapters/ratelimit/redis.go:17-32 | The script's answer and the entry it writes back for its key, refilled by the caller's clock and expiring by the server's; other keys stay. |
| TokenBuckets.RedisLimiter.Allow | backend/internal/adapters/ratelimit/redis.go:52-64 | The script's answer under the prefixed key; an error lets the call through. |
| TokenBuckets.StepKeepsRange | backend/internal/adapters/ratelimit/redis.go:25-28 | Whatever the clock does, tokens stay between 0 and burst. |
| TokenBuckets.ExpiryIsInvisible | backend/internal/adapters/ratelimit/redis.go:24-30 | A run with expiring keys gives the answers and the bucket of a run that keeps its bucket for ever, whenever between two calls far enough apart for the key to expire the callers' clocks fall behind the server's by a second at most. |
| TokenBuckets.ExpiryIsInvisibleIffFull | backend/internal/adapters/ratelimit/redis.go:24-30 | On any clocks, expiry is invisible in a run and all its beginnings if and only if the kept bucket would be full at every call that finds its key expired. |
| TokenBuckets.LaggingCallersGetMore | backend/internal/adapters/ratelimit/redis.go:30-30 | With a burst of one a second call passes although no time went by on the callers' clocks, once the server's clock has let the key expire. |
| TokenBuckets.DropIsInvisibleIffFull | backend/internal/adapters/ratelimit/redis.go:24-26 | Losing a bucket changes the call's outcome nowhere if and only if it would have been full. |
| TokenBuckets.LevelIsLeastBudget | backend/internal/adapters/ratelimit/redis.go:24-28 | The tokens at any moment are the least, over all intervals of the run ending there, of burst + rate * upward travel of the clock minus the calls allowed in it, however the clock goes. |
| TokenBuckets.AllowedIffEveryIntervalFits | backend/internal/adapters/ratelimit/redis.go:27-28 | A call is allowed exactly when it fits that budget of every interval ending with it, at any clock. |
| TokenBuckets.AllowedIsBounded | backend/internal/adapters/ratelimit/redis.go:17-32 | On clocks within that tolerance, the calls allowed in any interval of a run number at most burst + rate * upward travel of the callers' clock in it. |
| TokenBuckets.AllowedIsBoundedByExpiries | backend/internal/adapters/ratelimit/redis.go:17-32 | On any clocks at all they number at most a burst more for every time the key expired in between. |
| TokenBuckets.TravelIsLengthIff | backend/internal/adapters/ratelimit/redis.go:59-59 | The upward travel of the clock is never less than the length of the interval, and equals it if and only if the clock never steps back in it. |
| TokenBuckets.AllowedIsBoundedByLength | backend/internal/adapters/ratelimit/redis.go:17-32 | With callers' clocks within the tolerance that never step back the bound is burst + rate * length. |
| TokenBuckets.ClockStepBackRefillsTwice | backend/internal/adapters/ratelimit/redis.go:25-29 | For every step back of the clock there is a rate at which the same stretch of time refills twice and three of four calls pass where the length allows two. |
| Scheduling.AccountsHold | backend/internal/workflow/service.go:137-172 | In every interleaving a workflow's counter is the number of its runs between increment and decrement, no entry is zero, inFlight is the number of runs, and two scheduled runs never overlap. |
| Scheduling.StepKeepsAccounts | backend/internal/workflow/service.go:162-172 | Every step of every run, schedule edit and poll keeps those accounts. |
| Scheduling.FiringsIncrease | backend/internal/scheduler/scheduler.go:55-108 | In every interleaving in which the clock does not step back, the expressions given to a workflow fire, and its edits are stored at once or before the time they store has come, the firings handled of it strictly increase, so none is handled twice. What other workflows are given does not matter. |
| Scheduling.StepKeepsOrder | backend/internal/scheduler/scheduler.go:88-107 | Every such step keeps a workflow's handled firings before its next run, every edit of it under way on a computed time, and every row of it in hand behind what was handled. |
| Scheduling.SkipsIffCounted | backend/internal/scheduler/scheduler.go:69-77 | The check holds a scheduled run back exactly when some run of the workflow is counted at that moment. |
| Scheduling.ManualRunSlipsIn | backend/internal/scheduler/scheduler.go:69-79 | Check and start are two steps, so a manual run begun between them overlaps with the scheduled one. |
| Scheduling.FiringsIncreaseIffCronFires | backend/internal/workflow/schedule.go:24-31 | For a workflow given one expression that holds in every interleaving if and only if the expression is never answered with a time that is not later than asked; one that never fires is answered with the zero time and handled at every poll. |
| Scheduling.MarkKeepsOrderIff | backend/internal/scheduler/scheduler.go:91-107 | Wherever the clock was before: once an enabled row is marked, and while the clock goes on and nobody edits, its handled firings keep increasing if and only if the time named for it is later than the firing handled. |
| Scheduling.SteppedClockIsReached | backend/internal/scheduler/scheduler.go:91-107 | A run in which the clock steps back while a row is run, so that the row is given the same firing again and it is handled twice. |
| Scheduling.StoreKeepsOrderIff | backend/internal/workflow/service.go:83-96 | SetSchedule computes a time and stores it later: in any state the handled firings stay increasing, whatever is done afterwards, if and only if the row is in the scheduler's hand when the update lands or every firing handled of it is before the time stored. |
| Scheduling.LateStoreIsReached | backend/internal/workflow/service.go:83-96 | A run in which an edit lands after the time it stores was handled, so that a firing is handled again. |
| Scheduling.LateStoreRepeats | backend/internal/workflow/service.go:83-96 | From any state a time that was handled already, stored for a row not in hand, can be handled once more by the loop alone. |
| Scheduling.SameFiringRepeats | backend/internal/scheduler/scheduler.go:91-108 | A row advanced to the very firing it was polled for is due again at once and handled twice. |
| Scheduling.EditDuringRunIsOverwritten | backend/internal/scheduler/scheduler.go:91-107 | An edit stored between the poll and the advance keeps its expression, but its next run only if the polled expression names the same time; if that expression is refused by then it is put back and the schedule disabled. |
| Scheduling.Repository.DueSchedules | backend/internal/workflow/repository.go:128-145 | Every enabled row whose next run is not after now, once, in some order. |
| Scheduling.Repository.MarkScheduleRun | backend/internal/workflow/repository.go:149-155 | Sets the row's last and next run; an unknown id changes nothing. |
| Scheduling.Service.SetSchedule | backend/internal/workflow/service.go:83-96 | Enabling stores the next run from now, or changes nothing on an unknown id or a bad expression; disabling keeps the expression and clears the next run. |
| Scheduling.Service.UncountRun | backend/internal/workflow/service.go:165-172 | One run less, and no entry at zero. |
| Scheduling.Service.Execute | backend/internal/workflow/service.go:137-172 | With nobody else at work a call, failed early or run, leaves the counters as it found them. |
| Scheduling.Scheduler.Tick | backend/internal/scheduler/scheduler.go:55-64 | Handles every due row once and advances it; counters are as before. |
| Scheduling.Scheduler.RunOne | backend/internal/scheduler/scheduler.go:66-89 | Runs unless the workflow is in flight, and advances the schedule either way. |
| Scheduling.Scheduler.AdvanceSchedule | backend/internal/scheduler/scheduler.go:91-108 | Marks the row with the next run of the polled expression, or disables it when there is none to compute. |
| Scheduling.TickLeavesNothingDue | backend/internal/scheduler/scheduler.go:55-64 | After an undisturbed poll an enabled row it handled is due at the time of the poll if and only if the time named for it had come by then; with an expression that fires it is not. |
| RefreshTokens.RunsAreSafe | backend/internal/auth/service.go:113-207 | In every run of atomic calls: no token yields a pair twice, a suspended user has no unrevoked token, and no user has more of them than sessions opened. |
| RefreshTokens.RevocationIsPermanent | backend/internal/auth/repository.go:282-290 | A revoked token stays revoked, at the same time, whatever is called. |
| RefreshTokens.ReuseEndsAllSessions | backend/internal/auth/service.go:146-149 | Once a revoked token is presented, its user has no unrevoked token until a new session is opened. |
| RefreshTokens.RefreshYieldsIff | backend/internal/auth/service.go:140-171 | A token yields a pair exactly when it is unrevoked, not expired and its owner exists; then the new token takes its place. |
| RefreshTokens.StepCounts | backend/internal/auth/service.go:113-207 | Nothing but opening a session makes a user's unrevoked tokens more. |
| RefreshTokens.StepKeepsSuspendedOut | backend/internal/api/handlers/users.go:57-63 | Every call keeps suspended users without unrevoked tokens. |
| RefreshTokens.Service.RefreshSession | backend/internal/auth/service.go:140-171 | The call answers and changes the token table as the step does, in the order of its checks. |
| RefreshTokens.Service.LoginUser | backend/internal/auth/service.go:113-138 | Unknown, suspended, unproven and proven logins, as the step does. |
| RefreshTokens.Service.RegisterUser | backend/internal/auth/service.go:97-111 | A new user with a session, or a conflict. |
| RefreshTokens.Service.LogoutSession | backend/internal/auth/service.go:173-175 | Revokes the presented token only. |
| RefreshTokens.Service.RevokeUserSessions | backend/internal/auth/service.go:177-179 | Revokes every unrevoked token of the user. |
| RefreshTokens.Service.SetUserStatus | backend/internal/api/handlers/users.go:57-63 | Sets the status of a known user and, on suspension, revokes the sessions. |
| RefreshTokens.Repository.RevokeUserRefreshTokens | backend/internal/auth/repository.go:287-290 | Sets the time on exactly the user's unrevoked rows. |
| RefreshTokens.Repository.RevokeRefreshToken | backend/internal/auth/repository.go:282-285 | Sets the time on the row if it is there and unrevoked. |
| Pagination.DoPaginated | backend/pkg/httpclient/pagination.go:53-102 | Pages, requests, truncation and failure are those of driving the strategy, for any server, page limit and paginator state; the server may answer a repeated request differently. |
| Pagination.Paginator.Init | backend/pkg/httpclient/pagination_offset.go:39-51 | The first request; the page strategy resets its position, the offset strategy does not. |
| Pagination.Paginator.Next | backend/pkg/httpclient/pagination_offset.go:53-68 | None after the last page, otherwise the request for the next position. |
| Pagination.OffsetFetchesAllOrPrefix | backend/pkg/httpclient/pagination.go:53-102 | Against an honest server, by offset: the whole dataset, or exactly its first maxPages * pageSize items, truncated if and only if it has at least that many. |
| Pagination.PagesFetchAllOrPrefix | backend/pkg/httpclient/pagination_offset.go:115-129 | By page number the same items, but truncated as soon as the last page allowed is not empty. |
| Pagination.AsksForPageAt | backend/pkg/httpclient/pagination_offset.go:62-66 | Page i is asked for at offset i * pageSize, or as page start + i. |
| Pagination.HonestItems | backend/pkg/httpclient/pagination.go:68-98 | From any page on, the concatenated pages are the slice of the dataset the page limit allows. |
| Pagination.HonestTruncates | backend/pkg/httpclient/pagination.go:94-101 | The flag is set exactly when the page limit is used up before the strategy sees the end. |
| Pagination.ReusedPaginatorSkips | backend/pkg/httpclient/pagination_offset.go:39-51 | Driven a second time, an offset paginator that stopped at page j skips pages 1 to j of the dataset. |
| Pagination.AppendPage | backend/internal/connections/connectors/rest.go:179-187 | The page's items up to the row limit are in the frame, and truncated means there were more. |
| Pagination.AppendPages | backend/internal/connections/connectors/rest.go:211-227 | Stops at an error page or once an item was left out, whichever comes first. |
| Pagination.KeepsFirstLimit | backend/internal/connections/connectors/rest.go:179-227 | With no error page the frame holds exactly the first limit items fetched, flagged if and only if there were more. |
| Pagination.Execute | backend/internal/connections/connectors/rest.go:175-227 | The paginated query as a whole: driver, then page loop with its errors for statuses, bodies over the cap and bad JSON, then the column limit. |
| Pagination.QueryShowsPrefix | backend/internal/connections/connectors/rest.go:204-227 | Against an honest server the rows shown are the first of the dataset, as many as both limits allow. |
| Csv.FrameToCSV | frontend/src/lib/exportFrame.ts:14-22 | The lines pushed and joined are the rendering of the header and of the rows slice(0, maxRows) selects, negative limits included. |
| Csv.ExportRoundTrip | frontend/src/lib/exportFrame.ts:3-22 | Parsing the export by section 2 of RFC 4180 gives back header and cell texts exactly, if and only if there is a column. |
| Csv.LenientRoundTrip | frontend/src/lib/exportFrame.ts:20-21 | With the optional line break at the end, a blank last row of a single column is lost and nothing else. |
| Csv.ExportIsInjective | frontend/src/lib/exportFrame.ts:3-22 | Equal files have equal column names and equal texts in every cell. |
| Csv.FieldReads | frontend/src/lib/exportFrame.ts:8-11 | A quoted or bare cell text is read back in front of a comma, a line break or the end. |
| Csv.RecordsRead | frontend/src/lib/exportFrame.ts:16-21 | The same for any list of non-empty records. |
| Digest.AuthorizationRoundTrip | backend/pkg/httpclient/auth_digest.go:82-130 | Parsing the header built for any request gives back every parameter under its name with exactly the value it was given, when in each value quotes come in pairs with no comma between one pair's two, none is at an end, and the algorithm is a bare token. |
| Digest.HeaderRoundTrip | backend/pkg/httpclient/auth_digest.go:117-129 | The same for any list of parameters, whatever commas, equals signs, blanks and inner quotes such values hold. |
| Digest.SplitDigestFields | backend/pkg/httpclient/auth_digest.go:174-198 | The loop with builder and flag computes the reference splitting. |
| Digest.ParseDigestChallenge | backend/pkg/httpclient/auth_digest.go:150-171 | Trimmed keys and values of the fields with an equals sign, later ones winning. |
| Digest.HeaderFields | backend/pkg/httpclient/auth_digest.go:174-198 | The fields of a written header are its parameters, none split or joined. |
| Digest.QopIsToken | backend/pkg/httpclient/auth_digest.go:135-146 | The chosen qop is a single trimmed word without a comma. |
| Digest.ChooseQop | backend/pkg/httpclient/auth_digest.go:135-146 | The loop over the parts answers auth if it is on the list, or else the first of them, or nothing. |
| Digest.HexReadsBack | backend/pkg/httpclient/auth_digest.go:99-100 | The nonce count printed in hexadecimal, padded to the width, reads back as the number. |
| Digest.QuoteSwallowsNext | backend/pkg/httpclient/auth_digest.go:117-129 | Values are not escaped: behind any value with an odd number of quotes, and no comma outside them, the next parameter is never read. |
| Digest.OneParamComesBackIff | backend/pkg/httpclient/auth_digest.go:117-129 | A single quoted parameter comes back if and only if its value has no comma behind an odd number of quotes and no quote at either end. |

## Left out

- Engines.Engine.Run: asks for unique ids and no dangling edge, which validation has established wherever the repository calls it.
- Projection.CollectProjectedColumns: asks for an acyclic graph; on a cycle of filters the original walk never ends.
- Pushdown.PushdownPreservesAggregates: the database is taken to nest a query in parentheses and to resolve the hint's names as written; a query that ends in a line comment, a name it folds or reserves, and an order the projection does not keep are not modelled. Sources that ignore hints, as all but PostgreSQL do, are not told apart; both runs are taken to see the same data, and the connection's own rate limit is left out.
- EnginePushdown.HintsPreserveAggregates: speaks of aggregates whose way from the source is one chain; behind a join the statements are about the tables joined, not about the engine.
- RefreshTokens.RunsAreSafe: interleavings inside one service call are not modelled, nor is a store that fails.
- Scheduling.FiringsIncrease: a store that fails to record an advance is not modelled, nor is a second scheduler process. What a clock that steps back does is stated for a mark, not for an edit.
- Frame metadata other than the truncation flag: names, lineage, warnings, row counts kept beside the frame.
- Byte-slice cells, and the number of cells truncation affected.
- IEEE rounding, NaN and infinities; duration overflow.
- `Rename`, `Describe`, JSON encoding of frames, error texts.
- The cursor, link-header and GraphQL paginators; StartPage is modelled, which no connector sets.
- `detectFusionGroups`, whose result the engine discards.
- Timeouts, cancellation, memory pressure beyond its early error, audit, logging and metrics.
- HTTP handlers other than the order of the two calls in `SetUserStatus`; the user interface other than the CSV export.
- Password hashing, JWT signing, OIDC exchange: a login is proven or not.
