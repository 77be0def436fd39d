# connection-paths, modelled in Dafny

The library keeps an undirected graph of named nodes ("connections") built
from rows of two identifiers, and answers three questions about it: what are
the direct neighbours of a node (`getDestinations`), which paths of bounded
length and number lead from one node to another (`getPaths`), and are two
nodes connected at all (`areConnected`).

This project models the core of `lib/connections.js`:

- **Graph builder** (`builder.dfy`, `adjacency.dfy`). `addMapItem` is
  `Adjacency.AddMapItem`, an insertion that appends a neighbour only when it is
  absent. `buildMap` is `Builder.BuildMap`, a pure fold over the rows. It drops
  an optional header row, then validates each row in order: it must be an
  array, of length 2, with a string source and then a string destination. The
  fold stops at the first invalid row, with that row's error message. Every
  earlier row is inserted in both directions into a freshly emptied store.
  Instead of emitting a 'ready' event, the function returns the new store
  together with the optional error.
- **Neighbour lookup** (`Adjacency.GetDestinations`). A non-string identifier
  and an identifier with no neighbour list are errors. Otherwise the stored
  list is returned.
- **Option handling** (`options.dfy`). This covers the checks and defaults at
  the start of `getPaths` and the option rewrite done by `areConnected`.
- **Path search** (`paths.dfy`, `worker.dfy`, `search.dfy`). The
  `async.queue` worker of `getPaths` becomes `Worker.Run`, a function of the
  FIFO queue of partial paths ("tasks") and the results so far, and
  `Search.Search`, a sequential loop that computes it, seeded with `[source]`.
  Every neighbour lookup answers synchronously, so each task is expanded in one
  step and in queue order; the loop keeps that order. Each dequeued task first
  meets the stop rule: stop when the result count equals `max`, when the path
  is longer than `depth.recursion`, or when the path length equals
  `depth.recursion` and no result has been found yet. Otherwise the task is
  expanded by `Search.ExpandTask`. The revisit and backtrack filters are
  applied to each neighbour. A neighbour equal to the destination yields a
  result; every other surviving neighbour yields a new task. A failed lookup
  ends the search with the results so far. The lemmas about `Worker.Run` state
  what the search delivers: every result is a well-formed path (soundness);
  every well-formed path the stop rule lets through is among the results
  unless `max` was reached or a lookup failed (completeness); every result
  path shorter than the last result is among the results (breadth-first
  order); no result repeats on a store without duplicate neighbours; and the
  worker, seen as a sequence of single steps (`Worker.Advance`), hands over
  exactly the results of the tasks it expanded before it halted, with an
  error exactly when the halting task's lookup failed.

JavaScript values are modelled by `JsValues.JsValue`: `undefined`, `null`,
booleans, integer numbers, strings, arrays and plain objects. lodash's
`_.isArray`, `_.isString`, `_.isNumber`, `_.isBoolean` and `_.isObject`
become constructor tests. The global `connections.map` is passed explicitly
as a `Graph` (`map<string, seq<string>>`). The store a build replaces is a
parameter too, because a non-array `data` leaves it in place.

## Model

| member | source | states |
|---|---|---|
| Adjacency.AddMapItem | lib/connections.js:9-16 | the list of `source` afterwards holds exactly its old entries plus `destination`, old entries first and in order; no other key changes; a list without duplicates stays without duplicates |
| Adjacency.AddMapItemExisting | lib/connections.js:13-15 | inserting an edge that is already recorded leaves the store unchanged |
| Adjacency.AddMapItemIdempotent | lib/connections.js:9-16 | inserting the same edge twice gives the same store as inserting it once |
| Adjacency.AddMapItemKeepsDistinct | lib/connections.js:13-15 | insertion keeps every neighbour list free of duplicates |
| Adjacency.AddMapItemKeepsNonEmpty | lib/connections.js:10-15 | insertion never leaves a key with an empty list |
| Adjacency.Connect | lib/connections.js:44-45 | a valid row adds both of its fields as keys and nothing else |
| Adjacency.ConnectAdjacent | lib/connections.js:44-45 | after a row `(s, d)` the edges are the old edges plus `s→d` and `d→s`, and nothing more |
| Adjacency.ConnectKeepsSymmetric | lib/connections.js:44-45 | inserting both directions keeps the store symmetric |
| Adjacency.ConnectKeepsDistinct | lib/connections.js:44-45 | inserting both directions keeps lists duplicate-free and non-empty |
| Adjacency.GetDestinations | lib/connections.js:87-99 | a non-string source gives 'source must be a string'; a source without a list gives 'source destinations were not an array'; otherwise the result is exactly the stored list |
| Builder.CheckRow | lib/connections.js:32-54 | a row is rejected exactly when it is not an array of two strings; the checks run in source order (array, length 2, field 0, field 1), each with its own message naming `data[i]` |
| Builder.CheckRowNamesIndex | lib/connections.js:37-53 | the index can be read back from every row error message: it is the index of the rejected row |
| Builder.FirstInvalid | lib/connections.js:27-31 | the fold's stopping point: every row before it is valid, and the row at it, if any, is not |
| Builder.InsertRowsError | lib/connections.js:27-55 | the fold reports the first invalid row's error, and no error when all rows are valid |
| Builder.InsertRowsEdges | lib/connections.js:27-55 | the fold records exactly the edges of the valid rows before the first invalid one, in both directions; later rows are not inserted |
| Builder.InsertRowsKeys | lib/connections.js:27-55 | the keys the fold adds are exactly the fields of those rows |
| Builder.InsertRowsKeeps | lib/connections.js:27-55 | the fold keeps the store symmetric, duplicate-free and without empty lists |
| Builder.AppendInLinkOrder | lib/connections.js:13-15 | appending a neighbour that was linked later than every present one, or one already present, keeps a list in first-link order |
| Builder.ConnectLinkedUpTo | lib/connections.js:44-45 | after the two insertions of row `i` the store records exactly the pairs some row up to `i` links |
| Builder.ConnectInLinkOrder | lib/connections.js:44-45 | the two insertions of a valid row keep every list in first-link order |
| Builder.InsertRowsOrder | lib/connections.js:27-55 | the fold keeps every neighbour list ordered by the first row linking each neighbour to the key |
| Builder.InsertRows | lib/connections.js:27-55 | the fold reports an error exactly when a row from the start index on is invalid (its first invalid index is not the end of the rows), and never drops a key of the store it starts from |
| Builder.HeaderDropped | lib/connections.js:23-25 | with `hasHeader === true` the first row is discarded before validation: building `[header] + rows` is building `rows` without a header |
| Builder.HeaderIgnored | lib/connections.js:23-25 | any other `hasHeader` value keeps every row: the build is the build without options |
| Builder.HeaderOnEmpty | lib/connections.js:20-25 | an empty array, with or without a header, empties the store and reports no error |
| Builder.BuildMap | lib/connections.js:17-59 | non-array data keeps the previous store and reports the 'data ... is not an array' error; otherwise the new store is symmetric and duplicate-free, holds exactly the edges and nodes of the rows before the first invalid one (indices counted after the header), and the error is `None` exactly when every row is valid; the order within each list is stated by `Builder.BuildMapOrder` |
| Builder.BuildMapOrder | lib/connections.js:13-14 | each neighbour list of a built store is in row order: every neighbour is first linked to the key by a row before the first invalid one, and one neighbour comes before another exactly when its first linking row comes first; so `A–B, A–C` gives `A:[B,C]` and not `A:[C,B]` |
| Builder.BuildMapLookup | lib/connections.js:87-95 | on a built store, a lookup succeeds exactly for nodes named in an inserted row, and returns a non-empty, duplicate-free list of exactly that node's partners |
| Builder.ConnectExisting | lib/connections.js:13-15 | a row repeating an already recorded pair changes nothing |
| Builder.TriangleScenario | lib/connections.js:27-55 | rows A–B, B–C, A–C build A:[B,C], B:[A,C], C:[B,A] with no error |
| Builder.NonStringDestinationScenario | lib/connections.js:40-41 | a numeric destination in row 1 yields 'data[1][1] (connection destination) is not a string', and row 0 stays inserted |
| Builder.HeaderScenario | lib/connections.js:23-25 | with a header, a malformed first data row is reported as `data[0]`, and the previous store is discarded |
| Text.Decimal | lib/connections.js:38-53 | reference definition of the row index inside `'data[' + i + ']'`: a non-empty run of decimal digits without a leading zero; `Text.DecimalRoundTrip` reads it back |
| Text.Join | lib/connections.js:163 | reference definition of `path.toString()`, the identifiers joined by commas; it has no contract of its own, and `Text.SplitJoin` and `Text.JoinAmbiguous` state what it preserves and loses |
| Text.DecimalRoundTrip | lib/connections.js:38 | the decimal rendering of a row index parses back to that index |
| Text.SplitJoin | lib/connections.js:163 | a 'string'-format path whose identifiers contain no comma splits back into the path |
| Text.JoinAmbiguous | lib/connections.js:163 | an identifier containing a comma makes the 'string' format ambiguous |
| Options.ResolveOptions | lib/connections.js:106-136 | a non-object `opt`, a non-string `source` and a non-string `destination` are rejected in that order; a numeric `max` and `depth.recursion` are kept and other values become 100 and 5; booleans are kept and other values become `false`; format is 'string' exactly when given as 'string' |
| Options.ResolveEncoded | lib/connections.js:116-136 | every configuration can be spelled out as options that resolve back to it, so the defaulting loses nothing |
| Options.ResolveDefaults | lib/connections.js:116-136 | with only `source` and `destination` given: `max` 100, recursion depth 5, queue width 500, `revisit` and `reverse` false (both filters on), 'array' format |
| Options.ForceConnectivity | lib/connections.js:70-76 | the rewritten options are an object; a non-object becomes `{}`; `max` reads 1, `reverse` and `revisit` read `false`, and every other property reads as before |
| Options.ForceConnectivityResolves | lib/connections.js:70-76 | options rewritten by `areConnected` resolve exactly when the caller's do, to the same configuration with `max` 1 and `reverse` and `revisit` false |
| Paths.ExtendTask | lib/connections.js:154-167 | extending a task that passed the stop rule by an admissible neighbour keeps the path a walk from the source with no repeats (revisit off) and no step back (reverse off); the result is a result path when the neighbour is the destination and a new task otherwise |
| Paths.LayeredStep | lib/connections.js:158-166 | dequeuing the head and appending its one-node-longer children keeps the FIFO queue breadth-first |
| Paths.PrefixStep | lib/connections.js:154-167 | each proper prefix of a result path extends by its next node, a neighbour of its last node that passes both filters, and that node is the destination exactly at the end of the path |
| Paths.RouteIsFound | lib/connections.js:155-156 | with both filters on, a simple route without step-backs from the source to the destination of at most `recursion + 1` nodes is a result path |
| Worker.HitsOf | lib/connections.js:155-163 | reference definition, no contract of its own: the results of one expansion, in neighbour order, are the task plus each neighbour that passes the revisit and backtrack filters and equals the destination; `Worker.ExpansionOf` characterises it |
| Worker.Successors | lib/connections.js:155-166 | reference definition, no contract of its own: the new tasks of one expansion, in neighbour order, are the task plus each neighbour that passes both filters and is not the destination, pushed to the back of the queue; `Worker.ExpansionOf` characterises it |
| Worker.Run | lib/connections.js:140-186 | reference definition of the queue worker, no contract of its own: the head task is stopped by the stop rule, fails on a failed lookup with the results so far, or is expanded with its hits appended and its new tasks enqueued; an empty queue is the drain. The `Worker.Run…` lemmas state its properties |
| Worker.ExpansionOf | lib/connections.js:154-169 | the results of one expansion are the task plus the destination, present exactly when the destination is an admissible neighbour, at most once when the list has no duplicates; the new tasks are exactly the task plus each admissible non-destination neighbour; together they number at most the neighbours |
| Worker.ShouldStop | lib/connections.js:142-144 | a full result count always stops; a task let through grows into paths of at most `recursion + 1` nodes, and of at most `recursion` nodes while nothing has been found |
| Worker.MeasureStep | lib/connections.js:142-144 | each expansion lowers a well-founded measure bounded by the length stop rule, so the worker always ends |
| Worker.QueueStep | lib/connections.js:158-166 | after one expansion the queue is still breadth-first, no task is shorter than the dequeued one, and the measure has dropped |
| Worker.RunGrows | lib/connections.js:162-163 | a run only appends to the results: the results it starts with stay in front, in order |
| Worker.NewTasks | lib/connections.js:154-167 | the results and tasks produced by one expansion are well formed and one node longer than the task |
| Worker.PendingStep | lib/connections.js:166 | dequeuing the head and appending well-formed tasks keeps every queued task well formed |
| Worker.ResultStep | lib/connections.js:162-163 | appending the results of one expansion keeps the results well formed, shortest first, and the first one at most `recursion` nodes long |
| Worker.RunSound | lib/connections.js:140-176 | from a well-formed state, every result of the run is a result path, the results come shortest first and the first has at most `recursion` nodes |
| Worker.RunBound | lib/connections.js:142-163 | on a store without duplicate neighbours, a run starting with at most `max` results ends with at most `max` |
| Worker.RunErrorKind | lib/connections.js:151-152 | the only error a run reports is the failed lookup 'source destinations were not an array' |
| Worker.LastInStep | lib/connections.js:151-166 | in a closed store, new tasks end in nodes that have neighbour lists |
| Worker.RunNoError | lib/connections.js:151-152 | in a closed store whose queued tasks end in known nodes, no lookup fails |
| Worker.SeedComplete | lib/connections.js:188 | every result path grows from the seed task `[source]` |
| Worker.CompleteStep | lib/connections.js:154-167 | expanding the head keeps every result path either found or growing from a queued task |
| Worker.StopComplete | lib/connections.js:142-148 | when the stop rule fires with fewer than `max` results, every result path it allows has been found |
| Worker.DrainComplete | lib/connections.js:184-186 | when the queue drains, every result path has been found |
| Worker.RunComplete | lib/connections.js:140-188 | a run that ends without error and below `max` has found every result path, and while nothing was found every one of at most `recursion` nodes |
| Worker.OrderStep | lib/connections.js:158-166 | results appended by an expansion are one node longer than the head, and every shorter result path, no longer growing from a queued task, is already among the results |
| Worker.RunOrdered | lib/connections.js:140-176 | a run keeps every result path shorter than the last result among the results |
| Worker.SuccessorsDistinct | lib/connections.js:154-166 | distinct neighbours give distinct new tasks |
| Worker.AntichainStep | lib/connections.js:158-166 | after an expansion no queued task is a prefix of another |
| Worker.ApartStep | lib/connections.js:158-166 | after an expansion no queued task is a prefix of a result |
| Worker.NoDuplicatesStep | lib/connections.js:162-163 | the results of one expansion are new, so the results stay free of repeats |
| Worker.SeparateStep | lib/connections.js:154-169 | with distinct neighbours, one expansion keeps tasks and results each with a single history |
| Worker.RunDistinct | lib/connections.js:140-176 | on a store without duplicate neighbours a run never delivers the same result twice |
| Worker.RunIterates | lib/connections.js:140-186 | a run takes single steps until the stop rule fires, the queue drains or a lookup fails; it then hands over exactly the results of the tasks expanded so far, and an error exactly when the lookup of the halting task failed |
| Worker.WholeHalts | lib/connections.js:140-188 | the whole search from the seed halts after some number of steps with exactly the results gathered so far, its error marking a failed lookup |
| Worker.DirectEdgeFound | lib/connections.js:151-163 | a direct edge that the filters allow is a result of the first expansion and stays among the results |
| Worker.WholeFirstStep | lib/connections.js:142-188 | `max = 0` or `recursion <= 1` ends the search at once with no results; otherwise an unknown source fails the first lookup with no results, and a direct edge is found |
| Worker.WholeSound | lib/connections.js:138-188 | the whole search delivers result paths, shortest first, at most `max` of them and none twice on a store without duplicate neighbours, with the lookup error as the only error and none when the source is known in a closed store |
| Worker.WholeComplete | lib/connections.js:138-188 | the whole search, ending without error and below `max`, misses no result path the stop rule allows; and every result path shorter than its last result is among its results |
| Search.Render | lib/connections.js:163 | the 'array' format delivers the path itself, the 'string' format exactly `Text.Join` of the path (`path.toString()`) for every path; both read back to the path when no identifier holds a comma |
| Search.ExpandTask | lib/connections.js:154-169 | the results and new tasks of one expansion are exactly those of the reference expansion, in neighbour order: the task plus the destination when it is admissible, and the task plus each admissible non-destination neighbour |
| Search.Search | lib/connections.js:138-188 | the loop computes the whole worker run. Every result is a walk from the source to the destination with at least one step, at most `recursion + 1` nodes and the filters respected, shortest first, the first of at most `recursion` nodes. With no error and fewer than `max` results, every such path is found (while none is found, every one of at most `recursion` nodes), and every result path shorter than the last result is found in any case. On a store without duplicate neighbours no result repeats, and with `max >= 0` there are at most `max` results. The search halts at the first task it cannot expand and hands over exactly the results of the tasks expanded before it, with an error exactly when that task's lookup failed; the only error is the lookup error, impossible when the source is known and the store is closed, certain with no results when the source is unknown. `max = 0` or `recursion <= 1` gives no results and no error; a direct edge is always found when the first expansion may run |
| Search.GetPaths | lib/connections.js:101-190 | ill-formed options are rejected with their error and no paths; otherwise the delivered paths are the search's results in order, each rendered in the requested format, with the search's soundness, completeness, breadth-first order, no-repeat, halting, bound, error, unknown-source (an error and no paths) and direct-edge guarantees |
| Search.BuiltStoreSearch | lib/connections.js:17-59 | a store built from array data is closed and duplicate-free, so a search on it from a known source reports no error, returns at most `max` results for `max >= 0`, and never repeats a result |
| Search.NoRouteMissed | lib/connections.js:138-188 | with both filters on, a search that found nothing without error or `max` leaves no simple route of at most `recursion` nodes |
| Search.AreConnected | lib/connections.js:65-81 | rejected options abort with the rewritten options' error; otherwise `true` means a simple route without step-backs of at most `recursion` nodes exists; whenever no error is reported, and in any closed store, `true` holds exactly when one does; a direct edge between distinct nodes gives `true` when `recursion >= 2`; `recursion <= 1` gives `false` with no error |

## Left out

- The loader in `module.exports` (lib/connections.js:193-218): URL fetch, file reading and CSV parsing are network and file I/O through libraries not part of this model.
- The 'ready' event (lib/connections.js:61): `BuildMap` returns the error instead of emitting it.
- The `TypeError` thrown for a non-function callback (lib/connections.js:66-68, 83-85, 102-104): callback plumbing with no counterpart in a pure model.
- `async.queue` concurrency (`opt.depth.queue`), `_.defer`, `queue.kill`, `drain` and the `finished` latch (lib/connections.js:140-186): the search is a sequential FIFO loop that returns once. The queue width is resolved (default 500) but unused.
- A `depth.queue` of 0 or less (lib/connections.js:176): depending on the `async` version, `async.queue` then throws or never runs the seed task, so `getPaths` never answers. The model searches as if the width were positive.
- Deferred reads of shared state (lib/connections.js:140-176): the worker reads `opt.max`, `opt.depth.recursion`, the filters, the format and `connections.map` while it runs, after `getPaths` has returned. A caller that changes `opt` or rebuilds the store before the search ends changes the result. The model fixes the options and the store when `getPaths` is called.
- `areConnected` after `getPaths` rejected its options (lib/connections.js:78-79): the source then reads `.length` of `undefined` and throws. The model answers `Aborted` with the rejection instead.
- Adjacency.GetDestinations: the source hands the caller the store's own array (lib/connections.js:88-91), so a caller that changes it changes the graph and every later search. The model returns a value, and such aliasing is not modelled.
- The global singleton `connections.map`: the store is passed explicitly. Using the library before any build (the map is then `undefined`) is not modelled.
- Mutation of the caller's values: `data.shift()` removes the header from the caller's array, and `getPaths`/`areConnected` write defaults into the caller's `opt`. These writes are not modelled; only the values they produce for the build and the search are.
- Options.ForceConnectivity: properties written onto an array `opt` are not modelled, so an array comes back unchanged. Such options have no string `source` and are rejected either way.
- Non-integer numbers (`NaN`, `Infinity`, fractions) for `max` and `depth.recursion`: numbers are integers, so cases such as `max = 1.5` never matching a result count are not covered.
- Node identifiers that collide with `Object.prototype` properties (such as `__proto__`): the model treats every string as an ordinary key.
- `String` objects and functions as option values: lodash's `_.isString` and `_.isObject` accept them, and the model has no such values.
- Search.Search: the bound of at most `max` results is stated for stores without duplicate neighbours, which is every store `BuildMap` produces. With duplicates, one expansion could add two results and step past `max`.
- Search.AreConnected: when a lookup fails (possible only in a store that is not closed, that is where a neighbour has no list of its own) the answer carries that error, and "exactly when a route exists" is not promised for it, because the lookup can fail before a route is reached.
