/**
 * `getPaths` and `areConnected`: a breadth-first expansion of partial paths
 * taken from a FIFO queue seeded with `[source]`.  The source drives the queue
 * with `async.queue`, but every neighbour lookup answers synchronously, so each
 * task is expanded atomically and in queue order; the search is therefore a
 * sequential loop over a sequence of tasks that delivers its answer once.
 */
module Search {
  import opened Wrappers
  import opened JsValues
  import opened Text
  import opened Adjacency
  import opened Options
  import opened Paths
  import opened Worker
  import opened Builder

  /** One entry of the `paths` array handed to the callback. */
  datatype PathValue = PathArray(nodes: seq<string>) | PathString(text: string)

  /** The callback of `getPaths`: an early rejection carries no `paths` at all. */
  datatype PathsReply =
    | Rejected(reason: JsError)
    | Delivered(error: Option<JsError>, paths: seq<PathValue>)

  /**
   * The callback of `areConnected`.  `Aborted` stands for the case where
   * `getPaths` rejected its options and the source then reads `.length` of
   * `undefined`; it carries the rejection.
   */
  datatype ConnectedReply =
    | Aborted(reason: JsError)
    | Answered(error: Option<JsError>, connected: bool)

  /** Reads a delivered path back: the nodes of an array, the comma-separated fields of a string. */
  function Unrender(v: PathValue): seq<string> {
    match v
    case PathArray(nodes) => nodes
    case PathString(text) => Split(text)
  }

  /**
   * `opt.format === 'array' ? path : path.toString()`.  The rendering can be
   * read back, in the 'string' format only when no identifier holds a comma.
   */
  function Render(f: Format, p: seq<string>): (v: PathValue)
    ensures v.PathArray? <==> f == ArrayFormat
    ensures f == StringFormat ==> v == PathString(Join(p))
    ensures f == ArrayFormat || CommaFree(p) ==> Unrender(v) == p
  {
    if f == ArrayFormat then PathArray(p)
    else if CommaFree(p) then SplitJoin(p); PathString(Join(p))
    else PathString(Join(p))
  }

  /**
   * The body of the `_.each` over the neighbours of a task, in neighbour order:
   * a neighbour that passes the filters and equals the destination yields a
   * result, every other one that passes yields a new task.
   */
  method ExpandTask(c: Config, path: seq<string>, nbrs: seq<string>)
    returns (hits: seq<seq<string>>, pending: seq<seq<string>>)
    ensures hits == HitsOf(c, path, nbrs) && pending == Successors(c, path, nbrs)
    ensures forall h :: h in hits ==> h == path + [c.destination]
    ensures hits != [] <==> c.destination in nbrs && Admissible(c, path, c.destination)
    ensures Distinct(nbrs) ==> |hits| <= 1
    ensures forall j :: 0 <= j < |pending| ==> Successor(c, path, nbrs, pending[j])
    ensures forall d :: d in nbrs && d != c.destination && Admissible(c, path, d) ==> path + [d] in pending
    ensures |hits| + |pending| <= |nbrs|
  {
    hits, pending := [], [];
    var i := 0;
    while i < |nbrs|
      invariant 0 <= i <= |nbrs|
      invariant hits == HitsOf(c, path, nbrs[..i])
      invariant pending == Successors(c, path, nbrs[..i])
    {
      var d := nbrs[i];
      assert nbrs[..i + 1][..i] == nbrs[..i];
      if Admissible(c, path, d) {
        if d == c.destination {
          hits := hits + [path + [d]];
        } else {
          pending := pending + [path + [d]];
        }
      }
      i := i + 1;
    }
    assert nbrs[..|nbrs|] == nbrs;
    ExpansionOf(c, path, nbrs);
  }

  /**
   * The queue worker of `getPaths`, run to completion.  The results are
   * well-formed paths from the source to the destination that respect the
   * filters, are listed shortest first, and number at most `max`; unless the
   * search hit `max` or a failed lookup, every such path the stop rule lets
   * through is among them.  A failed lookup ends the search with the results
   * found so far.
   */
  method Search(g: Graph, c: Config) returns (error: Option<JsError>, found: seq<seq<string>>)
    ensures SoundResults(g, c, found)
    ensures c.max >= 0 && DistinctLists(g) ==> |found| <= c.max
    ensures error == None && (c.max < 0 || |found| < c.max) ==> AllFound(g, c, found)
    ensures c.max == 0 || c.recursion <= 1 ==> error == None && found == []
    ensures error.Some? ==> error == Some(TypeError("source destinations were not an array"))
    ensures Closed(g) && c.source in g ==> error == None
    ensures c.source !in g && c.max != 0 && c.recursion >= 2 ==> error.Some? && found == []
    ensures DirectEdge(g, c) ==> [c.source, c.destination] in found
    ensures DistinctLists(g) ==> NoDuplicates(found)
    ensures ByLayers(g, c, found)
    ensures Halts(g, c, Outcome(error, found))
    ensures Outcome(error, found) == Whole(g, c)
  {
    SeedState(g, c);
    var queue: seq<seq<string>> := [[c.source]];
    found, error := [], None;
    while queue != []
      invariant WellQueued(queue) && error == None
      invariant Run(g, c, queue, found) == Whole(g, c)
      decreases HeadBudget(c, queue), HeadCount(queue)
    {
      var path := queue[0];
      if ShouldStop(c, |found|, |path|) {
        break;
      }
      var lookup := GetDestinations(g, Str(path[|path| - 1]));
      if lookup.Failure? {
        error := Some(lookup.error);
        break;
      }
      var hits, pending := ExpandTask(c, path, lookup.value);
      RunStep(g, c, queue, found, lookup.value);
      QueueStep(c, queue, lookup.value);
      found := found + hits;
      queue := queue[1..] + pending;
    }
    assert Outcome(error, found) == Whole(g, c);
    WholeFirstStep(g, c);
    WholeSound(g, c);
    WholeComplete(g, c);
    WholeHalts(g, c);
  }

  /**
   * The delivered paths are the result paths `found`, in order, each rendered
   * in the requested format; and unless the search hit `max` or a failed lookup,
   * every result path the stop rule lets through is among them.
   */
  ghost predicate RenderedResults(g: Graph, c: Config, error: Option<JsError>, found: seq<seq<string>>,
                                  paths: seq<PathValue>) {
    && SoundResults(g, c, found)
    && (error == None && (c.max < 0 || |found| < c.max) ==> AllFound(g, c, found))
    && (DistinctLists(g) ==> NoDuplicates(found))
    && ByLayers(g, c, found)
    && Halts(g, c, Outcome(error, found))
    && |paths| == |found|
    && (forall k :: 0 <= k < |paths| ==> paths[k] == Render(c.format, found[k]))
  }

  /**
   * `getPaths(opt, cb)`: rejects ill-formed options without any paths,
   * otherwise runs the search and renders each result in the requested format.
   */
  method GetPaths(g: Graph, opt: JsValue) returns (reply: PathsReply)
    ensures reply.Rejected? <==> ResolveOptions(opt).Failure?
    ensures reply.Rejected? ==> reply.reason == ResolveOptions(opt).error
    ensures reply.Delivered? ==> var c := ResolveOptions(opt).value;
      && (exists found :: RenderedResults(g, c, reply.error, found, reply.paths))
      && (c.max >= 0 && DistinctLists(g) ==> |reply.paths| <= c.max)
      && (c.max == 0 || c.recursion <= 1 ==> reply == Delivered(None, []))
      && (reply.error.Some? ==> reply.error == Some(TypeError("source destinations were not an array")))
      && (Closed(g) && c.source in g ==> reply.error == None)
      && (c.source !in g && c.max != 0 && c.recursion >= 2 ==> reply.error.Some? && reply.paths == [])
      && (DirectEdge(g, c) ==> Render(c.format, [c.source, c.destination]) in reply.paths)
  {
    var resolved := ResolveOptions(opt);
    if resolved.Failure? {
      return Rejected(resolved.error);
    }
    var c := resolved.value;
    var error, found := Search(g, c);
    var paths := RenderAll(c.format, found);
    reply := Delivered(error, paths);
    assert RenderedResults(g, c, error, found, paths);
    if DirectEdge(g, c) {
      RenderedMember(c.format, found, [c.source, c.destination]);
    }
  }

  /** Renders every result, in order. */
  function RenderAll(f: Format, found: seq<seq<string>>): (paths: seq<PathValue>)
    ensures |paths| == |found|
    ensures forall k :: 0 <= k < |paths| ==> paths[k] == Render(f, found[k])
  {
    seq(|found|, k requires 0 <= k < |found| => Render(f, found[k]))
  }

  /** A result path shows up, rendered, among the delivered paths. */
  lemma RenderedMember(f: Format, found: seq<seq<string>>, p: seq<string>)
    requires p in found
    ensures Render(f, p) in RenderAll(f, found)
  {
    var k :| 0 <= k < |found| && found[k] == p;
    assert RenderAll(f, found)[k] == Render(f, p);
  }

  /**
   * A store built from array data meets every hypothesis the search results
   * need: a known source never makes a lookup fail, there are at most `max`
   * results for `max >= 0`, and no result repeats.
   */
  lemma BuiltStoreSearch(previous: Graph, opt: JsValue, data: JsValue, c: Config)
    requires data.Arr?
    ensures var g := BuildMap(previous, opt, data).graph;
      && Closed(g) && DistinctLists(g)
      && (c.source in g ==> Whole(g, c).error == None)
      && (c.max >= 0 ==> |Whole(g, c).found| <= c.max)
      && NoDuplicates(Whole(g, c).found)
  {
    var g := BuildMap(previous, opt, data).graph;
    SymmetricIsClosed(g);
    WholeSound(g, c);
  }

  /** A simple walk from `s` to `t` that never steps straight back. */
  ghost predicate SimpleRoute(g: Graph, s: string, t: string, p: seq<string>) {
    && |p| >= 2 && p[0] == s && p[|p| - 1] == t
    && IsWalk(g, p) && NoRepeats(p) && NoBacktrack(p)
  }

  /**
   * With both filters on and no result found by a search that neither failed
   * nor hit `max`, no simple route of at most `recursion` nodes exists.
   */
  lemma NoRouteMissed(g: Graph, c: Config, found: seq<seq<string>>)
    requires !c.revisit && !c.reverse && found == []
    requires AllFound(g, c, found)
    ensures forall p :: SimpleRoute(g, c.source, c.destination, p) ==> |p| > c.recursion
  {
    forall p | SimpleRoute(g, c.source, c.destination, p)
      ensures |p| > c.recursion
    {
      if |p| <= c.recursion {
        RouteIsFound(g, c, p);
      }
    }
  }

  /** A route starts with an edge, so its source has a neighbour list. */
  lemma RouteSourceKnown(g: Graph, s: string, t: string)
    ensures (exists p :: SimpleRoute(g, s, t, p)) ==> s in g
  {
    if exists p :: SimpleRoute(g, s, t, p) {
      var p :| SimpleRoute(g, s, t, p);
      assert Adjacent(g, p[0], p[1]);
    }
  }

  /**
   * `areConnected(opt, cb)`: `getPaths` with `max` forced to 1 and both filters
   * forced on, answering whether a path was found.
   */
  method AreConnected(g: Graph, opt: JsValue) returns (reply: ConnectedReply)
    ensures reply.Aborted? <==> ResolveOptions(opt).Failure?
    ensures reply.Aborted? ==> reply.reason == ResolveOptions(ForceConnectivity(opt)).error
    ensures reply.Answered? ==> var c := ResolveOptions(opt).value;
      && (reply.connected ==> exists p :: SimpleRoute(g, c.source, c.destination, p) && |p| <= c.recursion)
      && (reply.error == None ==>
            (reply.connected <==> exists p :: SimpleRoute(g, c.source, c.destination, p) && |p| <= c.recursion))
      && (Closed(g) ==> (reply.connected <==> exists p :: SimpleRoute(g, c.source, c.destination, p) && |p| <= c.recursion))
      && (Adjacent(g, c.source, c.destination) && c.source != c.destination && c.recursion >= 2 ==> reply.connected)
      && (c.recursion <= 1 ==> reply == Answered(None, false))
      && (Closed(g) && c.source in g ==> reply.error == None)
  {
    ForceConnectivityResolves(opt);
    var inner := GetPaths(g, ForceConnectivity(opt));
    match inner
    case Rejected(e) =>
      reply := Aborted(e);
    case Delivered(error, paths) =>
      reply := Answered(error, |paths| > 0);
      ghost var c := ResolveOptions(ForceConnectivity(opt)).value;
      ghost var found :| RenderedResults(g, c, error, found, paths);
      if |paths| > 0 {
        ghost var p := found[0];
        assert p in found;
        assert SimpleRoute(g, c.source, c.destination, p);
      } else if error == None {
        NoRouteMissed(g, c, found);
      } else if Closed(g) {
        RouteSourceKnown(g, c.source, c.destination);
      }
  }
}
