/**
 * The queue worker of `getPaths` as a function of the task queue and the
 * results so far.  Each step takes the head task, applies the stop rule, looks
 * up the neighbours of the task's last node and expands the task: results are
 * appended to the results, new tasks to the back of the queue.  The lemmas
 * state what a whole run delivers.
 */
module Worker {
  import opened Wrappers
  import opened JsValues
  import opened Adjacency
  import opened Options
  import opened Paths

  /** The results one expansion adds, in neighbour order: the task plus each admissible neighbour equal to the destination. */
  function HitsOf(c: Config, path: seq<string>, nbrs: seq<string>): seq<seq<string>>
    decreases |nbrs|
  {
    if nbrs == [] then []
    else
      var d := nbrs[|nbrs| - 1];
      HitsOf(c, path, nbrs[..|nbrs| - 1])
        + (if Admissible(c, path, d) && d == c.destination then [path + [d]] else [])
  }

  /** The new tasks of one expansion, in neighbour order: the task plus each admissible neighbour other than the destination. */
  function Successors(c: Config, path: seq<string>, nbrs: seq<string>): seq<seq<string>>
    decreases |nbrs|
  {
    if nbrs == [] then []
    else
      var d := nbrs[|nbrs| - 1];
      Successors(c, path, nbrs[..|nbrs| - 1])
        + (if Admissible(c, path, d) && d != c.destination then [path + [d]] else [])
  }

  /** A successor of `path`: one more node, a neighbour that passes the filters and is not the destination. */
  ghost predicate Successor(c: Config, path: seq<string>, nbrs: seq<string>, q: seq<string>) {
    && |q| == |path| + 1
    && q[..|path|] == path
    && q[|path|] in nbrs
    && q[|path|] != c.destination
    && Admissible(c, path, q[|path|])
  }

  /** What an expansion of task `path` with neighbours `nbrs` yields, as results `hits` and new tasks `pending`. */
  ghost predicate Expansion(c: Config, path: seq<string>, nbrs: seq<string>,
                            hits: seq<seq<string>>, pending: seq<seq<string>>) {
    && (forall h :: h in hits ==> h == path + [c.destination])
    && (hits != [] <==> c.destination in nbrs && Admissible(c, path, c.destination))
    && (Distinct(nbrs) ==> |hits| <= 1)
    && (forall j :: 0 <= j < |pending| ==> Successor(c, path, nbrs, pending[j]))
    && (forall d :: d in nbrs && d != c.destination && Admissible(c, path, d) ==> path + [d] in pending)
  }

  /**
   * The results of an expansion are the task plus the destination, present
   * exactly when the destination is an admissible neighbour and at most once
   * when the neighbours are distinct; the new tasks are exactly the admissible
   * non-destination neighbours appended to the task.
   */
  lemma {:induction false} ExpansionOf(c: Config, path: seq<string>, nbrs: seq<string>)
    ensures Expansion(c, path, nbrs, HitsOf(c, path, nbrs), Successors(c, path, nbrs))
    ensures |HitsOf(c, path, nbrs)| + |Successors(c, path, nbrs)| <= |nbrs|
    decreases |nbrs|
  {
    if nbrs != [] {
      var init, d := nbrs[..|nbrs| - 1], nbrs[|nbrs| - 1];
      ExpansionOf(c, path, init);
      assert nbrs == init + [d];
      assert forall x :: x in nbrs <==> x in init || x == d;
      if Distinct(nbrs) {
        assert Distinct(init) by {
          forall i, j | 0 <= i < j < |init|
            ensures init[i] != init[j]
          {
            assert init[i] == nbrs[i] && init[j] == nbrs[j];
          }
        }
        if d == c.destination {
          assert d !in init by {
            forall i | 0 <= i < |init|
              ensures init[i] != d
            {
              assert init[i] == nbrs[i];
            }
          }
        }
      }
      var q := path + [d];
      assert q[..|path|] == path && q[|path|] == d;
    }
  }

  /**
   * The stop rule, checked on every dequeued task before it is expanded.  A
   * task it lets through has fewer than `max` results behind it and grows into
   * paths of at most `recursion + 1` nodes, and of at most `recursion` nodes
   * while nothing has been found.
   */
  function ShouldStop(c: Config, resultCount: nat, pathLength: nat): (stop: bool)
    ensures resultCount == c.max ==> stop
    ensures !stop ==> pathLength + 1 <= c.recursion + 1
    ensures !stop && resultCount == 0 ==> pathLength + 1 <= c.recursion
  {
    || resultCount == c.max
    || pathLength > c.recursion
    || (pathLength == c.recursion && resultCount == 0)
  }

  /** The source is a neighbour of the destination and the first expansion is allowed to find it. */
  ghost predicate DirectEdge(g: Graph, c: Config) {
    && Adjacent(g, c.source, c.destination)
    && (c.destination != c.source || c.revisit)
    && c.max != 0
    && c.recursion >= 2
  }

  /** The tasks are non-empty and breadth-first. */
  ghost predicate WellQueued(queue: seq<seq<string>>) {
    Layered(queue) && (queue != [] ==> |queue[0]| >= 1)
  }

  function Budget(c: Config, length: nat): nat {
    if c.recursion + 2 - length > 0 then c.recursion + 2 - length else 0
  }

  /** The termination measure: remaining length budget of the head, then the tasks of the head's length. */
  function HeadBudget(c: Config, queue: seq<seq<string>>): nat {
    if queue == [] then 0 else Budget(c, |queue[0]|)
  }

  function HeadCount(queue: seq<seq<string>>): nat {
    if queue == [] then 0 else CountLength(queue, |queue[0]|)
  }

  /**
   * Replacing the head task (of length at most `recursion`) by tasks one node
   * longer lowers the measure: either tasks of the head's length remain, one
   * fewer of them, or the new head is one node longer.
   */
  lemma MeasureStep(c: Config, before: seq<seq<string>>, pending: seq<seq<string>>)
    requires before != [] && Layered(before) && |before[0]| <= c.recursion
    requires forall j :: 0 <= j < |pending| ==> |pending[j]| == |before[0]| + 1
    ensures var after := before[1..] + pending;
      || HeadBudget(c, after) < HeadBudget(c, before)
      || (HeadBudget(c, after) == HeadBudget(c, before) && HeadCount(after) < HeadCount(before))
  {
    var n := |before[0]|;
    var after := before[1..] + pending;
    LayeredStep(before, pending, n);
    CountLengthAppend(before[1..], pending, n);
    CountLengthNone(pending, n);
    assert CountLength(before, n) == 1 + CountLength(before[1..], n);
    if after != [] && |after[0]| == n {
      assert HeadCount(after) == CountLength(before[1..], n);
    }
  }

  /** One step of the worker keeps the queue well formed and lowers the measure. */
  lemma QueueStep(c: Config, queue: seq<seq<string>>, nbrs: seq<string>)
    requires WellQueued(queue) && queue != [] && |queue[0]| <= c.recursion
    ensures var after := queue[1..] + Successors(c, queue[0], nbrs);
      && WellQueued(after)
      && (forall j :: 0 <= j < |after| ==> |queue[0]| <= |after[j]|)
      && (|| HeadBudget(c, after) < HeadBudget(c, queue)
          || (HeadBudget(c, after) == HeadBudget(c, queue) && HeadCount(after) < HeadCount(queue)))
  {
    var pending := Successors(c, queue[0], nbrs);
    ExpansionOf(c, queue[0], nbrs);
    assert forall j :: 0 <= j < |pending| ==> |pending[j]| == |queue[0]| + 1;
    LayeredStep(queue, pending, |queue[0]|);
    MeasureStep(c, queue, pending);
  }

  /** What the worker hands to the callback: the lookup error, if any, and the results. */
  datatype Outcome = Outcome(error: Option<JsError>, found: seq<seq<string>>)

  /**
   * The queue worker run until the queue drains, the stop rule fires on the
   * head task or a neighbour lookup fails.
   */
  ghost function Run(g: Graph, c: Config, queue: seq<seq<string>>, found: seq<seq<string>>): Outcome
    requires WellQueued(queue)
    decreases HeadBudget(c, queue), HeadCount(queue)
  {
    if queue == [] then Outcome(None, found)
    else if ShouldStop(c, |found|, |queue[0]|) then Outcome(None, found)
    else
      var path := queue[0];
      var lookup := GetDestinations(g, Str(path[|path| - 1]));
      if lookup.Failure? then Outcome(Some(lookup.error), found)
      else
        QueueStep(c, queue, lookup.value);
        Run(g, c, queue[1..] + Successors(c, path, lookup.value), found + HitsOf(c, path, lookup.value))
  }

  /** The search started from the seed task `[source]` with no results. */
  ghost function Whole(g: Graph, c: Config): Outcome {
    Run(g, c, [[c.source]], [])
  }

  /** One step of the worker: the head task passed the stop rule and its lookup succeeded. */
  lemma RunStep(g: Graph, c: Config, queue: seq<seq<string>>, found: seq<seq<string>>, nbrs: seq<string>)
    requires WellQueued(queue) && queue != [] && !ShouldStop(c, |found|, |queue[0]|)
    requires GetDestinations(g, Str(queue[0][|queue[0]| - 1])) == Success(nbrs)
    ensures WellQueued(queue[1..] + Successors(c, queue[0], nbrs))
    ensures Run(g, c, queue, found)
         == Run(g, c, queue[1..] + Successors(c, queue[0], nbrs), found + HitsOf(c, queue[0], nbrs))
  {
    QueueStep(c, queue, nbrs);
  }

  /** A run that cannot take a step hands over the results it starts with. */
  lemma RunHalted(g: Graph, c: Config, queue: seq<seq<string>>, found: seq<seq<string>>)
    requires WellQueued(queue)
    ensures !CanAdvance(g, c, State(queue, found)) ==>
      Run(g, c, queue, found).found == found && (Run(g, c, queue, found).error.Some? <==> Failing(g, c, State(queue, found)))
  {
  }

  /** A run that can take a step continues from the expanded state, and the measure drops. */
  lemma RunAdvances(g: Graph, c: Config, queue: seq<seq<string>>, found: seq<seq<string>>, nbrs: seq<string>)
    requires WellQueued(queue) && CanAdvance(g, c, State(queue, found))
    requires nbrs == GetDestinations(g, Str(queue[0][|queue[0]| - 1])).value
    ensures GetDestinations(g, Str(queue[0][|queue[0]| - 1])) == Success(nbrs)
    ensures var after := queue[1..] + Successors(c, queue[0], nbrs);
      && WellQueued(after)
      && Run(g, c, queue, found) == Run(g, c, after, found + HitsOf(c, queue[0], nbrs))
      && (|| HeadBudget(c, after) < HeadBudget(c, queue)
          || (HeadBudget(c, after) == HeadBudget(c, queue) && HeadCount(after) < HeadCount(queue)))
  {
    RunStep(g, c, queue, found, nbrs);
    QueueStep(c, queue, nbrs);
  }

  /** A run only appends to the results it starts with. */
  lemma {:induction false} RunGrows(g: Graph, c: Config, queue: seq<seq<string>>, found: seq<seq<string>>)
    requires WellQueued(queue)
    ensures |found| <= |Run(g, c, queue, found).found|
    ensures Run(g, c, queue, found).found[..|found|] == found
    decreases HeadBudget(c, queue), HeadCount(queue)
  {
    if queue != [] && !ShouldStop(c, |found|, |queue[0]|) {
      var lookup := GetDestinations(g, Str(queue[0][|queue[0]| - 1]));
      if lookup.Success? {
        var more := found + HitsOf(c, queue[0], lookup.value);
        var after := queue[1..] + Successors(c, queue[0], lookup.value);
        RunStep(g, c, queue, found, lookup.value);
        QueueStep(c, queue, lookup.value);
        RunGrows(g, c, after, more);
        PrefixOfPrefix(found, more, Run(g, c, after, more).found);
      }
    }
  }

  /** A prefix of a prefix is a prefix. */
  lemma PrefixOfPrefix(a: seq<seq<string>>, b: seq<seq<string>>, r: seq<seq<string>>)
    requires |b| <= |r| && r[..|b|] == b
    requires |a| <= |b| && b[..|a|] == a
    ensures r[..|a|] == a
  {
    assert r[..|a|] == r[..|b|][..|a|];
  }

  // ---------------------------------------------------------------------------
  // Soundness: every result is a well-formed path

  /** Tasks and results keep their shapes, results come shortest first, and none is more than one node longer than a task. */
  ghost predicate SoundState(g: Graph, c: Config, queue: seq<seq<string>>, found: seq<seq<string>>) {
    && (forall j :: 0 <= j < |queue| ==> Pending(g, c, queue[j]))
    && (forall i, j :: 0 <= i < |found| && 0 <= j < |queue| ==> |found[i]| <= |queue[j]| + 1)
    && SoundResults(g, c, found)
  }

  /** The results are result paths, listed shortest first, and the first has at most `recursion` nodes. */
  ghost predicate SoundResults(g: Graph, c: Config, found: seq<seq<string>>) {
    && (forall p :: p in found ==> Found(g, c, p))
    && ByLength(found)
    && (found != [] ==> |found[0]| <= c.recursion)
  }

  /** The results and tasks of one expansion are well formed and one node longer than the task. */
  lemma NewTasks(g: Graph, c: Config, path: seq<string>, hits: seq<seq<string>>, pending: seq<seq<string>>)
    requires Pending(g, c, path) && |path| <= c.recursion && path[|path| - 1] in g
    requires Expansion(c, path, g[path[|path| - 1]], hits, pending)
    ensures forall h :: h in hits ==> Found(g, c, h) && |h| == |path| + 1
    ensures forall j :: 0 <= j < |pending| ==> Pending(g, c, pending[j]) && |pending[j]| == |path| + 1
  {
    forall h | h in hits
      ensures Found(g, c, h) && |h| == |path| + 1
    {
      ExtendTask(g, c, path, c.destination);
    }
    forall j | 0 <= j < |pending|
      ensures Pending(g, c, pending[j]) && |pending[j]| == |path| + 1
    {
      var d := pending[j][|path|];
      assert pending[j] == path + [d];
      ExtendTask(g, c, path, d);
    }
  }

  /** Dequeuing the head and appending well-formed tasks keeps every task well formed. */
  lemma PendingStep(g: Graph, c: Config, before: seq<seq<string>>, pending: seq<seq<string>>)
    requires before != []
    requires forall j :: 0 <= j < |before| ==> Pending(g, c, before[j])
    requires forall j :: 0 <= j < |pending| ==> Pending(g, c, pending[j])
    ensures forall j :: 0 <= j < |before[1..] + pending| ==> Pending(g, c, (before[1..] + pending)[j])
  {
    var after := before[1..] + pending;
    forall j | 0 <= j < |after|
      ensures Pending(g, c, after[j])
    {
      if j < |before| - 1 {
        assert after[j] == before[j + 1];
      } else {
        assert after[j] == pending[j - (|before| - 1)];
      }
    }
  }

  /** Appending the results of expanding a task of `n` nodes keeps the result part of the state. */
  lemma ResultStep(g: Graph, c: Config, n: nat, found: seq<seq<string>>, hits: seq<seq<string>>,
                   after: seq<seq<string>>)
    requires SoundResults(g, c, found)
    requires forall i :: 0 <= i < |found| ==> |found[i]| <= n + 1
    requires found == [] ==> n < c.recursion
    requires forall h :: h in hits ==> Found(g, c, h) && |h| == n + 1
    requires forall j :: 0 <= j < |after| ==> n <= |after[j]|
    ensures SoundResults(g, c, found + hits)
    ensures forall i, j :: 0 <= i < |found + hits| && 0 <= j < |after| ==> |(found + hits)[i]| <= |after[j]| + 1
  {
    var found' := found + hits;
    forall i | 0 <= i < |found'|
      ensures |found'[i]| <= n + 1
    {
      if i >= |found| {
        assert found'[i] in hits;
      }
    }
    forall i, j | 0 <= i < j < |found'|
      ensures |found'[i]| <= |found'[j]|
    {
      if j >= |found| {
        assert found'[j] in hits;
      }
    }
    if found == [] && hits != [] {
      assert found'[0] in hits;
    }
  }

  /** Every result of a run is a result path; results come shortest first and the first has at most `recursion` nodes. */
  lemma {:induction false} RunSound(g: Graph, c: Config, queue: seq<seq<string>>, found: seq<seq<string>>)
    requires WellQueued(queue) && SoundState(g, c, queue, found)
    ensures SoundResults(g, c, Run(g, c, queue, found).found)
    decreases HeadBudget(c, queue), HeadCount(queue)
  {
    if queue != [] && !ShouldStop(c, |found|, |queue[0]|) {
      var path := queue[0];
      var lookup := GetDestinations(g, Str(path[|path| - 1]));
      if lookup.Success? {
        var nbrs := lookup.value;
        var hits, pending := HitsOf(c, path, nbrs), Successors(c, path, nbrs);
        var after := queue[1..] + pending;
        ExpansionOf(c, path, nbrs);
        RunStep(g, c, queue, found, nbrs);
        QueueStep(c, queue, nbrs);
        NewTasks(g, c, path, hits, pending);
        PendingStep(g, c, queue, pending);
        assert forall i :: 0 <= i < |found| ==> |found[i]| <= |path| + 1;
        ResultStep(g, c, |path|, found, hits, after);
        RunSound(g, c, after, found + hits);
      }
    }
  }

  // ---------------------------------------------------------------------------
  // The bound on the number of results

  /** With distinct neighbours each expansion adds at most one result, so a run never passes `max`. */
  lemma {:induction false} RunBound(g: Graph, c: Config, queue: seq<seq<string>>, found: seq<seq<string>>)
    requires WellQueued(queue) && DistinctLists(g) && |found| <= c.max
    ensures |Run(g, c, queue, found).found| <= c.max
    decreases HeadBudget(c, queue), HeadCount(queue)
  {
    if queue != [] && !ShouldStop(c, |found|, |queue[0]|) {
      var path := queue[0];
      var lookup := GetDestinations(g, Str(path[|path| - 1]));
      if lookup.Success? {
        var nbrs := lookup.value;
        ExpansionOf(c, path, nbrs);
        RunStep(g, c, queue, found, nbrs);
        QueueStep(c, queue, nbrs);
        RunBound(g, c, queue[1..] + Successors(c, path, nbrs), found + HitsOf(c, path, nbrs));
      }
    }
  }

  // ---------------------------------------------------------------------------
  // Errors

  /** The only error a run reports is the failed neighbour lookup. */
  lemma {:induction false} RunErrorKind(g: Graph, c: Config, queue: seq<seq<string>>, found: seq<seq<string>>)
    requires WellQueued(queue)
    ensures Run(g, c, queue, found).error.Some? ==>
      Run(g, c, queue, found).error == Some(TypeError("source destinations were not an array"))
    decreases HeadBudget(c, queue), HeadCount(queue)
  {
    if queue != [] && !ShouldStop(c, |found|, |queue[0]|) {
      var path := queue[0];
      var lookup := GetDestinations(g, Str(path[|path| - 1]));
      if lookup.Success? {
        RunStep(g, c, queue, found, lookup.value);
        QueueStep(c, queue, lookup.value);
        RunErrorKind(g, c, queue[1..] + Successors(c, path, lookup.value), found + HitsOf(c, path, lookup.value));
      }
    }
  }

  /** The last node of `p` has a neighbour list. */
  ghost predicate LastIn(g: Graph, p: seq<string>) {
    |p| >= 1 && p[|p| - 1] in g
  }

  /** In a closed store, the new tasks of an expansion end in known nodes too. */
  lemma LastInStep(g: Graph, c: Config, queue: seq<seq<string>>, nbrs: seq<string>)
    requires queue != [] && Closed(g) && LastIn(g, queue[0]) && nbrs == g[queue[0][|queue[0]| - 1]]
    requires forall j :: 0 <= j < |queue| ==> LastIn(g, queue[j])
    ensures var after := queue[1..] + Successors(c, queue[0], nbrs);
      forall j :: 0 <= j < |after| ==> LastIn(g, after[j])
  {
    var path := queue[0];
    var pending := Successors(c, path, nbrs);
    var after := queue[1..] + pending;
    ExpansionOf(c, path, nbrs);
    forall j | 0 <= j < |after|
      ensures LastIn(g, after[j])
    {
      if j < |queue| - 1 {
        assert after[j] == queue[j + 1];
      } else {
        var q := pending[j - (|queue| - 1)];
        assert after[j] == q && Successor(c, path, nbrs, q);
        assert Adjacent(g, path[|path| - 1], q[|path|]);
      }
    }
  }

  /** In a closed store whose queued tasks all end in known nodes, no lookup fails. */
  lemma {:induction false} RunNoError(g: Graph, c: Config, queue: seq<seq<string>>, found: seq<seq<string>>)
    requires WellQueued(queue) && Closed(g)
    requires forall j :: 0 <= j < |queue| ==> LastIn(g, queue[j])
    ensures Run(g, c, queue, found).error == None
    decreases HeadBudget(c, queue), HeadCount(queue)
  {
    if queue != [] && !ShouldStop(c, |found|, |queue[0]|) {
      var path := queue[0];
      assert LastIn(g, path);
      var nbrs := g[path[|path| - 1]];
      var pending := Successors(c, path, nbrs);
      var after := queue[1..] + pending;
      RunStep(g, c, queue, found, nbrs);
      QueueStep(c, queue, nbrs);
      LastInStep(g, c, queue, nbrs);
      RunNoError(g, c, after, found + HitsOf(c, path, nbrs));
    }
  }

  // ---------------------------------------------------------------------------
  // Completeness: no result path the stop rule lets through is missed

  /** Some proper prefix of `p` is waiting in the queue. */
  ghost predicate Covered(queue: seq<seq<string>>, p: seq<string>) {
    exists k :: 1 <= k < |p| && p[..k] in queue
  }

  /** The breadth-first invariant: every result path is already found or grows from a queued task. */
  ghost predicate Complete(g: Graph, c: Config, queue: seq<seq<string>>, found: seq<seq<string>>) {
    forall p :: Found(g, c, p) ==> p in found || Covered(queue, p)
  }

  /**
   * Every result path the stop rule lets through is in `found`: all of them once
   * a result exists, and otherwise those of at most `recursion` nodes.
   */
  ghost predicate AllFound(g: Graph, c: Config, found: seq<seq<string>>) {
    forall p :: Found(g, c, p) && (found != [] || |p| <= c.recursion) ==> p in found
  }

  /** Every result path starts with the seed `[source]`. */
  lemma SeedComplete(g: Graph, c: Config)
    ensures Complete(g, c, [[c.source]], [])
  {
    forall p | Found(g, c, p)
      ensures Covered([[c.source]], p)
    {
      assert p[..1] == [c.source];
    }
  }

  /**
   * Expanding the head task keeps every result path reachable: a result path
   * growing from the head is either the head plus the destination, now found,
   * or has the head plus its next node as a new task.
   */
  lemma CompleteStep(g: Graph, c: Config, before: seq<seq<string>>, found: seq<seq<string>>,
                     hits: seq<seq<string>>, pending: seq<seq<string>>)
    requires before != [] && LastIn(g, before[0])
    requires Complete(g, c, before, found)
    requires Expansion(c, before[0], g[before[0][|before[0]| - 1]], hits, pending)
    ensures Complete(g, c, before[1..] + pending, found + hits)
  {
    var path := before[0];
    var after := before[1..] + pending;
    forall p | Found(g, c, p)
      ensures p in found + hits || Covered(after, p)
    {
      if p !in found {
        var k :| 1 <= k < |p| && p[..k] in before;
        var j :| 0 <= j < |before| && before[j] == p[..k];
        if j > 0 {
          assert after[j - 1] == p[..k];
        } else {
          PrefixStep(g, c, p, k);
          assert path[|path| - 1] == p[k - 1];
          if k == |p| - 1 {
            assert p[..k + 1] == p;
            assert hits != [] && hits[0] in hits;
          } else {
            assert path + [p[k]] in pending;
            var i :| 0 <= i < |pending| && pending[i] == path + [p[k]];
            assert after[|before| - 1 + i] == p[..k + 1];
          }
        }
      }
    }
  }

  /** Every task in a breadth-first queue is at least as long as the head. */
  lemma CoveredLonger(queue: seq<seq<string>>, p: seq<string>)
    requires queue != [] && Layered(queue)
    ensures Covered(queue, p) ==> |p| >= |queue[0]| + 1
  {
    if Covered(queue, p) {
      var k :| 1 <= k < |p| && p[..k] in queue;
      var j :| 0 <= j < |queue| && queue[j] == p[..k];
      if j > 0 {
        assert |queue[0]| <= |queue[j]|;
      }
    }
  }

  /**
   * When the stop rule fires on the head with fewer than `max` results, every
   * result path still to come is longer than the rule allows, so none is missed.
   */
  lemma StopComplete(g: Graph, c: Config, before: seq<seq<string>>, found: seq<seq<string>>)
    requires before != [] && Layered(before)
    requires Complete(g, c, before, found)
    requires ShouldStop(c, |found|, |before[0]|)
    ensures c.max < 0 || |found| < c.max ==> AllFound(g, c, found)
  {
    if c.max < 0 || |found| < c.max {
      forall p | Found(g, c, p) && (found != [] || |p| <= c.recursion)
        ensures p in found
      {
        CoveredLonger(before, p);
      }
    }
  }

  /** Once the queue is empty, every result path has been found. */
  lemma DrainComplete(g: Graph, c: Config, found: seq<seq<string>>)
    requires Complete(g, c, [], found)
    ensures AllFound(g, c, found)
  {
    forall p | Found(g, c, p)
      ensures p in found
    {
      assert !Covered([], p);
    }
  }

  /** One expansion of the head keeps every result path found or growing from a queued task. */
  lemma CoveredStep(g: Graph, c: Config, queue: seq<seq<string>>, found: seq<seq<string>>, nbrs: seq<string>)
    requires WellQueued(queue) && queue != [] && GetDestinations(g, Str(queue[0][|queue[0]| - 1])) == Success(nbrs)
    requires Complete(g, c, queue, found)
    ensures Complete(g, c, queue[1..] + Successors(c, queue[0], nbrs), found + HitsOf(c, queue[0], nbrs))
  {
    assert LastIn(g, queue[0]);
    ExpansionOf(c, queue[0], nbrs);
    CompleteStep(g, c, queue, found, HitsOf(c, queue[0], nbrs), Successors(c, queue[0], nbrs));
  }

  /** A run that ends without an error and with fewer than `max` results has found every result path the stop rule allows. */
  lemma {:induction false} RunComplete(g: Graph, c: Config, queue: seq<seq<string>>, found: seq<seq<string>>)
    requires WellQueued(queue) && Complete(g, c, queue, found)
    ensures var r := Run(g, c, queue, found);
      r.error == None && (c.max < 0 || |r.found| < c.max) ==> AllFound(g, c, r.found)
    decreases HeadBudget(c, queue), HeadCount(queue)
  {
    RunHalted(g, c, queue, found);
    if CanAdvance(g, c, State(queue, found)) {
      var nbrs := GetDestinations(g, Str(queue[0][|queue[0]| - 1])).value;
      RunAdvances(g, c, queue, found, nbrs);
      CoveredStep(g, c, queue, found, nbrs);
      RunComplete(g, c, queue[1..] + Successors(c, queue[0], nbrs), found + HitsOf(c, queue[0], nbrs));
    } else if queue == [] {
      DrainComplete(g, c, found);
    } else if ShouldStop(c, |found|, |queue[0]|) {
      StopComplete(g, c, queue, found);
    }
  }

  // ---------------------------------------------------------------------------
  // Breadth-first order: once a result of some length is found, every shorter result path is too

  /** Every result path shorter than the last result is among the results. */
  ghost predicate ByLayers(g: Graph, c: Config, found: seq<seq<string>>) {
    found != [] ==> forall p :: Found(g, c, p) && |p| < |found[|found| - 1]| ==> p in found
  }

  /**
   * Results appended by expanding the head are one node longer than it, and no
   * result path that short still grows from a queued task, so it is found already.
   */
  lemma OrderStep(g: Graph, c: Config, before: seq<seq<string>>, found: seq<seq<string>>,
                  hits: seq<seq<string>>, pending: seq<seq<string>>)
    requires before != [] && Layered(before) && LastIn(g, before[0])
    requires Complete(g, c, before, found) && ByLayers(g, c, found)
    requires Expansion(c, before[0], g[before[0][|before[0]| - 1]], hits, pending)
    ensures ByLayers(g, c, found + hits)
  {
    if hits == [] {
      assert found + hits == found;
    } else {
      var all := found + hits;
      assert all[|all| - 1] in hits;
      forall p | Found(g, c, p) && |p| < |all[|all| - 1]|
        ensures p in all
      {
        CoveredLonger(before, p);
      }
    }
  }

  /** One expansion of the head keeps both the coverage invariant and the breadth-first order. */
  lemma OrderedStep(g: Graph, c: Config, queue: seq<seq<string>>, found: seq<seq<string>>, nbrs: seq<string>)
    requires WellQueued(queue) && queue != [] && GetDestinations(g, Str(queue[0][|queue[0]| - 1])) == Success(nbrs)
    requires OrderedState(g, c, queue, found)
    ensures OrderedState(g, c, queue[1..] + Successors(c, queue[0], nbrs), found + HitsOf(c, queue[0], nbrs))
  {
    var hits, pending := HitsOf(c, queue[0], nbrs), Successors(c, queue[0], nbrs);
    assert LastIn(g, queue[0]);
    ExpansionOf(c, queue[0], nbrs);
    CompleteStep(g, c, queue, found, hits, pending);
    OrderStep(g, c, queue, found, hits, pending);
  }

  ghost predicate OrderedState(g: Graph, c: Config, queue: seq<seq<string>>, found: seq<seq<string>>) {
    Complete(g, c, queue, found) && ByLayers(g, c, found)
  }

  /** A run from a covered state keeps the results in breadth-first order. */
  lemma {:induction false} RunOrdered(g: Graph, c: Config, queue: seq<seq<string>>, found: seq<seq<string>>)
    requires WellQueued(queue) && OrderedState(g, c, queue, found)
    ensures ByLayers(g, c, Run(g, c, queue, found).found)
    decreases HeadBudget(c, queue), HeadCount(queue)
  {
    RunHalted(g, c, queue, found);
    if CanAdvance(g, c, State(queue, found)) {
      var nbrs := GetDestinations(g, Str(queue[0][|queue[0]| - 1])).value;
      RunAdvances(g, c, queue, found, nbrs);
      OrderedStep(g, c, queue, found, nbrs);
      RunOrdered(g, c, queue[1..] + Successors(c, queue[0], nbrs), found + HitsOf(c, queue[0], nbrs));
    }
  }

  // ---------------------------------------------------------------------------
  // No result is delivered twice

  /** `a` is a prefix of `b` (possibly `b` itself). */
  ghost predicate IsPrefix(a: seq<string>, b: seq<string>) {
    |a| <= |b| && b[..|a|] == a
  }

  lemma PrefixTrans(a: seq<string>, b: seq<string>, d: seq<string>)
    ensures IsPrefix(a, b) && IsPrefix(b, d) ==> IsPrefix(a, d)
  {
    if IsPrefix(a, b) && IsPrefix(b, d) {
      assert d[..|a|] == d[..|b|][..|a|];
    }
  }

  lemma PrefixOfBoth(a: seq<string>, b: seq<string>, d: seq<string>)
    ensures IsPrefix(a, d) && IsPrefix(b, d) && |a| <= |b| ==> IsPrefix(a, b)
  {
    if IsPrefix(a, d) && IsPrefix(b, d) && |a| <= |b| {
      assert b[..|a|] == d[..|b|][..|a|];
    }
  }

  /** No element occurs twice. */
  ghost predicate NoDuplicates(s: seq<seq<string>>) {
    forall i, j :: 0 <= i < j < |s| ==> s[i] != s[j]
  }

  /** No queued task is a prefix of another. */
  ghost predicate Antichain(queue: seq<seq<string>>) {
    forall i, j :: 0 <= i < |queue| && 0 <= j < |queue| && i != j ==> !IsPrefix(queue[i], queue[j])
  }

  /** No queued task is a prefix of a result. */
  ghost predicate Apart(queue: seq<seq<string>>, found: seq<seq<string>>) {
    forall i, j :: 0 <= i < |queue| && 0 <= j < |found| ==> !IsPrefix(queue[i], found[j])
  }

  /**
   * Each task and each result has a single history: tasks do not extend one
   * another, results do not extend tasks still waiting, and no result repeats.
   */
  ghost predicate Separate(queue: seq<seq<string>>, found: seq<seq<string>>) {
    Antichain(queue) && Apart(queue, found) && NoDuplicates(found)
  }

  /** Distinct neighbours give distinct new tasks. */
  lemma {:induction false} SuccessorsDistinct(c: Config, path: seq<string>, nbrs: seq<string>)
    requires Distinct(nbrs)
    ensures NoDuplicates(Successors(c, path, nbrs))
    decreases |nbrs|
  {
    if nbrs != [] {
      var init, d := nbrs[..|nbrs| - 1], nbrs[|nbrs| - 1];
      assert Distinct(init) by {
        forall i, j | 0 <= i < j < |init|
          ensures init[i] != init[j]
        {
          assert init[i] == nbrs[i] && init[j] == nbrs[j];
        }
      }
      SuccessorsDistinct(c, path, init);
      ExpansionOf(c, path, init);
      var older := Successors(c, path, init);
      if Admissible(c, path, d) && d != c.destination {
        var all := older + [path + [d]];
        forall i | 0 <= i < |older|
          ensures older[i] != path + [d]
        {
          assert Successor(c, path, init, older[i]);
          var k :| 0 <= k < |init| && init[k] == older[i][|path|];
          assert nbrs[k] == init[k];
          assert (path + [d])[|path|] == d;
        }
        forall i, j | 0 <= i < j < |all|
          ensures all[i] != all[j]
        {
          if j < |older| {
            assert all[i] == older[i] && all[j] == older[j];
          } else {
            assert all[i] == older[i];
          }
        }
      }
    }
  }

  /** The new tasks of the head do not extend one another or any other queued task, nor are they extended by one. */
  lemma AntichainStep(queue: seq<seq<string>>, pending: seq<seq<string>>)
    requires queue != [] && Antichain(queue)
    requires forall j :: 0 <= j < |queue| ==> |queue[0]| <= |queue[j]|
    requires forall j :: 0 <= j < |pending| ==> |pending[j]| == |queue[0]| + 1 && IsPrefix(queue[0], pending[j])
    requires NoDuplicates(pending)
    ensures Antichain(queue[1..] + pending)
  {
    var after := queue[1..] + pending;
    var m := |queue| - 1;
    forall i, j | 0 <= i < |after| && 0 <= j < |after| && i != j
      ensures !IsPrefix(after[i], after[j])
    {
      if i < m && j < m {
        assert after[i] == queue[i + 1] && after[j] == queue[j + 1];
      } else if i >= m && j >= m {
        assert after[i] == pending[i - m] && after[j] == pending[j - m];
        assert after[j][..|after[j]|] == after[j];
        if i < j {
          assert pending[i - m] != pending[j - m];
        } else {
          assert pending[j - m] != pending[i - m];
        }
      } else if i < m {
        assert after[i] == queue[i + 1] && after[j] == pending[j - m];
        PrefixOfBoth(queue[0], queue[i + 1], pending[j - m]);
      } else {
        assert after[i] == pending[i - m] && after[j] == queue[j + 1];
        PrefixTrans(queue[0], pending[i - m], queue[j + 1]);
      }
    }
  }

  /** After one expansion no queued task is a prefix of a result. */
  lemma ApartStep(queue: seq<seq<string>>, found: seq<seq<string>>, hits: seq<seq<string>>,
                  pending: seq<seq<string>>, destination: string)
    requires queue != [] && Antichain(queue) && Apart(queue, found)
    requires forall j :: 0 <= j < |queue| ==> |queue[0]| <= |queue[j]|
    requires forall j :: 0 <= j < |pending| ==> IsPrefix(queue[0], pending[j]) && pending[j] != queue[0] + [destination]
    requires forall j :: 0 <= j < |pending| ==> |pending[j]| == |queue[0]| + 1
    requires forall h :: h in hits ==> h == queue[0] + [destination]
    ensures Apart(queue[1..] + pending, found + hits)
  {
    var after, all := queue[1..] + pending, found + hits;
    var m := |queue| - 1;
    var h0 := queue[0] + [destination];
    assert IsPrefix(queue[0], h0) by {
      assert h0[..|queue[0]|] == queue[0];
    }
    forall i, j | 0 <= i < |after| && 0 <= j < |all|
      ensures !IsPrefix(after[i], all[j])
    {
      if j >= |found| {
        assert all[j] in hits;
      }
      if i < m {
        assert after[i] == queue[i + 1];
        if j < |found| {
          assert all[j] == found[j];
        } else {
          PrefixOfBoth(queue[0], queue[i + 1], h0);
        }
      } else {
        var p := pending[i - m];
        assert after[i] == p;
        if j < |found| {
          assert all[j] == found[j];
          PrefixTrans(queue[0], p, found[j]);
        } else {
          assert all[j] == h0 && |p| == |h0| && p != h0;
          assert h0[..|h0|] == h0;
        }
      }
    }
  }

  /** The results of one expansion are new, and at most one. */
  lemma NoDuplicatesStep(queue: seq<seq<string>>, found: seq<seq<string>>, hits: seq<seq<string>>, destination: string)
    requires queue != [] && Apart(queue, found) && NoDuplicates(found)
    requires forall h :: h in hits ==> h == queue[0] + [destination]
    requires |hits| <= 1
    ensures NoDuplicates(found + hits)
  {
    var all := found + hits;
    var h0 := queue[0] + [destination];
    assert IsPrefix(queue[0], h0) by {
      assert h0[..|queue[0]|] == queue[0];
    }
    forall i, j | 0 <= i < j < |all|
      ensures all[i] != all[j]
    {
      if j < |found| {
        assert all[i] == found[i] && all[j] == found[j];
      } else {
        assert all[j] in hits && all[i] == found[i];
      }
    }
  }

  /** With distinct neighbours, one expansion keeps every task and result with a single history. */
  lemma SeparateStep(c: Config, queue: seq<seq<string>>, found: seq<seq<string>>, nbrs: seq<string>)
    requires WellQueued(queue) && queue != [] && Distinct(nbrs) && Separate(queue, found)
    ensures Separate(queue[1..] + Successors(c, queue[0], nbrs), found + HitsOf(c, queue[0], nbrs))
  {
    var path := queue[0];
    var hits, pending := HitsOf(c, path, nbrs), Successors(c, path, nbrs);
    ExpansionOf(c, path, nbrs);
    SuccessorsDistinct(c, path, nbrs);
    forall j | 0 <= j < |queue|
      ensures |path| <= |queue[j]|
    {
      if j > 0 {
        assert |queue[0]| <= |queue[j]|;
      }
    }
    forall j | 0 <= j < |pending|
      ensures |pending[j]| == |path| + 1 && IsPrefix(path, pending[j]) && pending[j] != path + [c.destination]
    {
      assert Successor(c, path, nbrs, pending[j]);
      assert (path + [c.destination])[|path|] == c.destination;
    }
    AntichainStep(queue, pending);
    ApartStep(queue, found, hits, pending, c.destination);
    NoDuplicatesStep(queue, found, hits, c.destination);
  }

  /** On a store without duplicate neighbours, a run never delivers the same result twice. */
  lemma {:induction false} RunDistinct(g: Graph, c: Config, queue: seq<seq<string>>, found: seq<seq<string>>)
    requires WellQueued(queue) && DistinctLists(g) && Separate(queue, found)
    ensures NoDuplicates(Run(g, c, queue, found).found)
    decreases HeadBudget(c, queue), HeadCount(queue)
  {
    if queue != [] && !ShouldStop(c, |found|, |queue[0]|) {
      var path := queue[0];
      var lookup := GetDestinations(g, Str(path[|path| - 1]));
      if lookup.Success? {
        var nbrs := lookup.value;
        RunStep(g, c, queue, found, nbrs);
        QueueStep(c, queue, nbrs);
        SeparateStep(c, queue, found, nbrs);
        RunDistinct(g, c, queue[1..] + Successors(c, path, nbrs), found + HitsOf(c, path, nbrs));
      }
    }
  }

  // ---------------------------------------------------------------------------
  // The worker as a sequence of steps: it halts at the first task it cannot expand

  /** The queue and the results between two steps of the worker. */
  datatype State = State(queue: seq<seq<string>>, found: seq<seq<string>>)

  /** The head task passes the stop rule and the lookup of its last node succeeds. */
  ghost predicate CanAdvance(g: Graph, c: Config, s: State)
    requires WellQueued(s.queue)
  {
    && s.queue != []
    && !ShouldStop(c, |s.found|, |s.queue[0]|)
    && GetDestinations(g, Str(s.queue[0][|s.queue[0]| - 1])).Success?
  }

  /** The head task passes the stop rule but the lookup of its last node fails. */
  ghost predicate Failing(g: Graph, c: Config, s: State)
    requires WellQueued(s.queue)
  {
    && s.queue != []
    && !ShouldStop(c, |s.found|, |s.queue[0]|)
    && GetDestinations(g, Str(s.queue[0][|s.queue[0]| - 1])).Failure?
  }

  /** One step: expand the head task when possible, otherwise stay put. */
  ghost function Advance(g: Graph, c: Config, s: State): (t: State)
    requires WellQueued(s.queue)
    ensures WellQueued(t.queue)
    ensures CanAdvance(g, c, s) ==> |t.found| >= |s.found| && t.found[..|s.found|] == s.found
    ensures !CanAdvance(g, c, s) ==> t == s
  {
    if CanAdvance(g, c, s) then
      var path := s.queue[0];
      var nbrs := GetDestinations(g, Str(path[|path| - 1])).value;
      QueueStep(c, s.queue, nbrs);
      assert (s.found + HitsOf(c, path, nbrs))[..|s.found|] == s.found;
      State(s.queue[1..] + Successors(c, path, nbrs), s.found + HitsOf(c, path, nbrs))
    else s
  }

  /** The state after `n` steps. */
  ghost function Iterate(g: Graph, c: Config, s: State, n: nat): (t: State)
    requires WellQueued(s.queue)
    ensures WellQueued(t.queue)
    decreases n
  {
    if n == 0 then s else Iterate(g, c, Advance(g, c, s), n - 1)
  }

  /** The outcome `r` is what the worker hands over once it reaches state `s`, where it cannot go on. */
  ghost predicate HaltsAt(g: Graph, c: Config, r: Outcome, s: State)
    requires WellQueued(s.queue)
  {
    && !CanAdvance(g, c, s)
    && r.found == s.found
    && (r.error.Some? <==> Failing(g, c, s))
  }

  /** The whole search, from the seed `[source]`, halts with outcome `r` after some number of steps. */
  ghost predicate Halts(g: Graph, c: Config, r: Outcome) {
    exists n: nat :: HaltsAt(g, c, r, Iterate(g, c, State([[c.source]], []), n))
  }

  /**
   * A run steps until the head task stops the search, the queue drains or a
   * lookup fails; it then hands over exactly the results of the tasks expanded
   * so far, and reports an error exactly when a lookup failed.
   */
  lemma {:induction false} RunIterates(g: Graph, c: Config, queue: seq<seq<string>>, found: seq<seq<string>>)
    requires WellQueued(queue)
    ensures exists n: nat :: HaltsAt(g, c, Run(g, c, queue, found), Iterate(g, c, State(queue, found), n))
    decreases HeadBudget(c, queue), HeadCount(queue)
  {
    var s := State(queue, found);
    if CanAdvance(g, c, s) {
      var path := queue[0];
      var nbrs := GetDestinations(g, Str(path[|path| - 1])).value;
      var after, more := queue[1..] + Successors(c, path, nbrs), found + HitsOf(c, path, nbrs);
      RunStep(g, c, queue, found, nbrs);
      QueueStep(c, queue, nbrs);
      RunIterates(g, c, after, more);
      var n: nat :| HaltsAt(g, c, Run(g, c, after, more), Iterate(g, c, State(after, more), n));
      assert Advance(g, c, s) == State(after, more);
      assert Iterate(g, c, s, n + 1) == Iterate(g, c, State(after, more), n);
      assert HaltsAt(g, c, Run(g, c, queue, found), Iterate(g, c, s, n + 1));
    } else {
      assert Iterate(g, c, s, 0) == s;
      assert HaltsAt(g, c, Run(g, c, queue, found), Iterate(g, c, s, 0));
    }
  }

  // ---------------------------------------------------------------------------
  // The whole search

  /** The seed task is well formed. */
  lemma SeedState(g: Graph, c: Config)
    ensures WellQueued([[c.source]])
    ensures SoundState(g, c, [[c.source]], [])
  {
    assert Pending(g, c, [c.source]);
  }

  /**
   * What the first step decides: `max = 0` or `recursion <= 1` stops before any
   * lookup; otherwise an unknown source fails the first lookup, and a direct
   * edge is found by the first expansion.
   */
  lemma WholeFirstStep(g: Graph, c: Config)
    ensures c.max == 0 || c.recursion <= 1 ==> Whole(g, c) == Outcome(None, [])
    ensures c.source !in g && c.max != 0 && c.recursion >= 2 ==> Whole(g, c).error.Some? && Whole(g, c).found == []
    ensures DirectEdge(g, c) ==> [c.source, c.destination] in Whole(g, c).found
  {
    SeedState(g, c);
    if DirectEdge(g, c) {
      DirectEdgeFound(g, c);
    }
  }

  /** A direct edge is the first result of the first expansion, and results are only ever appended. */
  lemma DirectEdgeFound(g: Graph, c: Config)
    requires DirectEdge(g, c)
    ensures [c.source, c.destination] in Whole(g, c).found
  {
    var path := [c.source];
    var nbrs := g[c.source];
    var hits := HitsOf(c, path, nbrs);
    var after := [path][1..] + Successors(c, path, nbrs);
    SeedState(g, c);
    ExpansionOf(c, path, nbrs);
    assert c.destination in path <==> c.destination == c.source;
    assert path + [c.destination] == [c.source, c.destination];
    assert Admissible(c, path, c.destination);
    assert hits != [] && hits[0] in hits;
    assert hits[0] == [c.source, c.destination];
    RunStep(g, c, [path], [], nbrs);
    assert [] + hits == hits;
    RunGrows(g, c, after, hits);
    assert Whole(g, c).found[..|hits|] == hits;
    assert Whole(g, c).found[0] == hits[0];
  }

  /** Soundness, the bound and the error kind of the whole search. */
  lemma WholeSound(g: Graph, c: Config)
    ensures SoundResults(g, c, Whole(g, c).found)
    ensures c.max >= 0 && DistinctLists(g) ==> |Whole(g, c).found| <= c.max
    ensures Whole(g, c).error.Some? ==> Whole(g, c).error == Some(TypeError("source destinations were not an array"))
    ensures Closed(g) && c.source in g ==> Whole(g, c).error == None
    ensures DistinctLists(g) ==> NoDuplicates(Whole(g, c).found)
  {
    SeedState(g, c);
    RunSound(g, c, [[c.source]], []);
    if DistinctLists(g) {
      RunDistinct(g, c, [[c.source]], []);
    }
    if c.max >= 0 && DistinctLists(g) {
      RunBound(g, c, [[c.source]], []);
    }
    RunErrorKind(g, c, [[c.source]], []);
    if Closed(g) && c.source in g {
      assert LastIn(g, [c.source]);
      RunNoError(g, c, [[c.source]], []);
    }
  }

  /** Completeness of the whole search. */
  lemma WholeComplete(g: Graph, c: Config)
    ensures var r := Whole(g, c);
      r.error == None && (c.max < 0 || |r.found| < c.max) ==> AllFound(g, c, r.found)
    ensures ByLayers(g, c, Whole(g, c).found)
  {
    SeedState(g, c);
    SeedComplete(g, c);
    RunComplete(g, c, [[c.source]], []);
    RunOrdered(g, c, [[c.source]], []);
  }

  /** The whole search hands over the results of the tasks expanded before it halted, with an error exactly when a lookup failed. */
  lemma WholeHalts(g: Graph, c: Config)
    ensures Halts(g, c, Whole(g, c))
  {
    SeedState(g, c);
    RunIterates(g, c, [[c.source]], []);
  }
}
