/**
 * Shapes of the partial paths (tasks) and result paths of one search, the
 * neighbour filters applied while expanding a task, and the breadth-first
 * layering of the task queue.
 */
module Paths {
  import opened Adjacency
  import opened Options

  /** Each consecutive pair of the path is an edge of the store. */
  ghost predicate IsWalk(g: Graph, p: seq<string>) {
    forall k :: 0 <= k < |p| - 1 ==> Adjacent(g, p[k], p[k + 1])
  }

  /** No node occurs twice. */
  ghost predicate NoRepeats(p: seq<string>) {
    forall i, j :: 0 <= i < j < |p| ==> p[i] != p[j]
  }

  /** No step goes straight back to the node before: `p[k] != p[k + 2]`. */
  ghost predicate NoBacktrack(p: seq<string>) {
    forall k :: 0 <= k < |p| - 2 ==> p[k] != p[k + 2]
  }

  /** No node strictly between the first and the last is `d`. */
  ghost predicate InteriorAvoids(p: seq<string>, d: string) {
    forall k :: 1 <= k < |p| - 1 ==> p[k] != d
  }

  /**
   * The neighbour filters: with `revisit` off a neighbour already on the path is
   * skipped, and with `reverse` off so is the node before the last.
   */
  predicate Admissible(c: Config, path: seq<string>, d: string) {
    && !(!c.revisit && d in path)
    && !(!c.reverse && |path| >= 2 && path[|path| - 2] == d)
  }

  /** What every path built by a search satisfies. */
  ghost predicate Shaped(g: Graph, c: Config, p: seq<string>) {
    && |p| >= 1
    && p[0] == c.source
    && IsWalk(g, p)
    && (!c.revisit ==> NoRepeats(p))
    && (!c.reverse ==> NoBacktrack(p))
    && InteriorAvoids(p, c.destination)
  }

  /** A queued task: the seed `[source]`, or a path of at most `recursion + 1` nodes not ending at the destination. */
  ghost predicate Pending(g: Graph, c: Config, p: seq<string>) {
    && Shaped(g, c, p)
    && (|p| >= 2 ==> p[|p| - 1] != c.destination && |p| <= c.recursion + 1)
  }

  /** A result: at least one step, ending at the destination, at most `recursion + 1` nodes. */
  ghost predicate Found(g: Graph, c: Config, p: seq<string>) {
    && Shaped(g, c, p)
    && 2 <= |p| <= c.recursion + 1
    && p[|p| - 1] == c.destination
  }

  /**
   * Extending a task that passed the stop rule by an admissible neighbour of its
   * last node gives a result when the neighbour is the destination and a new task
   * otherwise.
   */
  lemma ExtendTask(g: Graph, c: Config, p: seq<string>, d: string)
    requires Pending(g, c, p) && |p| <= c.recursion
    requires Adjacent(g, p[|p| - 1], d)
    requires Admissible(c, p, d)
    ensures d == c.destination ==> Found(g, c, p + [d])
    ensures d != c.destination ==> Pending(g, c, p + [d])
  {
    var q := p + [d];
    assert forall k :: 0 <= k < |p| ==> q[k] == p[k];
    assert IsWalk(g, q) by {
      forall k | 0 <= k < |q| - 1
        ensures Adjacent(g, q[k], q[k + 1])
      {
        if k < |p| - 1 {
          assert Adjacent(g, p[k], p[k + 1]);
        }
      }
    }
    assert InteriorAvoids(q, c.destination) by {
      forall k | 1 <= k < |q| - 1
        ensures q[k] != c.destination
      {
        if k < |p| - 1 {
          assert p[k] != c.destination;
        }
      }
    }
    if !c.revisit {
      assert NoRepeats(q) by {
        forall i, j | 0 <= i < j < |q|
          ensures q[i] != q[j]
        {
          if j < |p| {
            assert p[i] != p[j];
          } else {
            assert q[i] == p[i];
          }
        }
      }
    }
    if !c.reverse {
      assert NoBacktrack(q) by {
        forall k | 0 <= k < |q| - 2
          ensures q[k] != q[k + 2]
        {
          if k + 2 < |p| {
            assert p[k] != p[k + 2];
          }
        }
      }
    }
  }

  /**
   * Every proper prefix `p[..k]` of a result path is a task the search builds:
   * the next node `p[k]` is a neighbour of its last node that passes the filters,
   * and it is the destination exactly when it is the last node of `p`.
   */
  lemma PrefixStep(g: Graph, c: Config, p: seq<string>, k: nat)
    requires Found(g, c, p) && 1 <= k < |p|
    ensures p[..k + 1] == p[..k] + [p[k]]
    ensures Adjacent(g, p[k - 1], p[k])
    ensures Admissible(c, p[..k], p[k])
    ensures p[k] == c.destination <==> k == |p| - 1
  {
    assert Adjacent(g, p[k - 1], p[k]);
    if !c.revisit {
      forall i | 0 <= i < k
        ensures p[..k][i] != p[k]
      {
        assert p[i] != p[k];
      }
    }
    if !c.reverse && k >= 2 {
      assert p[k - 2] != p[k];
    }
    if k < |p| - 1 {
      assert p[k] != c.destination;
    }
  }

  /** With both filters on, a simple route without step-backs of bounded length is a result path. */
  lemma RouteIsFound(g: Graph, c: Config, p: seq<string>)
    requires !c.revisit && !c.reverse
    requires |p| >= 2 && p[0] == c.source && p[|p| - 1] == c.destination
    requires IsWalk(g, p) && NoRepeats(p) && NoBacktrack(p)
    requires |p| <= c.recursion + 1
    ensures Found(g, c, p)
  {
    forall k | 1 <= k < |p| - 1
      ensures p[k] != c.destination
    {
      assert p[k] != p[|p| - 1];
    }
  }

  /**
   * Breadth-first layering: lengths never decrease along the queue and differ
   * by at most one between any two tasks.
   */
  ghost predicate Layered(q: seq<seq<string>>) {
    forall i, j :: 0 <= i < j < |q| ==> |q[i]| <= |q[j]| <= |q[i]| + 1
  }

  /** Results listed shortest first. */
  ghost predicate ByLength(q: seq<seq<string>>) {
    forall i, j :: 0 <= i < j < |q| ==> |q[i]| <= |q[j]|
  }

  /** Number of tasks of length `n`. */
  function CountLength(q: seq<seq<string>>, n: nat): nat {
    if q == [] then 0 else (if |q[0]| == n then 1 else 0) + CountLength(q[1..], n)
  }

  lemma {:induction false} CountLengthAppend(a: seq<seq<string>>, b: seq<seq<string>>, n: nat)
    ensures CountLength(a + b, n) == CountLength(a, n) + CountLength(b, n)
  {
    if a == [] {
      assert a + b == b;
    } else {
      assert (a + b)[1..] == a[1..] + b;
      CountLengthAppend(a[1..], b, n);
    }
  }

  lemma {:induction false} CountLengthNone(q: seq<seq<string>>, n: nat)
    requires forall i :: 0 <= i < |q| ==> |q[i]| != n
    ensures CountLength(q, n) == 0
  {
    if q != [] {
      CountLengthNone(q[1..], n);
    }
  }

  /** Dequeuing the head (length `n`) and appending tasks of length `n + 1` keeps the layering. */
  lemma LayeredStep(q: seq<seq<string>>, more: seq<seq<string>>, n: nat)
    requires Layered(q) && q != [] && |q[0]| == n
    requires forall i :: 0 <= i < |more| ==> |more[i]| == n + 1
    ensures Layered(q[1..] + more)
    ensures forall i :: 0 <= i < |q[1..] + more| ==> n <= |(q[1..] + more)[i]| <= n + 1
  {
    var r := q[1..] + more;
    forall i | 0 <= i < |r|
      ensures n <= |r[i]| <= n + 1
    {
      if i < |q| - 1 {
        assert r[i] == q[i + 1];
      } else {
        assert r[i] == more[i - (|q| - 1)];
      }
    }
    forall i, j | 0 <= i < j < |r|
      ensures |r[i]| <= |r[j]| <= |r[i]| + 1
    {
      if j < |q| - 1 {
        assert r[i] == q[i + 1] && r[j] == q[j + 1];
      } else if i >= |q| - 1 {
        assert r[i] == more[i - (|q| - 1)] && r[j] == more[j - (|q| - 1)];
      } else {
        assert r[i] == q[i + 1] && r[j] == more[j - (|q| - 1)];
      }
    }
  }
}
