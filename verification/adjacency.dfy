/**
 * The adjacency store: each node identifier maps to the ordered list of its
 * neighbours.  `AddMapItem` is the library's only way of growing a list, and
 * `GetDestinations` its only way of reading one.
 */
module Adjacency {
  import opened Wrappers
  import opened JsValues

  type Graph = map<string, seq<string>>

  predicate Distinct(s: seq<string>) {
    forall i, j :: 0 <= i < j < |s| ==> s[i] != s[j]
  }

  /** `b` is recorded as a neighbour of `a`. */
  predicate Adjacent(g: Graph, a: string, b: string) {
    a in g && b in g[a]
  }

  ghost predicate Symmetric(g: Graph) {
    forall a, b :: Adjacent(g, a, b) ==> Adjacent(g, b, a)
  }

  /** No neighbour list holds an identifier twice. */
  ghost predicate DistinctLists(g: Graph) {
    forall a :: a in g ==> Distinct(g[a])
  }

  /** Every key has at least one neighbour: keys are only created by an insertion. */
  ghost predicate NonEmptyLists(g: Graph) {
    forall a :: a in g ==> |g[a]| > 0
  }

  /** Every recorded neighbour has a neighbour list of its own, so a lookup of it succeeds. */
  ghost predicate Closed(g: Graph) {
    forall a, b :: Adjacent(g, a, b) ==> b in g
  }

  /**
   * Records `destination` as a neighbour of `source`: the list of `source` is
   * created empty if missing, and `destination` is appended only if absent.
   */
  function AddMapItem(g: Graph, source: string, destination: string): (r: Graph)
    ensures r.Keys == g.Keys + {source}
    ensures forall k :: k in g && k != source ==> r[k] == g[k]
    ensures forall x :: x in r[source] <==> x == destination || Adjacent(g, source, x)
    ensures source in g ==> g[source] <= r[source]
    ensures source in g && Distinct(g[source]) ==> Distinct(r[source])
    ensures source !in g ==> r[source] == [destination]
    ensures forall a, b :: Adjacent(r, a, b) <==> Adjacent(g, a, b) || (a == source && b == destination)
  {
    var list := if source in g then g[source] else [];
    if destination in list then g[source := list] else g[source := list + [destination]]
  }

  /** Inserting an edge that is already recorded changes nothing. */
  lemma AddMapItemExisting(g: Graph, source: string, destination: string)
    requires Adjacent(g, source, destination)
    ensures AddMapItem(g, source, destination) == g
  {
  }

  lemma AddMapItemIdempotent(g: Graph, source: string, destination: string)
    ensures AddMapItem(AddMapItem(g, source, destination), source, destination)
         == AddMapItem(g, source, destination)
  {
    AddMapItemExisting(AddMapItem(g, source, destination), source, destination);
  }

  /** Both insertions a valid row performs: `source → destination` and `destination → source`. */
  function Connect(g: Graph, source: string, destination: string): (r: Graph)
    ensures r.Keys == g.Keys + {source, destination}
  {
    AddMapItem(AddMapItem(g, source, destination), destination, source)
  }

  lemma ConnectAdjacent(g: Graph, source: string, destination: string, a: string, b: string)
    ensures Adjacent(Connect(g, source, destination), a, b) <==>
      Adjacent(g, a, b) || (a == source && b == destination) || (a == destination && b == source)
  {
  }

  lemma AddMapItemKeepsDistinct(g: Graph, source: string, destination: string)
    requires DistinctLists(g)
    ensures DistinctLists(AddMapItem(g, source, destination))
  {
  }

  lemma AddMapItemKeepsNonEmpty(g: Graph, source: string, destination: string)
    requires NonEmptyLists(g)
    ensures NonEmptyLists(AddMapItem(g, source, destination))
  {
  }

  /** Inserting both directions of an edge keeps the store symmetric. */
  lemma ConnectKeepsSymmetric(g: Graph, source: string, destination: string)
    requires Symmetric(g)
    ensures Symmetric(Connect(g, source, destination))
  {
  }

  /** Connecting keeps every neighbour list duplicate-free and non-empty. */
  lemma ConnectKeepsDistinct(g: Graph, source: string, destination: string)
    ensures DistinctLists(g) ==> DistinctLists(Connect(g, source, destination))
    ensures NonEmptyLists(g) ==> NonEmptyLists(Connect(g, source, destination))
  {
    var h := AddMapItem(g, source, destination);
    if DistinctLists(g) {
      AddMapItemKeepsDistinct(g, source, destination);
      AddMapItemKeepsDistinct(h, destination, source);
    }
    if NonEmptyLists(g) {
      AddMapItemKeepsNonEmpty(g, source, destination);
      AddMapItemKeepsNonEmpty(h, destination, source);
    }
  }

  lemma SymmetricIsClosed(g: Graph)
    requires Symmetric(g)
    ensures Closed(g)
  {
  }

  /**
   * `getDestinations`: a non-string identifier and an identifier without a
   * neighbour list are errors; otherwise the stored list itself is returned.
   */
  function GetDestinations(g: Graph, source: JsValue): (r: Result<seq<string>, JsError>)
    ensures !source.Str? ==> r == Failure(TypeError("source must be a string"))
    ensures source.Str? && source.s !in g ==> r == Failure(TypeError("source destinations were not an array"))
    ensures source.Str? && source.s in g ==> r == Success(g[source.s])
    ensures r.Success? ==> forall x :: x in r.value <==> source.Str? && Adjacent(g, source.s, x)
  {
    if source.Str? then
      if source.s in g then Success(g[source.s])
      else Failure(TypeError("source destinations were not an array"))
    else Failure(TypeError("source must be a string"))
  }
}
