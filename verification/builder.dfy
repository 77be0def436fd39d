/**
 * `buildMap`: validates the rows of pairs handed to the library, stopping at
 * the first malformed row, and inserts every earlier row in both directions
 * into a freshly emptied adjacency store.
 */
module Builder {
  import opened Wrappers
  import opened JsValues
  import opened Text
  import opened Adjacency

  /** The store after a build, and the error the 'ready' event would carry (`null` as `None`). */
  datatype BuildResult = BuildResult(graph: Graph, error: Option<JsError>)

  /** An array of exactly two strings. */
  predicate ValidRow(row: JsValue) {
    row.Arr? && |row.elems| == 2 && row.elems[0].Str? && row.elems[1].Str?
  }

  /** A valid row connects `a` and `b`, in either order. */
  ghost predicate Links(row: JsValue, a: string, b: string) {
    ValidRow(row) &&
    ((row.elems[0].s == a && row.elems[1].s == b) || (row.elems[0].s == b && row.elems[1].s == a))
  }

  /** `a` is one of the two fields of a valid row. */
  ghost predicate Endpoint(row: JsValue, a: string) {
    ValidRow(row) && (row.elems[0].s == a || row.elems[1].s == a)
  }

  function RowPrefix(i: nat): string {
    "data[" + Decimal(i) + "]"
  }

  const NotAnArrayMessage := "data (connection source / destination array of arrays) is not an array"

  /**
   * The validation of row `i`: not an array, then a length other than 2, then a
   * non-string source, then a non-string destination; `None` for a valid row.
   */
  function CheckRow(i: nat, row: JsValue): (r: Option<JsError>)
    ensures r.None? <==> ValidRow(row)
    ensures !row.Arr? ==>
      r == Some(Error(RowPrefix(i) + " (connection source / destination array) is not an array"))
    ensures row.Arr? && |row.elems| != 2 ==>
      r == Some(Error(RowPrefix(i) + " (connection source / destination array) must have a length of 2"))
    ensures row.Arr? && |row.elems| == 2 && !row.elems[0].Str? ==>
      r == Some(Error(RowPrefix(i) + "[0] (connection source) is not a string"))
    ensures row.Arr? && |row.elems| == 2 && row.elems[0].Str? && !row.elems[1].Str? ==>
      r == Some(Error(RowPrefix(i) + "[1] (connection destination) is not a string"))
  {
    var suffix :=
      if !row.Arr? then " (connection source / destination array) is not an array"
      else if |row.elems| != 2 then " (connection source / destination array) must have a length of 2"
      else if !row.elems[0].Str? then "[0] (connection source) is not a string"
      else "[1] (connection destination) is not a string";
    if ValidRow(row) then None else Some(Error(RowPrefix(i) + suffix))
  }

  /** Every row error names the index of the row it rejects. */
  lemma CheckRowNamesIndex(i: nat, row: JsValue)
    requires !ValidRow(row)
    ensures RowIndexOf(CheckRow(i, row).value.message) == Some(i)
  {
    var suffix :=
      if !row.Arr? then " (connection source / destination array) is not an array"
      else if |row.elems| != 2 then " (connection source / destination array) must have a length of 2"
      else if !row.elems[0].Str? then "[0] (connection source) is not a string"
      else "[1] (connection destination) is not a string";
    RowIndexOfPrefix(i, suffix);
  }

  /** Reads back the row index an error message names, if it starts with `data[` and digits. */
  function RowIndexOf(message: string): Option<nat> {
    if |message| >= 5 && message[..5] == "data[" then
      var run := DigitRun(message[5..]);
      if |run| > 0 then Some(ParseDecimal(run)) else None
    else None
  }

  lemma RowIndexOfPrefix(i: nat, suffix: string)
    ensures RowIndexOf(RowPrefix(i) + suffix) == Some(i)
  {
    var message := RowPrefix(i) + suffix;
    assert message == "data[" + (Decimal(i) + ("]" + suffix));
    assert message[5..] == Decimal(i) + ("]" + suffix);
    DigitRunOfConcat(Decimal(i), "]" + suffix);
    DecimalRoundTrip(i);
  }

  /** Index of the first invalid row at or after `i`, or `|rows|` when there is none. */
  function FirstInvalid(rows: seq<JsValue>, i: nat): (k: nat)
    requires i <= |rows|
    ensures i <= k <= |rows|
    ensures forall j :: i <= j < k ==> ValidRow(rows[j])
    ensures k < |rows| ==> !ValidRow(rows[k])
    decreases |rows| - i
  {
    if i == |rows| || !ValidRow(rows[i]) then i else FirstInvalid(rows, i + 1)
  }

  /** The `_.each` over the rows from index `i` on, leaving the loop at the first error. */
  function InsertRows(g: Graph, rows: seq<JsValue>, i: nat): (r: BuildResult)
    requires i <= |rows|
    ensures r.error.None? <==> FirstInvalid(rows, i) == |rows|
    ensures g.Keys <= r.graph.Keys
    decreases |rows| - i
  {
    if i == |rows| then BuildResult(g, None)
    else
      if !ValidRow(rows[i]) then BuildResult(g, CheckRow(i, rows[i]))
      else InsertRows(Connect(g, rows[i].elems[0].s, rows[i].elems[1].s), rows, i + 1)
  }

  /** Inserting rows `i..` reports the error of the first invalid row, if any. */
  lemma {:induction false} InsertRowsError(g: Graph, rows: seq<JsValue>, i: nat)
    requires i <= |rows|
    ensures var k := FirstInvalid(rows, i);
      InsertRows(g, rows, i).error == (if k < |rows| then CheckRow(k, rows[k]) else None)
    decreases |rows| - i
  {
    if i < |rows| && ValidRow(rows[i]) {
      InsertRowsStep(g, rows, i);
      InsertRowsError(Connect(g, rows[i].elems[0].s, rows[i].elems[1].s), rows, i + 1);
    }
  }

  /** One valid row: it is connected and the fold continues with the next index. */
  lemma InsertRowsStep(g: Graph, rows: seq<JsValue>, i: nat)
    requires i < |rows| && ValidRow(rows[i])
    ensures InsertRows(g, rows, i) == InsertRows(Connect(g, rows[i].elems[0].s, rows[i].elems[1].s), rows, i + 1)
    ensures FirstInvalid(rows, i) == FirstInvalid(rows, i + 1)
  {
    assert CheckRow(i, rows[i]).None?;
  }

  /** Inserting rows `i..` records, on top of `g`, exactly the edges of the valid rows before the first invalid one. */
  lemma {:induction false} InsertRowsEdges(g: Graph, rows: seq<JsValue>, i: nat, a: string, b: string)
    requires i <= |rows|
    ensures Adjacent(InsertRows(g, rows, i).graph, a, b) <==>
      Adjacent(g, a, b) || exists j :: i <= j < FirstInvalid(rows, i) && Links(rows[j], a, b)
    decreases |rows| - i
  {
    if i < |rows| && ValidRow(rows[i]) {
      var k := FirstInvalid(rows, i);
      var h := Connect(g, rows[i].elems[0].s, rows[i].elems[1].s);
      InsertRowsStep(g, rows, i);
      InsertRowsEdges(h, rows, i + 1, a, b);
      ConnectAdjacent(g, rows[i].elems[0].s, rows[i].elems[1].s, a, b);
      ShiftExists(rows, i, k, a, b);
    } else {
      assert FirstInvalid(rows, i) == i;
      assert InsertRows(g, rows, i).graph == g;
    }
  }

  lemma ShiftExists(rows: seq<JsValue>, i: nat, k: nat, a: string, b: string)
    requires i < k <= |rows|
    ensures (exists j :: i <= j < k && Links(rows[j], a, b)) <==>
      Links(rows[i], a, b) || exists j :: i + 1 <= j < k && Links(rows[j], a, b)
  {
  }

  lemma ShiftEndpoint(rows: seq<JsValue>, i: nat, k: nat, a: string)
    requires i < k <= |rows|
    ensures (exists j :: i <= j < k && Endpoint(rows[j], a)) <==>
      Endpoint(rows[i], a) || exists j :: i + 1 <= j < k && Endpoint(rows[j], a)
  {
  }

  /** Inserting rows `i..` adds exactly the fields of the valid rows before the first invalid one as keys. */
  lemma {:induction false} InsertRowsKeys(g: Graph, rows: seq<JsValue>, i: nat, a: string)
    requires i <= |rows|
    ensures a in InsertRows(g, rows, i).graph <==>
      a in g || exists j :: i <= j < FirstInvalid(rows, i) && Endpoint(rows[j], a)
    decreases |rows| - i
  {
    if i < |rows| && ValidRow(rows[i]) {
      var k := FirstInvalid(rows, i);
      var h := Connect(g, rows[i].elems[0].s, rows[i].elems[1].s);
      InsertRowsStep(g, rows, i);
      InsertRowsKeys(h, rows, i + 1, a);
      assert a in h <==> a in g || Endpoint(rows[i], a);
      ShiftEndpoint(rows, i, k, a);
    } else {
      assert FirstInvalid(rows, i) == i;
      assert InsertRows(g, rows, i).graph == g;
    }
  }

  /** Inserting rows keeps the store symmetric, duplicate-free and without empty lists. */
  lemma {:induction false} InsertRowsKeeps(g: Graph, rows: seq<JsValue>, i: nat)
    requires i <= |rows|
    requires Symmetric(g) && DistinctLists(g) && NonEmptyLists(g)
    ensures var r := InsertRows(g, rows, i).graph;
      Symmetric(r) && DistinctLists(r) && NonEmptyLists(r)
    decreases |rows| - i
  {
    if i < |rows| && ValidRow(rows[i]) {
      var s, d := rows[i].elems[0].s, rows[i].elems[1].s;
      ConnectKeepsSymmetric(g, s, d);
      ConnectKeepsDistinct(g, s, d);
      InsertRowsStep(g, rows, i);
      InsertRowsKeeps(Connect(g, s, d), rows, i + 1);
    }
  }

  // Neighbour order.

  /** Index of the first row at or after `j` that links `a` and `b`, or `|rows|` when there is none. */
  ghost function FirstLink(rows: seq<JsValue>, a: string, b: string, j: nat): (n: nat)
    requires j <= |rows|
    ensures j <= n <= |rows|
    ensures n < |rows| ==> Links(rows[n], a, b)
    ensures forall m :: j <= m < n ==> !Links(rows[m], a, b)
    decreases |rows| - j
  {
    if j == |rows| || Links(rows[j], a, b) then j else FirstLink(rows, a, b, j + 1)
  }

  /** The edges of `g` are exactly the pairs that one of the first `i` rows links. */
  ghost predicate LinkedUpTo(g: Graph, rows: seq<JsValue>, i: nat) {
    forall a, b :: Adjacent(g, a, b) <==> FirstLink(rows, a, b, 0) < i
  }

  /** Every neighbour list is ordered by the first row linking each neighbour to the key. */
  ghost predicate InLinkOrder(g: Graph, rows: seq<JsValue>) {
    forall a, p, q :: a in g && 0 <= p < q < |g[a]| ==>
      FirstLink(rows, a, g[a][p], 0) < FirstLink(rows, a, g[a][q], 0)
  }

  /** The first link of a pair is row `i` exactly when row `i` links it and no earlier row does. */
  lemma FirstLinkNext(rows: seq<JsValue>, i: nat, a: string, b: string)
    requires i < |rows|
    ensures FirstLink(rows, a, b, 0) < i + 1 <==> FirstLink(rows, a, b, 0) < i || Links(rows[i], a, b)
  {
    var n := FirstLink(rows, a, b, 0);
    if n >= i && Links(rows[i], a, b) {
      assert n <= i;
    }
  }

  /**
   * Appending `b` to the list of `a` keeps the link order when, unless `b` is
   * already there, every present neighbour was linked to `a` before `b`.
   */
  lemma AppendInLinkOrder(g: Graph, rows: seq<JsValue>, a: string, b: string)
    requires InLinkOrder(g, rows)
    requires !Adjacent(g, a, b) ==>
      forall x :: Adjacent(g, a, x) ==> FirstLink(rows, a, x, 0) < FirstLink(rows, a, b, 0)
    ensures InLinkOrder(AddMapItem(g, a, b), rows)
  {
    var r := AddMapItem(g, a, b);
    if !Adjacent(g, a, b) {
      forall k, p, q | k in r && 0 <= p < q < |r[k]|
        ensures FirstLink(rows, k, r[k][p], 0) < FirstLink(rows, k, r[k][q], 0)
      {
        if k == a && q == |r[a]| - 1 {
          assert r[a][q] == b;
          assert Adjacent(g, a, r[a][p]);
        } else if k == a {
          assert r[a][p] == g[a][p] && r[a][q] == g[a][q];
        }
      }
    } else {
      AddMapItemExisting(g, a, b);
    }
  }

  /** One valid row extends the record of linked pairs to the first `i + 1` rows. */
  lemma ConnectLinkedUpTo(g: Graph, rows: seq<JsValue>, i: nat)
    requires i < |rows| && ValidRow(rows[i])
    requires LinkedUpTo(g, rows, i)
    ensures LinkedUpTo(Connect(g, rows[i].elems[0].s, rows[i].elems[1].s), rows, i + 1)
  {
    var s, d := rows[i].elems[0].s, rows[i].elems[1].s;
    var h := Connect(g, s, d);
    forall a, b
      ensures Adjacent(h, a, b) <==> FirstLink(rows, a, b, 0) < i + 1
    {
      ConnectAdjacent(g, s, d, a, b);
      FirstLinkNext(rows, i, a, b);
    }
  }

  /** One valid row keeps every list in link order: its partners are linked later than any present one. */
  lemma ConnectInLinkOrder(g: Graph, rows: seq<JsValue>, i: nat)
    requires i < |rows| && ValidRow(rows[i])
    requires LinkedUpTo(g, rows, i) && InLinkOrder(g, rows)
    ensures InLinkOrder(Connect(g, rows[i].elems[0].s, rows[i].elems[1].s), rows)
  {
    var s, d := rows[i].elems[0].s, rows[i].elems[1].s;
    LaterLink(g, rows, i, s, d);
    AppendInLinkOrder(g, rows, s, d);
    var g1 := AddMapItem(g, s, d);
    if !Adjacent(g1, d, s) {
      assert d != s && !Adjacent(g, d, s);
      LaterLink(g, rows, i, d, s);
      assert forall x :: Adjacent(g1, d, x) ==> Adjacent(g, d, x);
    }
    AppendInLinkOrder(g1, rows, d, s);
  }

  /** A pair not yet linked by the first `i` rows is linked later than every recorded neighbour. */
  lemma LaterLink(g: Graph, rows: seq<JsValue>, i: nat, a: string, b: string)
    requires LinkedUpTo(g, rows, i)
    ensures !Adjacent(g, a, b) ==>
      forall x :: Adjacent(g, a, x) ==> FirstLink(rows, a, x, 0) < FirstLink(rows, a, b, 0)
  {
  }

  /** Inserting rows `i..` on top of the first `i` rows keeps every list in link order. */
  lemma {:induction false} InsertRowsOrder(g: Graph, rows: seq<JsValue>, i: nat)
    requires i <= |rows|
    requires LinkedUpTo(g, rows, i) && InLinkOrder(g, rows)
    ensures InLinkOrder(InsertRows(g, rows, i).graph, rows)
    decreases |rows| - i
  {
    if i < |rows| && ValidRow(rows[i]) {
      ConnectLinkedUpTo(g, rows, i);
      ConnectInLinkOrder(g, rows, i);
      InsertRowsStep(g, rows, i);
      InsertRowsOrder(Connect(g, rows[i].elems[0].s, rows[i].elems[1].s), rows, i + 1);
    }
  }

  /** `data.shift()` when `opt.hasHeader === true`: the first row, if any, is dropped. */
  function DataRows(opt: JsValue, data: seq<JsValue>): seq<JsValue> {
    if Get(opt, "hasHeader") == Bool(true) && |data| > 0 then data[1..] else data
  }

  /**
   * `buildMap(opt, data)`.  A non-array `data` leaves the previous store in place
   * and reports an error.  Otherwise the store is rebuilt from nothing: it holds
   * exactly the edges of the rows before the first invalid one (header already
   * removed), in both directions, and the error names that row.
   */
  function BuildMap(previous: Graph, opt: JsValue, data: JsValue): (r: BuildResult)
    ensures !data.Arr? ==> r == BuildResult(previous, Some(Error(NotAnArrayMessage)))
    ensures data.Arr? ==> Symmetric(r.graph) && DistinctLists(r.graph) && NonEmptyLists(r.graph)
    ensures data.Arr? ==> var rows := DataRows(opt, data.elems);
      r.error.None? <==> forall j :: 0 <= j < |rows| ==> ValidRow(rows[j])
    ensures data.Arr? ==> var rows := DataRows(opt, data.elems); var k := FirstInvalid(rows, 0);
      r.error == (if k < |rows| then CheckRow(k, rows[k]) else None)
    ensures data.Arr? ==> var rows := DataRows(opt, data.elems); var k := FirstInvalid(rows, 0);
      forall a, b :: Adjacent(r.graph, a, b) <==> exists j :: 0 <= j < k && Links(rows[j], a, b)
    ensures data.Arr? ==> var rows := DataRows(opt, data.elems); var k := FirstInvalid(rows, 0);
      forall a :: a in r.graph <==> exists j :: 0 <= j < k && Endpoint(rows[j], a)
  {
    if data.Arr? then
      var rows := DataRows(opt, data.elems);
      InsertRowsError(map[], rows, 0);
      InsertRowsKeeps(map[], rows, 0);
      forall a, b ensures Adjacent(InsertRows(map[], rows, 0).graph, a, b) <==>
        exists j :: 0 <= j < FirstInvalid(rows, 0) && Links(rows[j], a, b)
      {
        InsertRowsEdges(map[], rows, 0, a, b);
      }
      forall a ensures a in InsertRows(map[], rows, 0).graph <==>
        exists j :: 0 <= j < FirstInvalid(rows, 0) && Endpoint(rows[j], a)
      {
        InsertRowsKeys(map[], rows, 0, a);
      }
      InsertRows(map[], rows, 0)
    else
      BuildResult(previous, Some(Error(NotAnArrayMessage)))
  }

  /** With `hasHeader === true` the first row is dropped before anything else: the build is that of the remaining rows. */
  lemma HeaderDropped(previous: Graph, opt: JsValue, header: JsValue, rows: seq<JsValue>)
    requires Get(opt, "hasHeader") == Bool(true)
    ensures BuildMap(previous, opt, Arr([header] + rows)) == BuildMap(previous, Obj(map[]), Arr(rows))
  {
    assert ([header] + rows)[1..] == rows;
  }

  /** Any other `hasHeader` value leaves every row in place. */
  lemma HeaderIgnored(previous: Graph, opt: JsValue, data: JsValue)
    requires Get(opt, "hasHeader") != Bool(true)
    ensures BuildMap(previous, opt, data) == BuildMap(previous, Obj(map[]), data)
  {
  }

  /** A header on an empty array has nothing to drop: the store is emptied without error. */
  lemma HeaderOnEmpty(previous: Graph, opt: JsValue)
    ensures BuildMap(previous, opt, Arr([])) == BuildResult(map[], None)
  {
  }

  /**
   * Each neighbour list of a built store is in the order of the rows: every
   * neighbour is first linked to the key by a row before the first invalid one,
   * and one neighbour precedes another exactly when its first linking row does.
   */
  lemma BuildMapOrder(previous: Graph, opt: JsValue, data: JsValue, a: string)
    requires data.Arr?
    ensures var g := BuildMap(previous, opt, data).graph; var rows := DataRows(opt, data.elems);
      a in g ==> forall p, q :: 0 <= p < |g[a]| && 0 <= q < |g[a]| ==>
        && FirstLink(rows, a, g[a][p], 0) < FirstInvalid(rows, 0)
        && (p < q <==> FirstLink(rows, a, g[a][p], 0) < FirstLink(rows, a, g[a][q], 0))
  {
    var rows := DataRows(opt, data.elems);
    var g := BuildMap(previous, opt, data).graph;
    InsertRowsOrder(map[], rows, 0);
    assert InLinkOrder(g, rows);
    if a in g {
      forall p, q | 0 <= p < |g[a]| && 0 <= q < |g[a]|
        ensures FirstLink(rows, a, g[a][p], 0) < FirstInvalid(rows, 0)
        ensures p < q <==> FirstLink(rows, a, g[a][p], 0) < FirstLink(rows, a, g[a][q], 0)
      {
        assert Adjacent(g, a, g[a][p]);
        var j :| 0 <= j < FirstInvalid(rows, 0) && Links(rows[j], a, g[a][p]);
        if q < p {
          assert FirstLink(rows, a, g[a][q], 0) < FirstLink(rows, a, g[a][p], 0);
        }
      }
    }
  }

  /** Every node of a built store can be looked up, and its list holds exactly its partners, once each. */
  lemma BuildMapLookup(previous: Graph, opt: JsValue, data: JsValue, a: string)
    requires data.Arr?
    ensures var rows := DataRows(opt, data.elems); var k := FirstInvalid(rows, 0);
      var lookup := GetDestinations(BuildMap(previous, opt, data).graph, Str(a));
      (lookup.Success? <==> exists j :: 0 <= j < k && Endpoint(rows[j], a)) &&
      (lookup.Success? ==>
         && Distinct(lookup.value)
         && |lookup.value| > 0
         && forall b :: b in lookup.value <==> exists j :: 0 <= j < k && Links(rows[j], a, b))
  {
  }

  /** A row repeating an edge that is already recorded leaves the store unchanged. */
  lemma ConnectExisting(g: Graph, a: string, b: string)
    requires Adjacent(g, a, b) && Adjacent(g, b, a)
    ensures Connect(g, a, b) == g
  {
    AddMapItemExisting(g, a, b);
  }

  // Worked scenarios.

  function Row(a: string, b: string): JsValue {
    Arr([Str(a), Str(b)])
  }

  function TriangleRows(): seq<JsValue> {
    [Row("A", "B"), Row("B", "C"), Row("A", "C")]
  }

  lemma TriangleConnects()
    ensures Connect(map[], "A", "B") == map["A" := ["B"], "B" := ["A"]]
    ensures Connect(map["A" := ["B"], "B" := ["A"]], "B", "C")
         == map["A" := ["B"], "B" := ["A", "C"], "C" := ["B"]]
  {
    var g1 := map["A" := ["B"], "B" := ["A"]];
    assert g1["B"] + ["C"] == ["A", "C"];
    assert AddMapItem(g1, "B", "C") == g1["B" := ["A", "C"]];
  }

  lemma TriangleLastConnect()
    ensures Connect(map["A" := ["B"], "B" := ["A", "C"], "C" := ["B"]], "A", "C")
         == map["A" := ["B", "C"], "B" := ["A", "C"], "C" := ["B", "A"]]
  {
    var g2 := map["A" := ["B"], "B" := ["A", "C"], "C" := ["B"]];
    assert g2["A"] + ["C"] == ["B", "C"];
    assert g2["C"] + ["A"] == ["B", "A"];
    assert AddMapItem(g2, "A", "C") == g2["A" := ["B", "C"]];
  }

  /** The first two rows of the triangle, one fold step each. */
  lemma TriangleFirstRows()
    ensures InsertRows(map[], TriangleRows(), 0)
         == InsertRows(map["A" := ["B"], "B" := ["A", "C"], "C" := ["B"]], TriangleRows(), 2)
  {
    var rows := TriangleRows();
    var g1 := map["A" := ["B"], "B" := ["A"]];
    TriangleConnects();
    InsertRowsStep(map[], rows, 0);
    InsertRowsStep(g1, rows, 1);
  }

  lemma TriangleInsert()
    ensures InsertRows(map[], TriangleRows(), 0)
         == BuildResult(map["A" := ["B", "C"], "B" := ["A", "C"], "C" := ["B", "A"]], None)
  {
    var g2 := map["A" := ["B"], "B" := ["A", "C"], "C" := ["B"]];
    TriangleFirstRows();
    TriangleLastConnect();
    InsertRowsStep(g2, TriangleRows(), 2);
  }

  /** Rows A–B, B–C, A–C without a header: every node lists the other two, in insertion order. */
  lemma TriangleScenario()
    ensures BuildMap(map[], Obj(map[]), Arr(TriangleRows()))
         == BuildResult(map["A" := ["B", "C"], "B" := ["A", "C"], "C" := ["B", "A"]], None)
  {
    TriangleInsert();
  }

  /** A non-string destination in row 1 is reported with that index and field; row 0 stays inserted. */
  lemma NonStringDestinationScenario()
    ensures BuildMap(map[], Obj(map[]), Arr([Row("A", "B"), Arr([Str("A"), Num(5)])]))
         == BuildResult(map["A" := ["B"], "B" := ["A"]],
                        Some(Error(RowPrefix(1) + "[1] (connection destination) is not a string")))
    ensures RowPrefix(1) == "data[1]"
  {
    var rows := [Row("A", "B"), Arr([Str("A"), Num(5)])];
    assert Connect(map[], "A", "B") == map["A" := ["B"], "B" := ["A"]];
    InsertRowsStep(map[], rows, 0);
    assert Decimal(1) == "1";
  }

  /**
   * With `hasHeader` the header is dropped first, so the malformed first data row
   * is reported as row 0, and the previous store is discarded.
   */
  lemma HeaderScenario()
    ensures BuildMap(map["X" := ["Y"]], Obj(map["hasHeader" := Bool(true)]),
                     Arr([Row("from", "to"), Arr([Str("A")]), Row("A", "B")]))
         == BuildResult(map[], Some(Error(RowPrefix(0) + " (connection source / destination array) must have a length of 2")))
    ensures RowPrefix(0) == "data[0]"
  {
    assert Decimal(0) == "0";
  }
}
