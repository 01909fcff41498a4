/** packages/gpu/src/interconnect.js: GPU interconnect matrices and their classification. */
module Topology {
  import opened Options
  import opened Text
  import Decimal

  /** `kind` of an NVLink edge, or `weight` of an xGMI edge. */
  datatype Mark = NvLink(kind: string) | Xgmi(weight: int)

  datatype Link = Link(from: nat, to: nat, mark: Mark)

  // ---------- Reading the tables ----------

  /** `prefix` in any case, then digits only. */
  predicate IsNumbered(prefix: string, word: string) {
    |prefix| < |word| && Upper(word[..|prefix|]) == prefix && Decimal.AllDigits(word[|prefix|..])
  }

  function Number(prefix: string, word: string): nat
    requires IsNumbered(prefix, word)
  {
    Decimal.Value(word[|prefix|..])
  }

  predicate IsGpu(word: string) {
    IsNumbered("GPU", word)
  }

  /** The words of every line that has any. */
  function TableLines(lines: seq<string>): seq<seq<string>> {
    if lines == [] then []
    else (if Words(lines[0]) == [] then [] else [Words(lines[0])]) + TableLines(lines[1..])
  }

  function LinesOf(text: string): seq<seq<string>> {
    var split := SplitBy(text, "\n");
    TableLines(split.parts + [split.rest])
  }

  /** The indices of the GPU columns named in a header. */
  function Columns(header: seq<string>): seq<nat> {
    if header == [] then []
    else (if IsGpu(header[0]) then [Number("GPU", header[0])] else []) + Columns(header[1..])
  }

  datatype Row = Row(index: nat, cells: seq<string>)

  /** The lines that start with a GPU name and have cells after it. */
  function Rows(lines: seq<seq<string>>): seq<Row> {
    if lines == [] then []
    else
      (if 2 <= |lines[0]| && IsGpu(lines[0][0]) then [Row(Number("GPU", lines[0][0]), lines[0][1..])] else [])
      + Rows(lines[1..])
  }

  // ---------- The matrix as a list of edges ----------

  type CellTest = string -> Option<Mark>

  function Edge(a: nat, b: nat, mark: Mark): Link {
    if a <= b then Link(a, b, mark) else Link(b, a, mark)
  }

  /** The edge a cell stands for, if any. */
  function CellEdge(test: CellTest, row: nat, col: nat, cell: string): seq<Link> {
    if row == col then []
    else match test(cell) case None => [] case Some(mark) => [Edge(row, col, mark)]
  }

  function RowEdges(test: CellTest, cols: seq<nat>, row: Row, i: nat): seq<Link>
    decreases |cols| - i
  {
    if i < |cols| && i < |row.cells|
      then CellEdge(test, row.index, cols[i], row.cells[i]) + RowEdges(test, cols, row, i + 1)
    else []
  }

  /** All linked cells, row by row. */
  function MatrixEdges(test: CellTest, cols: seq<nat>, rows: seq<Row>): seq<Link> {
    if rows == [] then [] else RowEdges(test, cols, rows[0], 0) + MatrixEdges(test, cols, rows[1..])
  }

  predicate SamePair(l: Link, m: Link) {
    l.from == m.from && l.to == m.to
  }

  predicate HasPair(links: seq<Link>, l: Link) {
    exists k | k in links :: SamePair(k, l)
  }

  /** The first link of each pair, in order. */
  function FirstOfEach(acc: seq<Link>, links: seq<Link>): seq<Link>
    decreases |links|
  {
    if links == [] then acc
    else FirstOfEach(if HasPair(acc, links[0]) then acc else acc + [links[0]], links[1..])
  }

  function Key(l: Link): string {
    Decimal.Print(l.from) + "-" + Decimal.Print(l.to)
  }

  /** The string keys of the `seen` set tell pairs apart. */
  lemma KeysTellPairsApart(l: Link, m: Link)
    ensures Key(l) == Key(m) <==> SamePair(l, m)
  {
    if Key(l) == Key(m) {
      var a, b := Decimal.Print(l.from), Decimal.Print(m.from);
      var c, d := Decimal.Print(l.to), Decimal.Print(m.to);
      assert Key(l)[|a|] == '-' && Key(m)[|b|] == '-';
      assert forall i | 0 <= i < |a| :: Key(l)[i] == a[i] && a[i] in a;
      assert forall i | 0 <= i < |b| :: Key(m)[i] == b[i] && b[i] in b;
      assert |a| == |b|;
      assert Key(l)[..|a|] == a && Key(m)[..|b|] == b;
      assert Key(l)[|a| + 1..] == c && Key(m)[|b| + 1..] == d;
      Decimal.ValueOfPrint(l.from);
      Decimal.ValueOfPrint(m.from);
      Decimal.ValueOfPrint(l.to);
      Decimal.ValueOfPrint(m.to);
    }
  }

  ghost predicate Remembers(seen: set<string>, links: seq<Link>) {
    forall l :: Key(l) in seen <==> HasPair(links, l)
  }

  lemma RememberOneMore(seen: set<string>, links: seq<Link>, edge: Link)
    requires Remembers(seen, links)
    ensures Remembers(seen + {Key(edge)}, links + [edge])
  {
    forall l ensures Key(l) in seen + {Key(edge)} <==> HasPair(links + [edge], l) {
      KeysTellPairsApart(edge, l);
      if HasPair(links, l) { PrefixHasPair(links, links + [edge], l); }
      assert edge in links + [edge];
    }
  }

  /** The inner loop: the cells of one row. */
  method ScanRow(test: CellTest, cols: seq<nat>, row: Row, links0: seq<Link>, seen0: set<string>,
                 ghost later: seq<Link>)
    returns (links: seq<Link>, seen: set<string>)
    requires Remembers(seen0, links0)
    ensures Remembers(seen, links)
    ensures FirstOfEach(links0, RowEdges(test, cols, row, 0) + later) == FirstOfEach(links, later)
  {
    hide Remembers, Key, HasPair;
    links, seen := links0, seen0;
    var i := 0;
    while i < |cols| && i < |row.cells|
      invariant 0 <= i
      invariant Remembers(seen, links)
      invariant FirstOfEach(links0, RowEdges(test, cols, row, 0) + later)
          == FirstOfEach(links, RowEdges(test, cols, row, i) + later)
    {
      var colIdx, cell := cols[i], row.cells[i];
      ghost var rest := RowEdges(test, cols, row, i + 1) + later;
      assert RowEdges(test, cols, row, i) + later == CellEdge(test, row.index, colIdx, cell) + rest;
      assert [] + rest == rest;
      i := i + 1;
      if row.index == colIdx {
        continue;
      }
      var mark := test(cell);
      if mark.None? {
        continue;
      }
      var edge := Edge(row.index, colIdx, mark.value);
      var key := Key(edge);
      assert ([edge] + rest)[1..] == rest;
      assert key in seen <==> HasPair(links, edge) by { RecallPair(seen, links, edge); }
      if key in seen {
        continue;
      }
      RememberOneMore(seen, links, edge);
      seen := seen + {key};
      links := links + [edge];
    }
    assert [] + later == later;
  }

  lemma RecallPair(seen: set<string>, links: seq<Link>, l: Link)
    requires Remembers(seen, links)
    ensures Key(l) in seen <==> HasPair(links, l)
  {
  }

  /** The doubly nested loop both parsers run over rows and cells. */
  method ParseMatrix(test: CellTest, cols: seq<nat>, rows: seq<Row>) returns (links: seq<Link>)
    ensures links == MatrixLinks(test, cols, rows)
  {
    links := [];
    var seen: set<string> := {};
    for r := 0 to |rows|
      invariant Remembers(seen, links)
      invariant FirstOfEach([], MatrixEdges(test, cols, rows)) == FirstOfEach(links, MatrixEdges(test, cols, rows[r..]))
    {
      assert rows[r..][0] == rows[r] && rows[r..][1..] == rows[r + 1..];
      links, seen := ScanRow(test, cols, rows[r], links, seen, MatrixEdges(test, cols, rows[r + 1..]));
    }
  }

  function NvidiaCell(cell: string): Option<Mark> {
    if IsNumbered("NV", cell) then Some(NvLink(Upper(cell))) else None
  }

  /** The links of a matrix: the first linked cell of each pair. */
  function MatrixLinks(test: CellTest, cols: seq<nat>, rows: seq<Row>): seq<Link> {
    FirstOfEach([], MatrixEdges(test, cols, rows))
  }

  /** The links of the table whose header is the first line with any words. */
  function NvidiaLinks(text: string): seq<Link> {
    var lines := LinesOf(text);
    if lines == [] || Columns(lines[0]) == [] then [] else MatrixLinks(NvidiaCell, Columns(lines[0]), Rows(lines[1..]))
  }

  method ParseNvidiaTopo(text: string) returns (links: seq<Link>)
    ensures links == NvidiaLinks(text)
  {
    var lines := LinesOf(text);
    if lines == [] {
      return [];
    }
    var cols := Columns(lines[0]);
    if cols == [] {
      return [];
    }
    links := ParseMatrix(NvidiaCell, cols, Rows(lines[1..]));
  }

  const XGMI_WEIGHT_THRESHOLD := 30

  /** `Number.parseInt(s, 10)`; None for NaN. */
  function ParseInt(s: string): Option<int> {
    var signed := s != "" && (s[0] == '-' || s[0] == '+');
    var digits := if signed then s[1..] else s;
    var n := Decimal.DigitPrefix(digits);
    var value: int := Decimal.Value(digits[..n]);
    if n == 0 then None else if signed && s[0] == '-' then Some(-value) else Some(value)
  }

  function RocmCell(threshold: int): CellTest {
    (cell: string) => match ParseInt(cell)
      case None => None
      case Some(weight) => if weight <= 0 || threshold < weight then None else Some(Xgmi(weight))
  }

  /** A line that opens with two column names, the second possibly followed by other characters. */
  predicate IsRocmHeader(words: seq<string>) {
    && 2 <= |words|
    && 3 < |words[0]| && words[0][..3] == "GPU" && Decimal.AllDigits(words[0][3..])
    && 3 < |words[1]| && words[1][..3] == "GPU" && Decimal.IsDigit(words[1][3])
  }

  /** The first line that is a header, or the number of lines. */
  function FirstHeader(lines: seq<seq<string>>): (h: nat)
    ensures h <= |lines| && (h < |lines| ==> IsRocmHeader(lines[h])) && forall k | 0 <= k < h :: !IsRocmHeader(lines[k])
  {
    if lines == [] || IsRocmHeader(lines[0]) then 0 else 1 + FirstHeader(lines[1..])
  }

  /** The links of the table below the first header line. */
  function RocmLinks(text: string, threshold: int): seq<Link> {
    var lines := LinesOf(text);
    var h := FirstHeader(lines);
    if h == |lines| then [] else MatrixLinks(RocmCell(threshold), Columns(lines[h]), Rows(lines[h + 1..]))
  }

  method ParseRocmTopo(text: string, threshold: int := XGMI_WEIGHT_THRESHOLD) returns (links: seq<Link>)
    ensures links == RocmLinks(text, threshold)
  {
    hide IsRocmHeader, LinesOf;
    var lines := LinesOf(text);
    var headerIdx := 0;
    while headerIdx < |lines| && !IsRocmHeader(lines[headerIdx])
      invariant 0 <= headerIdx <= |lines|
      invariant forall k | 0 <= k < headerIdx :: !IsRocmHeader(lines[k])
    {
      headerIdx := headerIdx + 1;
    }
    if headerIdx == |lines| {
      return [];
    }
    links := ParseMatrix(RocmCell(threshold), Columns(lines[headerIdx]), Rows(lines[headerIdx + 1..]));
  }

  // ---------- What the edge list is ----------

  /** Distinct pairs, each written low to high. */
  predicate IsEdgeList(links: seq<Link>) {
    && (forall l | l in links :: l.from < l.to)
    && (forall i, j | 0 <= i < j < |links| :: !SamePair(links[i], links[j]))
  }

  lemma {:induction false} FirstOfEachIsEdgeList(acc: seq<Link>, links: seq<Link>)
    requires IsEdgeList(acc) && forall l | l in links :: l.from < l.to
    ensures IsEdgeList(FirstOfEach(acc, links))
    decreases |links|
  {
    if links != [] {
      assert links[0] in links;
      assert forall i | 0 <= i < |acc| :: acc[i] in acc;
      FirstOfEachIsEdgeList(if HasPair(acc, links[0]) then acc else acc + [links[0]], links[1..]);
    }
  }

  /** Deduplication drops no pair, and keeps only links that were there. */
  lemma {:induction false} FirstOfEachKeepsPairs(acc: seq<Link>, links: seq<Link>)
    ensures var r := FirstOfEach(acc, links);
            && acc <= r
            && (forall l | l in r :: l in acc || l in links)
            && (forall l | l in links :: HasPair(r, l))
    decreases |links|
  {
    if links != [] {
      var acc' := if HasPair(acc, links[0]) then acc else acc + [links[0]];
      FirstOfEachKeepsPairs(acc', links[1..]);
      var r := FirstOfEach(acc, links);
      if acc' != acc { assert links[0] in acc' && SamePair(links[0], links[0]); }
      assert HasPair(acc', links[0]);
      PrefixHasPair(acc', r, links[0]);
    }
  }

  lemma PrefixHasPair(a: seq<Link>, b: seq<Link>, l: Link)
    requires a <= b && HasPair(a, l)
    ensures HasPair(b, l)
  {
    var k :| k in a && SamePair(k, l);
    assert k in b;
  }

  /** A linked cell of the matrix: its row, column and mark. */
  ghost predicate Linked(test: CellTest, cols: seq<nat>, rows: seq<Row>, l: Link) {
    exists r, i | 0 <= r < |rows| && 0 <= i < |cols| && i < |rows[r].cells| ::
      && rows[r].index != cols[i]
      && test(rows[r].cells[i]).Some?
      && l == Edge(rows[r].index, cols[i], test(rows[r].cells[i]).value)
  }

  lemma {:induction false} RowEdgesAre(test: CellTest, cols: seq<nat>, row: Row, i: nat, l: Link)
    ensures l in RowEdges(test, cols, row, i) <==>
            exists j | i <= j < |cols| && j < |row.cells| ::
              row.index != cols[j] && test(row.cells[j]).Some?
                  && l == Edge(row.index, cols[j], test(row.cells[j]).value)
    decreases |cols| - i
  {
    if i < |cols| && i < |row.cells| {
      RowEdgesAre(test, cols, row, i + 1, l);
    }
  }

  lemma {:induction false} MatrixEdgesAre(test: CellTest, cols: seq<nat>, rows: seq<Row>, l: Link)
    ensures l in MatrixEdges(test, cols, rows) <==> Linked(test, cols, rows, l)
  {
    if rows != [] {
      hide Linked, Edge;
      RowEdgesAre(test, cols, rows[0], 0, l);
      MatrixEdgesAre(test, cols, rows[1..], l);
      LinkedSplits(test, cols, rows, l);
    }
  }

  ghost predicate LinkedAt(test: CellTest, cols: seq<nat>, row: Row, l: Link) {
    exists i | 0 <= i < |cols| && i < |row.cells| ::
      row.index != cols[i] && test(row.cells[i]).Some? && l == Edge(row.index, cols[i], test(row.cells[i]).value)
  }

  lemma LinkedSplits(test: CellTest, cols: seq<nat>, rows: seq<Row>, l: Link)
    requires rows != []
    ensures Linked(test, cols, rows, l) <==> LinkedAt(test, cols, rows[0], l) || Linked(test, cols, rows[1..], l)
  {
    LinkedByRow(test, cols, rows, l);
    LinkedByRow(test, cols, rows[1..], l);
    hide Linked, LinkedAt;
    assert forall r | 0 < r < |rows| :: rows[r] == rows[1..][r - 1];
    if Linked(test, cols, rows[1..], l) {
      var r :| 0 <= r < |rows[1..]| && LinkedAt(test, cols, rows[1..][r], l);
      assert LinkedAt(test, cols, rows[r + 1], l);
    }
  }

  lemma LinkedByRow(test: CellTest, cols: seq<nat>, rows: seq<Row>, l: Link)
    ensures Linked(test, cols, rows, l) <==> exists r | 0 <= r < |rows| :: LinkedAt(test, cols, rows[r], l)
  {
    hide Edge;
  }

  /** The parsed list is an edge list, every link of it is a linked cell, and no linked cell's pair is
      missing. */
  lemma ParsedLinks(test: CellTest, cols: seq<nat>, rows: seq<Row>)
    ensures var links := MatrixLinks(test, cols, rows);
            && IsEdgeList(links)
            && (forall l | l in links :: Linked(test, cols, rows, l))
            && (forall l | Linked(test, cols, rows, l) :: HasPair(links, l))
  {
    var edges := MatrixEdges(test, cols, rows);
    forall l ensures l in edges <==> Linked(test, cols, rows, l) { MatrixEdgesAre(test, cols, rows, l); }
    assert forall l | l in edges :: l.from < l.to;
    FirstOfEachIsEdgeList([], edges);
    FirstOfEachKeepsPairs([], edges);
  }

  /** A link between two different things, low to high. */
  predicate Joins(l: Link, a: nat, b: nat) {
    l.from < l.to && ((l.from == a && l.to == b) || (l.from == b && l.to == a))
  }

  /** A linked cell of one row joins the row and the column, with the mark of the cell. */
  lemma LinkedAtIs(test: CellTest, cols: seq<nat>, row: Row, l: Link)
    ensures LinkedAt(test, cols, row, l)
        <==> exists i | 0 <= i < |cols| && i < |row.cells| ::
               Joins(l, row.index, cols[i]) && test(row.cells[i]) == Some(l.mark)
  {
  }

  // ---------- Which cell names a link ----------

  /** The i-th cell of a row is linked, to the given effect. */
  predicate CellGives(test: CellTest, cols: seq<nat>, row: Row, i: nat, l: Link) {
    i < |cols| && i < |row.cells| && Joins(l, row.index, cols[i]) && test(row.cells[i]) == Some(l.mark)
  }

  /** The i-th cell of a row joins the pair of a link. */
  predicate CellJoins(test: CellTest, cols: seq<nat>, row: Row, i: nat, l: Link) {
    i < |cols| && i < |row.cells| && Joins(l, row.index, cols[i]) && test(row.cells[i]).Some?
  }

  /** Cells that do not join a pair leave room for its link. */
  lemma {:induction false} RowPasses(test: CellTest, cols: seq<nat>, row: Row, i: nat, acc: seq<Link>,
                                     later: seq<Link>, l: Link)
    returns (acc': seq<Link>)
    requires l.from < l.to && !HasPair(acc, l) && forall j: nat | i <= j :: !CellJoins(test, cols, row, j, l)
    ensures !HasPair(acc', l) && FirstOfEach(acc, RowEdges(test, cols, row, i) + later) == FirstOfEach(acc', later)
    decreases |cols| - i
  {
    if i < |cols| && i < |row.cells| {
      var first, rest := CellEdge(test, row.index, cols[i], row.cells[i]), RowEdges(test, cols, row, i + 1);
      assert first + rest + later == first + (rest + later);
      assert !CellJoins(test, cols, row, i, l);
      acc' := acc;
      if first != [] {
        assert (first + (rest + later))[0] == first[0] && (first + (rest + later))[1..] == rest + later;
        acc' := if HasPair(acc, first[0]) then acc else acc + [first[0]];
      } else {
        assert first + (rest + later) == rest + later;
      }
      acc' := RowPasses(test, cols, row, i + 1, acc', later, l);
    } else {
      acc' := acc;
      assert [] + later == later;
    }
  }

  lemma {:induction false} RowNames(test: CellTest, cols: seq<nat>, row: Row, i: nat, k: nat, acc: seq<Link>,
                                    later: seq<Link>, l: Link)
    requires i <= k && CellGives(test, cols, row, k, l) && !HasPair(acc, l)
    requires forall j: nat | i <= j < k :: !CellJoins(test, cols, row, j, l)
    ensures l in FirstOfEach(acc, RowEdges(test, cols, row, i) + later)
    decreases k - i
  {
    var first, rest := CellEdge(test, row.index, cols[i], row.cells[i]), RowEdges(test, cols, row, i + 1);
    assert first + rest + later == first + (rest + later);
    var acc' := acc;
    if first != [] {
      assert (first + (rest + later))[0] == first[0] && (first + (rest + later))[1..] == rest + later;
      acc' := if HasPair(acc, first[0]) then acc else acc + [first[0]];
    } else {
      assert first + (rest + later) == rest + later;
    }
    if i == k {
      assert first == [l];
      FirstOfEachKeepsPairs(acc', rest + later);
      assert l in acc';
    } else {
      assert !CellJoins(test, cols, row, i, l);
      RowNames(test, cols, row, i + 1, k, acc', later, l);
    }
  }

  lemma {:induction false} FirstCellFrom(test: CellTest, cols: seq<nat>, rows: seq<Row>, r: nat, i: nat,
                                         acc: seq<Link>, l: Link)
    requires r < |rows| && CellGives(test, cols, rows[r], i, l) && !HasPair(acc, l)
    requires forall q: nat, j: nat | q < r || (q == r && j < i) :: !CellJoins(test, cols, rows[q], j, l)
    ensures l in FirstOfEach(acc, MatrixEdges(test, cols, rows))
    decreases r
  {
    hide CellJoins, RowEdges, HasPair;
    var later := MatrixEdges(test, cols, rows[1..]);
    if r == 0 {
      RowNames(test, cols, rows[0], 0, i, acc, later, l);
    } else {
      var acc' := RowPasses(test, cols, rows[0], 0, acc, later, l);
      assert forall q | 0 <= q < |rows| - 1 :: rows[1..][q] == rows[q + 1];
      FirstCellFrom(test, cols, rows[1..], r - 1, i, acc', l);
    }
  }

  /** Where two rows name a pair differently, the first linked cell, row by row, gives the link its mark. */
  lemma FirstCellNamesLink(test: CellTest, cols: seq<nat>, rows: seq<Row>, r: nat, i: nat, l: Link)
    requires r < |rows| && CellGives(test, cols, rows[r], i, l)
    requires forall q: nat, j: nat | q < r || (q == r && j < i) :: !CellJoins(test, cols, rows[q], j, l)
    ensures l in MatrixLinks(test, cols, rows)
  {
    FirstCellFrom(test, cols, rows, r, i, [], l);
  }

  // ---------- Classification ----------

  datatype Kind = NoLinks | Pair | Mesh | AllToAll | Unknown

  function GpuIds(links: seq<Link>): set<nat> {
    if links == [] then {} else {links[0].from, links[0].to} + GpuIds(links[1..])
  }

  method Classify(links: seq<Link>) returns (topology: Kind)
    ensures topology == KindOf(links)
  {
    if |links| == 0 {
      return NoLinks;
    }
    var gpuIds: set<nat> := {};
    for i := 0 to |links|
      invariant GpuIds(links) == gpuIds + GpuIds(links[i..])
    {
      assert links[i..][1..] == links[i + 1..];
      gpuIds := gpuIds + {links[i].from};
      gpuIds := gpuIds + {links[i].to};
    }
    var n := |gpuIds|;
    var expectedAllToAll := if n >= 2 then n * (n - 1) / 2 else 0;
    topology := Unknown;
    if n == 2 {
      topology := Pair;
    } else if n > 2 && |links| >= expectedAllToAll {
      topology := AllToAll;
    } else if n > 2 {
      topology := Mesh;
    }
  }

  /** `detectNvlink`, given what the tool printed, if anything. */
  method DetectNvlink(out: Option<string>) returns (available: bool, topology: Kind, links: seq<Link>)
    ensures links == (if out.Some? && out.value != "" then NvidiaLinks(out.value) else [])
    ensures topology == KindOf(links) && (available <==> links != [])
  {
    if out.None? || out.value == "" {
      return false, NoLinks, [];
    }
    links := ParseNvidiaTopo(out.value);
    topology := Classify(links);
    available := |links| != 0;
  }

  /** `detectXgmi`, given what the tool printed, if anything: links weigh at most 30. */
  method DetectXgmi(out: Option<string>) returns (available: bool, topology: Kind, links: seq<Link>)
    ensures links == (if out.Some? && out.value != "" then RocmLinks(out.value, 30) else [])
    ensures topology == KindOf(links) && (available <==> links != [])
  {
    if out.None? || out.value == "" {
      return false, NoLinks, [];
    }
    links := ParseRocmTopo(out.value);
    topology := Classify(links);
    available := |links| != 0;
  }

  function KindOf(links: seq<Link>): Kind {
    var n := |GpuIds(links)|;
    if links == [] then NoLinks
    else if n == 2 then Pair
    else if 2 < n then if n * (n - 1) / 2 <= |links| then AllToAll else Mesh
    else Unknown
  }

  predicate Joined(links: seq<Link>, a: nat, b: nat) {
    exists l | l in links :: l.from == a && l.to == b
  }

  ghost predicate Complete(links: seq<Link>) {
    forall a, b | a in GpuIds(links) && b in GpuIds(links) && a < b :: Joined(links, a, b)
  }

  // ---------- Counting pairs ----------

  function PairsOf(s: set<nat>): set<(nat, nat)> {
    set a, b | a in s && b in s && a < b :: (a, b)
  }

  lemma {:induction false} HasMax(s: set<nat>) returns (m: nat)
    requires s != {}
    ensures m in s && forall x | x in s :: x <= m
    decreases |s|
  {
    var x :| x in s;
    m := x;
    if s != {x} {
      var k := HasMax(s - {x});
      m := if x < k then k else x;
      assert forall y | y in s :: y == x || y in s - {x};
    } else {
      assert forall y | y in s :: y in {x};
    }
  }

  function Spokes(s: set<nat>, m: nat): set<(nat, nat)> {
    set a | a in s :: (a, m)
  }

  lemma {:induction false} SpokesCount(s: set<nat>, m: nat)
    ensures |Spokes(s, m)| == |s|
    decreases |s|
  {
    if s != {} {
      var x :| x in s;
      SpokesCount(s - {x}, m);
      assert Spokes(s, m) == Spokes(s - {x}, m) + {(x, m)};
      assert (x, m) !in Spokes(s - {x}, m);
    }
  }

  lemma PairsStep(s: set<nat>, m: nat)
    requires m in s && forall x | x in s :: x <= m
    ensures PairsOf(s) == PairsOf(s - {m}) + Spokes(s - {m}, m)
    ensures PairsOf(s - {m}) !! Spokes(s - {m}, m)
  {
    var t := s - {m};
    forall p | p in PairsOf(s) ensures p in PairsOf(t) + Spokes(t, m) {
      if p.1 == m { assert p.0 in t; }
    }
  }

  /** n things have n(n-1)/2 pairs. */
  lemma {:induction false} PairsCount(s: set<nat>)
    ensures 2 * |PairsOf(s)| == |s| * (|s| - 1)
    decreases |s|
  {
    hide Spokes, PairsOf;
    if s == {} {
      NoPairs();
    } else {
      var m := HasMax(s);
      PairsCount(s - {m});
      SpokesCount(s - {m}, m);
      PairsStep(s, m);
      AddUp(PairsOf(s - {m}), Spokes(s - {m}, m), |s - {m}|);
      assert |s| == |s - {m}| + 1;
    }
  }

  lemma NoPairs()
    ensures PairsOf({}) == {}
  {
  }

  lemma AddUp<T>(a: set<T>, b: set<T>, n: nat)
    requires a !! b && 2 * |a| == n * (n - 1) && |b| == n
    ensures 2 * |a + b| == (n + 1) * n
  {
    assert |a + b| == |a| + |b|;
    assert (n + 1) * n == n * (n - 1) + 2 * n;
  }

  function PairSet(links: seq<Link>): set<(nat, nat)> {
    set l | l in links :: (l.from, l.to)
  }

  lemma {:induction false} PairSetCount(links: seq<Link>)
    requires forall i, j | 0 <= i < j < |links| :: !SamePair(links[i], links[j])
    ensures |PairSet(links)| == |links|
  {
    if links != [] {
      PairSetCount(links[1..]);
      assert PairSet(links) == {(links[0].from, links[0].to)} + PairSet(links[1..]);
      assert (links[0].from, links[0].to) !in PairSet(links[1..]);
    }
  }

  lemma {:induction false} IdsOfLinks(links: seq<Link>)
    ensures forall l | l in links :: l.from in GpuIds(links) && l.to in GpuIds(links)
  {
    if links != [] { IdsOfLinks(links[1..]); }
  }

  lemma SubsetCount<T>(a: set<T>, b: set<T>)
    requires a <= b
    ensures |a| <= |b|
    ensures |a| == |b| ==> a == b
  {
    assert b == a + (b - a);
  }

  /** At most n(n-1)/2 links, and exactly that many if and only if every pair is linked. */
  lemma LinksCount(links: seq<Link>)
    requires IsEdgeList(links)
    ensures var n := |GpuIds(links)|;
            && 2 * |links| <= n * (n - 1)
            && (2 * |links| == n * (n - 1) <==> Complete(links))
  {
    var ids := GpuIds(links);
    PairsCount(ids);
    PairSetCount(links);
    IdsOfLinks(links);
    assert PairSet(links) <= PairsOf(ids);
    SubsetCount(PairSet(links), PairsOf(ids));
    assert Complete(links) <==> PairsOf(ids) <= PairSet(links) by {
      assert forall a: nat, b: nat :: Joined(links, a, b) <==> (a, b) in PairSet(links);
      if Complete(links) {
        assert forall p | p in PairsOf(ids) :: Joined(links, p.0, p.1);
      }
      if PairsOf(ids) <= PairSet(links) {
        assert forall a, b | a in ids && b in ids && a < b :: (a, b) in PairsOf(ids);
      }
    }
    if PairsOf(ids) <= PairSet(links) { assert PairsOf(ids) == PairSet(links); }
  }

  /** The classification is sound and complete: `all-to-all` says that there are more than two linked
      GPUs and every two of them are linked, `mesh` that some two are not, `pair` that there are exactly
      two; `unknown` is never the answer. */
  lemma KindIsRight(links: seq<Link>)
    requires IsEdgeList(links)
    ensures var n := |GpuIds(links)|;
            && (KindOf(links) == NoLinks <==> links == [])
            && (KindOf(links) == Pair <==> n == 2)
            && (KindOf(links) == AllToAll <==> 2 < n && Complete(links))
            && (KindOf(links) == Mesh <==> 2 < n && !Complete(links))
            && KindOf(links) != Unknown
  {
    LinksCount(links);
    var n := |GpuIds(links)|;
    if links != [] {
      assert links[0] in links;
      IdsOfLinks(links);
      SubsetCount({links[0].from, links[0].to}, GpuIds(links));
    } else {
      assert n == 0;
    }
    HalfOf(n, |links|);
  }

  lemma HalfOf(n: nat, k: nat)
    requires 2 * k <= n * (n - 1)
    ensures n * (n - 1) / 2 <= k <==> 2 * k == n * (n - 1)
  {
    EvenProduct(n);
  }

  lemma {:induction false} EvenProduct(n: nat)
    ensures n * (n - 1) % 2 == 0
  {
    if n != 0 {
      EvenProduct(n - 1);
      assert n * (n - 1) == (n - 1) * (n - 1 - 1) + 2 * (n - 1);
    }
  }

  /** The verdict in terms of the matrix itself: `all-to-all` exactly when more than two GPUs are linked
      and every two of them have a linked cell in one row or the other. */
  lemma MatrixKind(test: CellTest, cols: seq<nat>, rows: seq<Row>)
    ensures var links := MatrixLinks(test, cols, rows);
            var ids := GpuIds(links);
            && KindOf(links) != Unknown
            && (KindOf(links) == AllToAll <==>
                  2 < |ids| && forall a, b | a in ids && b in ids && a < b ::
                    exists mark :: Linked(test, cols, rows, Link(a, b, mark)))
  {
    hide Linked, MatrixLinks, KindOf, GpuIds;
    var links := MatrixLinks(test, cols, rows);
    ParsedLinks(test, cols, rows);
    KindIsRight(links);
    forall a: nat, b: nat ensures Joined(links, a, b) <==> exists mark :: Linked(test, cols, rows, Link(a, b, mark)) {
      if Joined(links, a, b) {
        var l :| l in links && l.from == a && l.to == b;
        assert Linked(test, cols, rows, Link(a, b, l.mark));
      }
      if exists mark :: Linked(test, cols, rows, Link(a, b, mark)) {
        var mark :| Linked(test, cols, rows, Link(a, b, mark));
        assert HasPair(links, Link(a, b, mark));
      }
    }
  }

  // ---------- The GPUs of the table, linked or not ----------

  /** All GPUs a table names, in its header or its rows. */
  function TableGpus(cols: seq<nat>, rows: seq<Row>): set<nat> {
    (set c | c in cols) + (set row | row in rows :: row.index)
  }

  lemma {:induction false} IdsComeFromLinks(links: seq<Link>, id: nat)
    requires id in GpuIds(links)
    ensures exists l :: l in links && (l.from == id || l.to == id)
  {
    if id != links[0].from && id != links[0].to {
      IdsComeFromLinks(links[1..], id);
      var l :| l in links[1..] && (l.from == id || l.to == id);
      assert l in links;
    } else {
      assert links[0] in links;
    }
  }

  lemma LinkedGpusAreInTable(test: CellTest, cols: seq<nat>, rows: seq<Row>)
    ensures GpuIds(MatrixLinks(test, cols, rows)) <= TableGpus(cols, rows)
  {
    hide MatrixLinks, GpuIds, TableGpus, Linked, IsEdgeList, HasPair;
    var links := MatrixLinks(test, cols, rows);
    ParsedLinks(test, cols, rows);
    forall id | id in GpuIds(links) ensures id in TableGpus(cols, rows) {
      IdsComeFromLinks(links, id);
      var l :| l in links && (l.from == id || l.to == id);
      LinkInTable(test, cols, rows, l);
    }
  }

  lemma LinkInTable(test: CellTest, cols: seq<nat>, rows: seq<Row>, l: Link)
    requires Linked(test, cols, rows, l)
    ensures l.from in TableGpus(cols, rows) && l.to in TableGpus(cols, rows)
  {
    var r, i :| 0 <= r < |rows| && 0 <= i < |cols| && i < |rows[r].cells| && rows[r].index != cols[i]
                && test(rows[r].cells[i]).Some? && l == Edge(rows[r].index, cols[i], test(rows[r].cells[i]).value);
    assert rows[r] in rows && cols[i] in cols;
  }

  lemma CellIsLinked(test: CellTest, cols: seq<nat>, rows: seq<Row>, r: nat, i: nat)
    requires r < |rows| && i < |cols| && i < |rows[r].cells| && rows[r].index != cols[i] && test(rows[r].cells[i]).Some?
    ensures Linked(test, cols, rows, Edge(rows[r].index, cols[i], test(rows[r].cells[i]).value))
  {
  }

  ghost predicate EveryPairLinked(links: seq<Link>, gpus: set<nat>) {
    forall a, b | a in gpus && b in gpus && a < b :: Joined(links, a, b)
  }

  /** Of more than two GPUs every pair is linked if and only if the verdict is `all-to-all` and none of them
      is without a link: the verdict itself speaks of the linked ones only. */
  lemma AllPairsLinkedIff(links: seq<Link>, gpus: set<nat>)
    requires IsEdgeList(links) && GpuIds(links) <= gpus && 2 < |gpus|
    ensures EveryPairLinked(links, gpus) <==> KindOf(links) == AllToAll && gpus == GpuIds(links)
  {
    hide KindOf;
    KindIsRight(links);
    IdsOfLinks(links);
    if EveryPairLinked(links, gpus) {
      forall a | a in gpus ensures a in GpuIds(links) {
        var b :| b in gpus && b != a by { AnotherOne(gpus, a); }
        var low, high := if a < b then a else b, if a < b then b else a;
        assert Joined(links, low, high);
      }
      assert gpus == GpuIds(links);
    }
  }

  lemma AnotherOne(gpus: set<nat>, a: nat)
    requires 2 < |gpus| && a in gpus
    ensures exists b :: b in gpus && b != a
  {
    assert |gpus - {a}| == |gpus| - 1;
    var b :| b in gpus - {a};
  }

  /** The same for the GPUs of a table. */
  lemma TableVerdict(test: CellTest, cols: seq<nat>, rows: seq<Row>)
    requires 2 < |TableGpus(cols, rows)|
    ensures var links, gpus := MatrixLinks(test, cols, rows), TableGpus(cols, rows);
            EveryPairLinked(links, gpus) <==> KindOf(links) == AllToAll && gpus == GpuIds(links)
  {
    hide MatrixLinks, GpuIds, KindOf, TableGpus, IsEdgeList, EveryPairLinked;
    ParsedLinks(test, cols, rows);
    LinkedGpusAreInTable(test, cols, rows);
    AllPairsLinkedIff(MatrixLinks(test, cols, rows), TableGpus(cols, rows));
  }

  /** Four GPUs, three of them linked with each other, the fourth with none: `all-to-all`. */
  lemma LoneGpuIsOverlooked()
    ensures var nv, sys, x := "NV2", "SYS", "X";
            var cols := [0, 1, 2, 3];
            var rows := [Row(0, [x, nv, nv, sys]), Row(1, [nv, x, nv, sys]), Row(2, [nv, nv, x, sys]),
                         Row(3, [sys, sys, sys, x])];
            var links := MatrixLinks(NvidiaCell, cols, rows);
            && KindOf(links) == AllToAll
            && TableGpus(cols, rows) == {0, 1, 2, 3} && !EveryPairLinked(links, TableGpus(cols, rows))
  {
    var nv, sys, x := "NV2", "SYS", "X";
    var cols := [0, 1, 2, 3];
    var rows := [Row(0, [x, nv, nv, sys]), Row(1, [nv, x, nv, sys]), Row(2, [nv, nv, x, sys]),
                 Row(3, [sys, sys, sys, x])];
    CellsOfExample();
    ThreeAreLinked(cols, rows, nv, sys, x);
    ExampleGpus(cols, rows);
    TableVerdict(NvidiaCell, cols, rows);
  }

  lemma ExampleGpus(cols: seq<nat>, rows: seq<Row>)
    requires cols == [0, 1, 2, 3] && |rows| == 4 && forall r | 0 <= r < 4 :: rows[r].index == r
    ensures TableGpus(cols, rows) == {0, 1, 2, 3} && |TableGpus(cols, rows)| == 4
  {
    assert cols[0] == 0 && cols[1] == 1 && cols[2] == 2 && cols[3] == 3;
    assert TableGpus(cols, rows) == {0, 1, 2, 3};
  }

  lemma CellsOfExample()
    ensures NvidiaCell("NV2") == Some(NvLink("NV2")) && NvidiaCell("SYS").None? && NvidiaCell("X").None?
  {
    assert "NV2"[..2] == "NV" && "NV2"[2..] == "2" && Upper("NV") == "NV" && Upper("NV2") == "NV2";
    assert "SYS"[..2] == "SY" && Upper("SY")[0] == 'S';
  }

  ghost predicate IsExample(cols: seq<nat>, rows: seq<Row>, nv: string, sys: string, x: string) {
    && NvidiaCell(nv) == Some(NvLink(nv)) && NvidiaCell(sys).None? && NvidiaCell(x).None?
    && cols == [0, 1, 2, 3]
    && rows == [Row(0, [x, nv, nv, sys]), Row(1, [nv, x, nv, sys]), Row(2, [nv, nv, x, sys]),
                Row(3, [sys, sys, sys, x])]
  }

  lemma LinkedInExample(cols: seq<nat>, rows: seq<Row>, nv: string, sys: string, x: string)
    requires IsExample(cols, rows, nv, sys, x)
    ensures Linked(NvidiaCell, cols, rows, Link(0, 1, NvLink(nv)))
    ensures Linked(NvidiaCell, cols, rows, Link(0, 2, NvLink(nv)))
    ensures Linked(NvidiaCell, cols, rows, Link(1, 2, NvLink(nv)))
  {
    hide NvidiaCell, Linked;
    CellIsLinked(NvidiaCell, cols, rows, 0, 1);
    CellIsLinked(NvidiaCell, cols, rows, 0, 2);
    CellIsLinked(NvidiaCell, cols, rows, 1, 2);
  }

  lemma OnlyThreeLinked(cols: seq<nat>, rows: seq<Row>, nv: string, sys: string, x: string, l: Link)
    requires IsExample(cols, rows, nv, sys, x) && Linked(NvidiaCell, cols, rows, l)
    ensures l.from in {0, 1, 2} && l.to in {0, 1, 2}
  {
    hide NvidiaCell;
    var r, i :| 0 <= r < |rows| && 0 <= i < |cols| && i < |rows[r].cells| && rows[r].index != cols[i]
                && NvidiaCell(rows[r].cells[i]).Some?
                     && l == Edge(rows[r].index, cols[i], NvidiaCell(rows[r].cells[i]).value);
  }

  lemma ThreeAreLinked(cols: seq<nat>, rows: seq<Row>, nv: string, sys: string, x: string)
    requires IsExample(cols, rows, nv, sys, x)
    ensures var links := MatrixLinks(NvidiaCell, cols, rows); GpuIds(links) == {0, 1, 2} && KindOf(links) == AllToAll
  {
    hide NvidiaCell, MatrixLinks, GpuIds, KindOf, HasPair, IsEdgeList, Linked, IsExample;
    var links := MatrixLinks(NvidiaCell, cols, rows);
    LinkedInExample(cols, rows, nv, sys, x);
    ParsedLinks(NvidiaCell, cols, rows);
    PairGivesIds(links, Link(0, 1, NvLink(nv)));
    PairGivesIds(links, Link(0, 2, NvLink(nv)));
    PairGivesIds(links, Link(1, 2, NvLink(nv)));
    forall id | id in GpuIds(links) ensures id in {0, 1, 2} {
      IdsComeFromLinks(links, id);
      var l :| l in links && (l.from == id || l.to == id);
      OnlyThreeLinked(cols, rows, nv, sys, x, l);
    }
    assert GpuIds(links) == {0, 1, 2};
    MatrixKind(NvidiaCell, cols, rows);
    forall a, b | a in GpuIds(links) && b in GpuIds(links) && a < b
      ensures exists mark :: Linked(NvidiaCell, cols, rows, Link(a, b, mark))
    {
      assert Linked(NvidiaCell, cols, rows, Link(a, b, NvLink(nv)));
    }
  }

  lemma PairGivesIds(links: seq<Link>, l: Link)
    requires HasPair(links, l)
    ensures l.from in GpuIds(links) && l.to in GpuIds(links)
  {
    IdsOfLinks(links);
  }
}
