/** What the table readers of packages/gpu/src/interconnect.js make of the tables the vendor tools
    print: a printed matrix reads back as itself, whatever the spacing. */
module TopologyTables {
  import opened Options
  import opened Text
  import opened Topology
  import Decimal

  /** A word and the white space before it. */
  datatype Piece = Piece(gap: string, word: string)

  /** A line of a table: its words with their spacing, and white space at the end. */
  datatype Line = Line(pieces: seq<Piece>, tail: string)

  predicate Blank(s: string) {
    forall c | c in s :: IsSpace(c) && c != '\n'
  }

  predicate Solid(word: string) {
    word != "" && forall c | c in word :: !IsSpace(c)
  }

  /** Words are apart; only the first may stand at the very start. */
  predicate WellSpaced(line: Line) {
    && Blank(line.tail)
    && forall i | 0 <= i < |line.pieces| ::
         Blank(line.pieces[i].gap) && Solid(line.pieces[i].word) && (0 < i ==> line.pieces[i].gap != "")
  }

  function Printed(line: Line): string
    decreases |line.pieces|
  {
    if line.pieces == [] then line.tail
    else line.pieces[0].gap + line.pieces[0].word + Printed(line.(pieces := line.pieces[1..]))
  }

  function WordsIn(pieces: seq<Piece>): (words: seq<string>)
    ensures |words| == |pieces| && forall i | 0 <= i < |pieces| :: words[i] == pieces[i].word
  {
    seq(|pieces|, i requires 0 <= i < |pieces| => pieces[i].word)
  }

  lemma {:induction false} WordsSkipGap(gap: string, s: string)
    requires Blank(gap)
    ensures Words(gap + s) == Words(s)
  {
    if gap == "" {
      assert gap + s == s;
    } else {
      assert (gap + s)[0] == gap[0] && gap[0] in gap && (gap + s)[1..] == gap[1..] + s;
      WordsSkipGap(gap[1..], s);
    }
  }

  lemma {:induction false} WordEnds(word: string, s: string)
    requires (forall c | c in word :: !IsSpace(c)) && (s == "" || IsSpace(s[0]))
    ensures WordLength(word + s) == |word|
  {
    if word == "" {
      assert word + s == s;
    } else {
      assert (word + s)[0] == word[0] && word[0] in word && (word + s)[1..] == word[1..] + s;
      WordEnds(word[1..], s);
    }
  }

  /** A line splits into its words, whatever the spacing. */
  lemma {:induction false} WordsOfLine(line: Line)
    requires WellSpaced(line)
    ensures Words(Printed(line)) == WordsIn(line.pieces)
    decreases |line.pieces|
  {
    hide IsSpace;
    if line.pieces == [] {
      WordsSkipGap(line.tail, "");
      assert line.tail + "" == line.tail;
    } else {
      var p, later := line.pieces[0], line.(pieces := line.pieces[1..]);
      var rest := Printed(later);
      WordsOfLine(later);
      StartsBlank(line);
      WordsSkipGap(p.gap, p.word + rest);
      assert p.gap + (p.word + rest) == Printed(line);
      FirstWord(p.word, rest);
      assert [p.word] + WordsIn(later.pieces) == WordsIn(line.pieces);
    }
  }

  lemma StartsBlank(line: Line)
    requires WellSpaced(line) && line.pieces != []
    ensures var rest := Printed(line.(pieces := line.pieces[1..])); rest == "" || IsSpace(rest[0])
    ensures WellSpaced(line.(pieces := line.pieces[1..]))
  {
    hide IsSpace;
    var later := line.(pieces := line.pieces[1..]);
    if later.pieces == [] {
      assert line.tail != "" ==> line.tail[0] in line.tail;
    } else {
      var gap := line.pieces[1].gap;
      assert later.pieces[0].gap == gap && gap[0] in gap;
    }
  }

  lemma FirstWord(word: string, rest: string)
    requires Solid(word) && (rest == "" || IsSpace(rest[0]))
    ensures Words(word + rest) == [word] + Words(rest)
  {
    hide IsSpace;
    WordEnds(word, rest);
    assert word[0] in word && (word + rest)[0] == word[0];
    assert (word + rest)[..|word|] == word && (word + rest)[|word|..] == rest;
  }

  // ---------- A whole table ----------

  function PrintedLines(lines: seq<Line>): seq<string> {
    if lines == [] then [] else [Printed(lines[0])] + PrintedLines(lines[1..])
  }

  function WordLines(lines: seq<Line>): seq<seq<string>> {
    if lines == [] then []
    else (if lines[0].pieces == [] then [] else [WordsIn(lines[0].pieces)]) + WordLines(lines[1..])
  }

  lemma {:induction false} NoNewlineInLine(line: Line)
    requires WellSpaced(line)
    ensures '\n' !in Printed(line)
    decreases |line.pieces|
  {
    if line.pieces != [] {
      StartsBlank(line);
      NoNewlineInLine(line.(pieces := line.pieces[1..]));
      assert Solid(line.pieces[0].word) && Blank(line.pieces[0].gap);
      assert IsSpace('\n');
    }
  }

  lemma {:induction false} TableLinesOf(lines: seq<Line>)
    requires forall l | l in lines :: WellSpaced(l)
    ensures TableLines(PrintedLines(lines) + [""]) == WordLines(lines)
    ensures forall s | s in PrintedLines(lines) :: '\n' !in s
  {
    hide WellSpaced;
    if lines == [] {
      assert [] + [""] == [""] && [""][1..] == [];
    } else {
      assert lines[0] in lines;
      WordsOfLine(lines[0]);
      NoNewlineInLine(lines[0]);
      TableLinesOf(lines[1..]);
      var text := PrintedLines(lines) + [""];
      assert text[0] == Printed(lines[0]) && text[1..] == PrintedLines(lines[1..]) + [""];
      assert WordsIn(lines[0].pieces) == [] <==> lines[0].pieces == [];
    }
  }

  /** Reading a printed table gives the words of its lines, blank lines dropped. */
  lemma TableReadsBack(lines: seq<Line>)
    requires forall l | l in lines :: WellSpaced(l)
    ensures Topology.LinesOf(Unlines(PrintedLines(lines))) == WordLines(lines)
  {
    hide SplitBy, WellSpaced;
    TableLinesOf(lines);
    SplitUnlines(PrintedLines(lines));
  }

  // ---------- Headers and rows ----------

  function GpuName(n: nat): string {
    "GPU" + Decimal.Print(n)
  }

  function GpuNames(cols: seq<nat>): seq<string> {
    if cols == [] then [] else [GpuName(cols[0])] + GpuNames(cols[1..])
  }

  lemma NameReadsBack(prefix: string, n: nat)
    requires prefix == "GPU" || prefix == "NV"
    ensures var word := prefix + Decimal.Print(n);
            && IsNumbered(prefix, word) && Number(prefix, word) == n
            && Upper(word) == word
  {
    hide Decimal.Print;
    var digits := Decimal.Print(n);
    var word := prefix + digits;
    assert word[..|prefix|] == prefix && word[|prefix|..] == digits;
    assert Upper(prefix) == prefix;
    Decimal.ValueOfPrint(n);
    forall i | 0 <= i < |word| ensures !('a' <= word[i] <= 'z') {
      if |prefix| <= i { assert word[i] == digits[i - |prefix|] && word[i] in digits; }
    }
  }

  /** The columns of a header are its GPU names, other words skipped. */
  lemma {:induction false} ColumnsReadBack(cols: seq<nat>, more: seq<string>)
    requires forall word | word in more :: !IsGpu(word)
    ensures Columns(GpuNames(cols) + more) == cols
    decreases |cols| + |more|
  {
    hide IsNumbered, Number, GpuName;
    if cols != [] {
      NameIsGpu(cols[0]);
      var header := GpuNames(cols) + more;
      assert header[1..] == GpuNames(cols[1..]) + more;
      ColumnsReadBack(cols[1..], more);
      assert [cols[0]] + cols[1..] == cols;
    } else if more != [] {
      assert GpuNames([]) + more == more && more[0] in more;
      assert GpuNames([]) + more[1..] == more[1..];
      ColumnsReadBack([], more[1..]);
    }
  }

  lemma NameIsGpu(n: nat)
    ensures IsGpu(GpuName(n)) && Number("GPU", GpuName(n)) == n
  {
    NameReadsBack("GPU", n);
  }

  /** A line below the header: a GPU's row, or any other line. */
  datatype BodyLine = GpuLine(index: nat, cells: seq<string>) | OtherLine(words: seq<string>)

  /** `GPU` in any case and digits. */
  predicate NamesGpu(word: string) {
    && 3 < |word|
    && (word[0] == 'G' || word[0] == 'g') && (word[1] == 'P' || word[1] == 'p') && (word[2] == 'U' || word[2] == 'u')
    && forall i | 3 <= i < |word| :: '0' <= word[i] <= '9'
  }

  lemma GpuWordsAre(word: string)
    ensures IsGpu(word) <==> NamesGpu(word)
    ensures NamesGpu(word) ==> Number("GPU", word) == Decimal.Value(word[3..])
  {
    if 3 < |word| {
      assert Upper(word[..3]) == [UpperChar(word[0]), UpperChar(word[1]), UpperChar(word[2])];
      assert forall i | 3 <= i < |word| :: word[3..][i - 3] == word[i] && word[i] in word[3..];
    }
  }

  /** Other lines are blank or start with something that names no GPU. */
  predicate Proper(line: BodyLine) {
    line.OtherLine? && line.words != [] ==> !NamesGpu(line.words[0])
  }

  function LineWords(line: BodyLine): seq<string> {
    match line case GpuLine(index, cells) => [GpuName(index)] + cells case OtherLine(words) => words
  }

  function BodyWords(body: seq<BodyLine>): seq<seq<string>> {
    if body == [] then [] else [LineWords(body[0])] + BodyWords(body[1..])
  }

  /** The GPU rows of a body, those with cells. */
  function RowsOf(body: seq<BodyLine>): seq<Row> {
    if body == [] then []
    else
      (if body[0].GpuLine? && body[0].cells != [] then [Row(body[0].index, body[0].cells)] else []) + RowsOf(body[1..])
  }

  /** The rows are read with their index and cells, and other lines skipped. */
  lemma {:induction false} RowsReadBack(body: seq<BodyLine>)
    requires forall line | line in body :: Proper(line)
    ensures Rows(BodyWords(body)) == RowsOf(body)
  {
    hide IsNumbered, Number, GpuName, NamesGpu;
    if body != [] {
      assert body[0] in body;
      var words := LineWords(body[0]);
      assert BodyWords(body)[0] == words && BodyWords(body)[1..] == BodyWords(body[1..]);
      RowsReadBack(body[1..]);
      match body[0]
      case GpuLine(index, cells) =>
        NameIsGpu(index);
        assert words[1..] == cells;
      case OtherLine(_) =>
        if words != [] { GpuWordsAre(words[0]); }
    }
  }

  lemma {:induction false} RowsAreLines(body: seq<BodyLine>, row: Row)
    ensures row in RowsOf(body) <==> row.cells != [] && GpuLine(row.index, row.cells) in body
  {
    if body != [] {
      RowsAreLines(body[1..], row);
    }
  }

  // ---------- Cells ----------

  /** `NV` in any case and digits. */
  predicate IsNv(word: string) {
    && 2 < |word| && (word[0] == 'N' || word[0] == 'n') && (word[1] == 'V' || word[1] == 'v')
    && forall i | 2 <= i < |word| :: '0' <= word[i] <= '9'
  }

  /** A cell is an NVLink exactly when it is `NV` and a number, kept in upper case. */
  lemma NvidiaCellIs(cell: string)
    ensures NvidiaCell(cell) == if IsNv(cell) then Some(NvLink("NV" + cell[2..])) else None
  {
    if 2 < |cell| {
      assert Upper(cell[..2]) == [UpperChar(cell[0]), UpperChar(cell[1])];
      assert forall i | 2 <= i < |cell| :: cell[2..][i - 2] == cell[i] && cell[i] in cell[2..];
      if IsNv(cell) { assert Upper(cell) == "NV" + cell[2..]; }
    }
  }

  /** Every printed weight is read as itself, with anything but a digit after it: a link exactly between 1 and
      the threshold. */
  lemma WeightReadsBack(weight: nat, more: string, threshold: int)
    requires more == "" || !Decimal.IsDigit(more[0])
    ensures RocmCell(threshold)(Decimal.Print(weight) + more)
         == if 0 < weight <= threshold then Some(Xgmi(weight)) else None
  {
    var digits := Decimal.Print(weight);
    var s := digits + more;
    assert s[0] == digits[0] && digits[0] in digits;
    DigitsEnd(digits, more);
    assert s[..|digits|] == digits;
    Decimal.ValueOfPrint(weight);
  }

  lemma {:induction false} DigitsEnd(digits: string, more: string)
    requires Decimal.AllDigits(digits) && (more == "" || !Decimal.IsDigit(more[0]))
    ensures Decimal.DigitPrefix(digits + more) == |digits|
  {
    if digits == "" {
      assert digits + more == more;
    } else {
      assert digits[0] in digits && (digits + more)[0] == digits[0] && (digits + more)[1..] == digits[1..] + more;
      DigitsEnd(digits[1..], more);
    }
  }

  /** A cell that does not start as a positive number does, such as a word or a negative number. */
  predicate Unweighed(cell: string) {
    cell == "" || (cell[0] != '+' && !('0' <= cell[0] <= '9'))
  }

  lemma UnweighedIsNoLink(cell: string, threshold: int)
    requires Unweighed(cell)
    ensures RocmCell(threshold)(cell) == None
  {
  }

  // ---------- Whole tables ----------

  /** The words of a printed matrix: a header, with other column titles after the GPUs, and the body. */
  function MatrixWords(cols: seq<nat>, more: seq<string>, body: seq<BodyLine>): seq<seq<string>> {
    [GpuNames(cols) + more] + BodyWords(body)
  }

  /** A line that opens with two GPU columns, the second possibly followed by other characters. */
  predicate NamesColumns(words: seq<string>) {
    && 2 <= |words|
    && StartsColumn(words[0]) && StartsColumn(words[1])
    && forall i | 3 <= i < |words[0]| :: '0' <= words[0][i] <= '9'
  }

  predicate StartsColumn(word: string) {
    3 < |word| && word[..3] == "GPU" && '0' <= word[3] <= '9'
  }

  lemma HeadersAre(words: seq<string>)
    ensures IsRocmHeader(words) <==> NamesColumns(words)
  {
    if 2 <= |words| && 3 < |words[0]| {
      assert forall i | 3 <= i < |words[0]| :: words[0][3..][i - 3] == words[0][i] && words[0][i] in words[0][3..];
    }
  }

  /** No other line that looks like a row, no other title that looks like a column. */
  predicate ProperBody(more: seq<string>, body: seq<BodyLine>) {
    && (forall word | word in more :: !NamesGpu(word))
    && (forall line | line in body :: Proper(line))
  }

  /** A printed NVLink table is parsed as the matrix it prints, whatever its spacing, its blank lines and the
      lines that are no rows. */
  lemma NvidiaTableReadsBack(table: seq<Line>, cols: seq<nat>, more: seq<string>, body: seq<BodyLine>)
    requires forall l | l in table :: WellSpaced(l)
    requires cols != [] && ProperBody(more, body)
    requires WordLines(table) == MatrixWords(cols, more, body)
    ensures var lines := Topology.LinesOf(Unlines(PrintedLines(table)));
            lines != [] && Columns(lines[0]) == cols && Rows(lines[1..]) == RowsOf(body)
  {
    hide WellSpaced, WordLines, Columns, Rows, BodyWords, GpuNames, IsGpu, NamesGpu, RowsOf;
    TableReadsBack(table);
    forall word | word in more ensures !IsGpu(word) { GpuWordsAre(word); }
    ColumnsReadBack(cols, more);
    RowsReadBack(body);
    assert MatrixWords(cols, more, body)[1..] == BodyWords(body);
  }

  /** A printed xGMI table, after lines that are no header, is parsed as the matrix it prints. */
  lemma RocmTableReadsBack(table: seq<Line>, titles: seq<seq<string>>, cols: seq<nat>, more: seq<string>,
                           body: seq<BodyLine>)
    requires forall l | l in table :: WellSpaced(l)
    requires forall title | title in titles :: !NamesColumns(title)
    requires 2 <= |cols| && ProperBody(more, body)
    requires WordLines(table) == titles + MatrixWords(cols, more, body)
    ensures var lines, h := Topology.LinesOf(Unlines(PrintedLines(table))), |titles|;
            && h < |lines| && IsRocmHeader(lines[h]) && (forall k | 0 <= k < h :: !IsRocmHeader(lines[k]))
            && Columns(lines[h]) == cols && Rows(lines[h + 1..]) == RowsOf(body)
  {
    hide WellSpaced, WordLines, Columns, Rows, BodyWords, IsGpu, IsRocmHeader, GpuNames, NamesGpu, RowsOf,
         NamesColumns;
    forall title | title in titles ensures !IsRocmHeader(title) { HeadersAre(title); }
    TableReadsBack(table);
    forall word | word in more ensures !IsGpu(word) { GpuWordsAre(word); }
    ColumnsReadBack(cols, more);
    RowsReadBack(body);
    HeaderIsHeader(cols, more);
    var lines, h := Topology.LinesOf(Unlines(PrintedLines(table))), |titles|;
    var words := MatrixWords(cols, more, body);
    assert lines[h] == words[0] && lines[h + 1..] == words[1..] == BodyWords(body);
    assert forall k | 0 <= k < h :: lines[k] == titles[k] && titles[k] in titles;
  }

  // ---------- From the printed table to the verdict ----------

  /** A list of links is right for what a table says of pairs: one link for each pair it joins, no other link,
      `none` exactly without links, and `all-to-all` exactly when more than two GPUs are linked and every two
      of them are. */
  ghost predicate IsRight(links: seq<Link>, says: Link -> bool) {
    var ids := GpuIds(links);
    && IsEdgeList(links)
    && (forall l | l in links :: says(l))
    && (forall l | says(l) :: HasPair(links, l))
    && KindOf(links) != Unknown && (KindOf(links) == NoLinks <==> links == [])
    && (KindOf(links) == AllToAll <==>
          2 < |ids| && forall a, b | a in ids && b in ids && a < b :: exists mark :: says(Link(a, b, mark)))
  }

  lemma MatrixIsRight(test: CellTest, cols: seq<nat>, rows: seq<Row>, says: Link -> bool)
    requires forall l :: Linked(test, cols, rows, l) <==> says(l)
    ensures IsRight(MatrixLinks(test, cols, rows), says)
  {
    hide Linked, MatrixLinks, KindOf, GpuIds, IsEdgeList, HasPair;
    ParsedLinks(test, cols, rows);
    MatrixKind(test, cols, rows);
    KindIsRight(MatrixLinks(test, cols, rows));
  }

  /** One line of a table says that a pair is linked by NVLink: `NV` and a number in the GPU's row, below the
      other GPU's column. */
  ghost predicate NvAt(cols: seq<nat>, line: BodyLine, l: Link) {
    line.GpuLine? && exists i | 0 <= i < |cols| && i < |line.cells| ::
      Joins(l, line.index, cols[i]) && IsNv(line.cells[i]) && l.mark == NvLink("NV" + line.cells[i][2..])
  }

  ghost predicate SaysNv(cols: seq<nat>, body: seq<BodyLine>, l: Link) {
    exists line | line in body :: NvAt(cols, line, l)
  }

  lemma RowSaysNv(cols: seq<nat>, row: Row, l: Link)
    ensures LinkedAt(NvidiaCell, cols, row, l) <==> NvAt(cols, GpuLine(row.index, row.cells), l)
  {
    hide NvidiaCell, Joins, LinkedAt;
    LinkedAtIs(NvidiaCell, cols, row, l);
    forall i | 0 <= i < |row.cells|
      ensures NvidiaCell(row.cells[i]) == if IsNv(row.cells[i]) then Some(NvLink("NV" + row.cells[i][2..])) else None
    {
      NvidiaCellIs(row.cells[i]);
    }
  }

  lemma LinkedSaysNv(cols: seq<nat>, body: seq<BodyLine>, l: Link)
    ensures Linked(NvidiaCell, cols, RowsOf(body), l) <==> SaysNv(cols, body, l)
  {
    hide LinkedAt, Linked, NvAt;
    var rows := RowsOf(body);
    LinkedByRow(NvidiaCell, cols, rows, l);
    if Linked(NvidiaCell, cols, rows, l) {
      var r :| 0 <= r < |rows| && LinkedAt(NvidiaCell, cols, rows[r], l);
      RowSaysNv(cols, rows[r], l);
      RowsAreLines(body, rows[r]);
    }
    if SaysNv(cols, body, l) {
      var line :| line in body && NvAt(cols, line, l);
      NvLineHasCells(cols, line, l);
      RowSaysNv(cols, Row(line.index, line.cells), l);
      RowsAreLines(body, Row(line.index, line.cells));
    }
  }

  lemma NvLineHasCells(cols: seq<nat>, line: BodyLine, l: Link)
    requires NvAt(cols, line, l)
    ensures line.GpuLine? && line.cells != []
  {
  }

  /** A printed NVLink table yields a link for exactly the pairs with `NV` and a number in one row or the other,
      marked with it in upper case, and the right verdict. */
  lemma NvidiaTableYieldsLinks(table: seq<Line>, cols: seq<nat>, more: seq<string>, body: seq<BodyLine>)
    requires forall l | l in table :: WellSpaced(l)
    requires cols != [] && ProperBody(more, body)
    requires WordLines(table) == MatrixWords(cols, more, body)
    ensures IsRight(NvidiaLinks(Unlines(PrintedLines(table))), l => SaysNv(cols, body, l))
  {
    hide WellSpaced, WordLines, MatrixWords, ProperBody, Columns, Rows, Topology.LinesOf, MatrixLinks, IsRight, SaysNv,
         Linked;
    NvidiaTableReadsBack(table, cols, more, body);
    forall l ensures Linked(NvidiaCell, cols, RowsOf(body), l) <==> SaysNv(cols, body, l) {
      LinkedSaysNv(cols, body, l);
    }
    MatrixIsRight(NvidiaCell, cols, RowsOf(body), l => SaysNv(cols, body, l));
  }

  predicate IsPcie(cell: string) {
    cell in {"X", "SYS", "NODE", "PHB", "PXB", "PIX"}
  }

  lemma PcieIsNoNv(cols: seq<nat>, line: BodyLine, l: Link)
    requires line.GpuLine? ==> forall cell | cell in line.cells :: IsPcie(cell)
    ensures !NvAt(cols, line, l)
  {
    if line.GpuLine? {
      forall i | 0 <= i < |line.cells| ensures !IsNv(line.cells[i]) {
        assert line.cells[i] in line.cells;
        assert "NODE"[1] == 'O' && "SYS"[0] == 'S' && "PHB"[0] == 'P' && "PXB"[0] == 'P' && "PIX"[0] == 'P';
      }
    }
  }

  /** GPUs that reach each other over PCIe only have no links. */
  lemma PcieTableHasNoLinks(table: seq<Line>, cols: seq<nat>, more: seq<string>, body: seq<BodyLine>)
    requires forall l | l in table :: WellSpaced(l)
    requires cols != [] && ProperBody(more, body)
    requires WordLines(table) == MatrixWords(cols, more, body)
    requires forall line | line in body && line.GpuLine? :: forall cell | cell in line.cells :: IsPcie(cell)
    ensures NvidiaLinks(Unlines(PrintedLines(table))) == [] && KindOf([]) == NoLinks
  {
    hide WellSpaced, WordLines, MatrixWords, ProperBody, NvidiaLinks, PrintedLines, KindOf, GpuIds, IsEdgeList, HasPair,
         NvAt, IsPcie;
    var links := NvidiaLinks(Unlines(PrintedLines(table)));
    assert links != [] ==> links[0] in links;
    NvidiaTableYieldsLinks(table, cols, more, body);
    forall line, l | line in body ensures !NvAt(cols, line, l) { PcieIsNoNv(cols, line, l); }
  }

  /** One line of a table says that a pair is linked by xGMI: a weight from 1 to the threshold. */
  ghost predicate NearAt(cols: seq<nat>, line: BodyLine, threshold: int, l: Link) {
    line.GpuLine? && l.mark.Xgmi? && 0 < l.mark.weight <= threshold && exists i | 0 <= i < |cols| && i < |line.cells| ::
      Joins(l, line.index, cols[i]) && Weighs(line.cells[i], l.mark.weight)
  }

  /** A cell that prints a weight, with anything but a digit after it. */
  ghost predicate Weighs(cell: string, weight: nat) {
    var digits := Decimal.Print(weight);
    digits <= cell && (|digits| == |cell| || !Decimal.IsDigit(cell[|digits|]))
  }

  ghost predicate SaysNear(cols: seq<nat>, body: seq<BodyLine>, threshold: int, l: Link) {
    exists line | line in body :: NearAt(cols, line, threshold, l)
  }

  /** Every cell of the rows prints a weight or something that is not a positive number. */
  ghost predicate Weighed(line: BodyLine) {
    line.GpuLine? ==> forall i | 0 <= i < |line.cells| ::
                        Unweighed(line.cells[i]) || exists weight :: Weighs(line.cells[i], weight)
  }

  lemma CellWeighs(cell: string, weight: nat, threshold: int)
    requires Weighs(cell, weight)
    ensures RocmCell(threshold)(cell) == if 0 < weight <= threshold then Some(Xgmi(weight)) else None
    ensures !Unweighed(cell)
  {
    hide RocmCell, Decimal.Print;
    var digits := Decimal.Print(weight);
    assert cell == digits + cell[|digits|..];
    assert digits[0] == cell[0] && digits[0] in digits;
    WeightReadsBack(weight, cell[|digits|..], threshold);
  }

  lemma WeightIsUnique(cell: string, weight: nat, other: nat)
    requires Weighs(cell, weight) && Weighs(cell, other)
    ensures weight == other
  {
    hide RocmCell, Decimal.Print;
    var m := if weight < other then other else weight;
    CellWeighs(cell, weight, m + 1);
    CellWeighs(cell, other, m + 1);
  }

  lemma RowSaysNear(cols: seq<nat>, row: Row, threshold: int, l: Link)
    requires Weighed(GpuLine(row.index, row.cells))
    ensures LinkedAt(RocmCell(threshold), cols, row, l) <==> NearAt(cols, GpuLine(row.index, row.cells), threshold, l)
  {
    hide RocmCell, Weighs, Unweighed, Joins, LinkedAt;
    LinkedAtIs(RocmCell(threshold), cols, row, l);
    forall i | 0 <= i < |row.cells|
      ensures RocmCell(threshold)(row.cells[i]) == Some(l.mark)
         <==> l.mark.Xgmi? && 0 < l.mark.weight <= threshold && Weighs(row.cells[i], l.mark.weight)
    {
      CellIsNear(row.cells[i], threshold, l.mark);
    }
  }

  lemma CellIsNear(cell: string, threshold: int, mark: Mark)
    requires Unweighed(cell) || exists weight :: Weighs(cell, weight)
    ensures RocmCell(threshold)(cell) == Some(mark)
       <==> mark.Xgmi? && 0 < mark.weight <= threshold && Weighs(cell, mark.weight)
  {
    hide RocmCell, Weighs, Unweighed;
    if exists weight :: Weighs(cell, weight) {
      var weight :| Weighs(cell, weight);
      CellWeighs(cell, weight, threshold);
      if mark.Xgmi? && 0 < mark.weight && Weighs(cell, mark.weight) {
        WeightIsUnique(cell, weight, mark.weight);
      }
    } else {
      UnweighedIsNoLink(cell, threshold);
    }
  }

  lemma LinkedSaysNear(cols: seq<nat>, body: seq<BodyLine>, threshold: int, l: Link)
    requires forall line | line in body :: Weighed(line)
    ensures Linked(RocmCell(threshold), cols, RowsOf(body), l) <==> SaysNear(cols, body, threshold, l)
  {
    hide LinkedAt, Linked, NearAt, Weighed, RocmCell;
    var rows, test := RowsOf(body), RocmCell(threshold);
    LinkedByRow(test, cols, rows, l);
    if Linked(test, cols, rows, l) {
      var r :| 0 <= r < |rows| && LinkedAt(test, cols, rows[r], l);
      RowsAreLines(body, rows[r]);
      RowSaysNear(cols, rows[r], threshold, l);
    }
    if SaysNear(cols, body, threshold, l) {
      var line :| line in body && NearAt(cols, line, threshold, l);
      NearLineHasCells(cols, line, threshold, l);
      RowSaysNear(cols, Row(line.index, line.cells), threshold, l);
      RowsAreLines(body, Row(line.index, line.cells));
    }
  }

  lemma NearLineHasCells(cols: seq<nat>, line: BodyLine, threshold: int, l: Link)
    requires NearAt(cols, line, threshold, l)
    ensures line.GpuLine? && line.cells != []
  {
  }

  /** A printed table of xGMI weights yields a link for exactly the pairs with a weight from 1 to the
      threshold in some row below the header, and the right verdict. */
  lemma RocmTableYieldsLinks(table: seq<Line>, titles: seq<seq<string>>, cols: seq<nat>, more: seq<string>,
                             body: seq<BodyLine>, threshold: int)
    requires forall l | l in table :: WellSpaced(l)
    requires forall title | title in titles :: !NamesColumns(title)
    requires 2 <= |cols| && ProperBody(more, body) && forall line | line in body :: Weighed(line)
    requires WordLines(table) == titles + MatrixWords(cols, more, body)
    ensures IsRight(RocmLinks(Unlines(PrintedLines(table)), threshold), l => SaysNear(cols, body, threshold, l))
  {
    hide WellSpaced, WordLines, MatrixWords, ProperBody, Columns, Rows, Topology.LinesOf, MatrixLinks, IsRocmHeader,
         IsRight, Linked, SaysNear, RocmCell, Weighed;
    RocmTableReadsBack(table, titles, cols, more, body);
    HeaderFound(Topology.LinesOf(Unlines(PrintedLines(table))), |titles|);
    forall l ensures Linked(RocmCell(threshold), cols, RowsOf(body), l) <==> SaysNear(cols, body, threshold, l) {
      LinkedSaysNear(cols, body, threshold, l);
    }
    MatrixIsRight(RocmCell(threshold), cols, RowsOf(body), l => SaysNear(cols, body, threshold, l));
  }

  /** Two GPUs at weight 40, with the table of hops that may follow below: its rows are read as weights too. */
  function WeightsThenHops(): seq<BodyLine> {
    [GpuLine(0, ["0", "40"]), GpuLine(1, ["40", "0"]),
     OtherLine(["Hops", "between", "two", "GPUs"]), GpuLine(0, ["GPU1"]),
     GpuLine(0, ["0", "2"]), GpuLine(1, ["2", "0"])]
  }

  lemma PrintedWeights()
    ensures Weighs("0", 0) && Weighs("2", 2) && Weighs("40", 40) && Unweighed("GPU1")
  {
    assert Decimal.Print(4) == "4" && Decimal.Print(40) == Decimal.Print(4) + "0";
  }

  lemma NearInExample(line: BodyLine, l: Link)
    requires line in WeightsThenHops() && NearAt([0, 1], line, 30, l)
    ensures l == Link(0, 1, Xgmi(2))
  {
    hide Weighs, Decimal.Print;
    PrintedWeights();
    var i :| 0 <= i < 2 && i < |line.cells| && Joins(l, line.index, [0, 1][i]) && Weighs(line.cells[i], l.mark.weight);
    var cell := line.cells[i];
    if cell == "GPU1" {
      CellWeighs(cell, l.mark.weight, 30);
    } else {
      var weight := if cell == "40" then 40 else if cell == "2" then 2 else 0;
      WeightIsUnique(cell, weight, l.mark.weight);
    }
  }

  /** A weight above the threshold does not keep a pair apart when a later table has a small number for it: two
      GPUs at weight 40 and two hops are called a pair. */
  lemma LaterTableIsReadToo(table: seq<Line>)
    requires forall l | l in table :: WellSpaced(l)
    requires WordLines(table) == MatrixWords([0, 1], [], WeightsThenHops())
    ensures RocmLinks(Unlines(PrintedLines(table)), 30) == [Link(0, 1, Xgmi(2))]
    ensures KindOf([Link(0, 1, Xgmi(2))]) == Pair
  {
    hide WellSpaced, WordLines, MatrixWords, RocmLinks, PrintedLines, Weighs, Weighed, KindOf, NearAt;
    var body, link := WeightsThenHops(), Link(0, 1, Xgmi(2));
    ExampleIsProper();
    assert [] + MatrixWords([0, 1], [], body) == MatrixWords([0, 1], [], body);
    RocmTableYieldsLinks(table, [], [0, 1], [], body, 30);
    var links := RocmLinks(Unlines(PrintedLines(table)), 30);
    forall l | SaysNear([0, 1], body, 30, l) ensures l == link {
      var line :| line in body && NearAt([0, 1], line, 30, l);
      NearInExample(line, l);
    }
    assert SaysNear([0, 1], body, 30, link) by { assert body[4] in body; }
    OneLinkOnly(links, link);
    KindIsRight(links);
  }

  lemma ExampleIsProper()
    ensures ProperBody([], WeightsThenHops())
    ensures forall line | line in WeightsThenHops() :: Weighed(line)
    ensures NearAt([0, 1], WeightsThenHops()[4], 30, Link(0, 1, Xgmi(2)))
  {
    hide Weighs;
    PrintedWeights();
    var l, line := Link(0, 1, Xgmi(2)), WeightsThenHops()[4];
    assert line.cells[1] == "2" && Joins(l, line.index, [0, 1][1]);
  }

  lemma OneLinkOnly(links: seq<Link>, link: Link)
    requires IsEdgeList(links) && HasPair(links, link) && forall l | l in links :: l == link
    ensures links == [link] && |GpuIds(links)| == |{link.from, link.to}|
  {
    PairSetCount(links);
    SubsetCount(PairSet(links), {(link.from, link.to)});
    assert links[0] in links;
  }

  lemma HeaderFound(lines: seq<seq<string>>, h: nat)
    requires h < |lines| && IsRocmHeader(lines[h]) && forall k | 0 <= k < h :: !IsRocmHeader(lines[k])
    ensures FirstHeader(lines) == h
  {
  }

  lemma HeaderIsHeader(cols: seq<nat>, more: seq<string>)
    requires 2 <= |cols|
    ensures IsRocmHeader(GpuNames(cols) + more)
  {
    hide GpuName;
    var words := GpuNames(cols) + more;
    assert cols[1..][0] == cols[1];
    assert GpuNames(cols) == [GpuName(cols[0])] + ([GpuName(cols[1])] + GpuNames(cols[1..][1..]));
    assert words[0] == GpuName(cols[0]) && words[1] == GpuName(cols[1]);
    NameStarts(cols[0]);
    NameStarts(cols[1]);
  }

  lemma NameStarts(n: nat)
    ensures var name := GpuName(n);
            3 < |name| && name[..3] == "GPU" && Decimal.AllDigits(name[3..]) && Decimal.IsDigit(name[3])
  {
    hide Decimal.Print;
    var digits := Decimal.Print(n);
    assert GpuName(n)[3..] == digits && GpuName(n)[3] == digits[0] && digits[0] in digits;
  }
}
