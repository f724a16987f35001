/**
 * The 2D `.msh` text written by the exporter, one string per line:
 *
 *   # header
 *   # ndim npoint ncell nmarked_edge nmarked_face
 *   2 <npoint> <ncell> <nmarked_edge> 0
 *   (blank)
 *   # points
 *   # id marker x y
 *   <id> <marker> <x> <y>                      one line per point
 *   (blank)
 *   # cells
 *   # id attribute kind points
 *   <id> <attribute> lin3|qua4 <p> ...         one line per cell
 *   (blank)                                    this block only when
 *   # marked edges                             some edge is marked
 *   # marker p1 p2 p3[ p4]
 *   <marker> <v0> <v1>                         one line per marked edge
 *
 * `Render` writes a `Document` in this layout and `Decode` reads such text
 * back; reading recovers what was written (`DecodeLayout`).
 */
module MshFormat {
  import opened Wrappers
  import opened Decimal
  import opened Words

  /** Element kind: `lin3` is the 3-node triangle, `qua4` the 4-node quadrilateral. */
  datatype Kind = Lin3 | Qua4

  datatype Point = Point(id: int, marker: int, x: string, y: string)
  datatype Cell = Cell(id: int, attribute: int, kind: Kind, nodes: seq<int>)
  datatype MarkedEdge = MarkedEdge(marker: int, v0: int, v1: int)
  datatype Document = Document(points: seq<Point>, cells: seq<Cell>, edges: seq<MarkedEdge>)

  function KindName(k: Kind): string {
    match k
    case Lin3 => "lin3"
    case Qua4 => "qua4"
  }

  function ParseKind(s: string): (r: Option<Kind>)
    ensures forall k :: r == Some(k) <==> s == KindName(k)
  {
    if s == "lin3" then Some(Lin3) else if s == "qua4" then Some(Qua4) else None
  }

  function NodeCount(k: Kind): nat {
    match k
    case Lin3 => 3
    case Qua4 => 4
  }

  /**
   * What a document needs for its text to read back unchanged: coordinate
   * texts are single words, each cell's node count fits its kind, and the
   * marked-edges block, whose comment line depends on the last cell, only
   * appears when there is a cell.
   */
  predicate WellFormed(doc: Document) {
    && (forall i :: 0 <= i < |doc.points| ==> ' ' !in doc.points[i].x && ' ' !in doc.points[i].y)
    && (forall i :: 0 <= i < |doc.cells| ==> |doc.cells[i].nodes| == NodeCount(doc.cells[i].kind))
    && (|doc.edges| > 0 ==> |doc.cells| > 0)
  }

  const HeaderTitle := "# header"
  const HeaderFields := "# ndim npoint ncell nmarked_edge nmarked_face"
  const PointsTitle := "# points"
  const PointsFields := "# id marker x y"
  const CellsTitle := "# cells"
  const CellsFields := "# id attribute kind points"
  const EdgesTitle := "# marked edges"

  function Ints(ns: seq<int>): (ws: seq<string>)
    ensures |ws| == |ns|
    ensures forall i :: 0 <= i < |ns| ==> ws[i] == IntToString(ns[i])
  {
    seq(|ns|, i requires 0 <= i < |ns| => IntToString(ns[i]))
  }

  function ParseInts(ws: seq<string>): (r: Option<seq<int>>)
    ensures r.Some? ==> |r.value| == |ws|
  {
    if forall i :: 0 <= i < |ws| ==> ParseInt(ws[i]).Some? then
      Some(seq(|ws|, i requires 0 <= i < |ws| => ParseInt(ws[i]).value))
    else None
  }

  /** `2 npoint ncell nmarked_edge 0`: two dimensions, no marked faces. */
  function HeaderLine(npoint: nat, ncell: nat, nmarkedEdge: nat): string {
    Unwords(["2", IntToString(npoint), IntToString(ncell), IntToString(nmarkedEdge), "0"])
  }

  function ParseHeader(s: string): Option<(nat, nat, nat)> {
    var t := Split(s);
    if |t| != 5 || t[0] != "2" || t[4] != "0" then None
    else match (ParseInt(t[1]), ParseInt(t[2]), ParseInt(t[3]))
      case (Some(a), Some(b), Some(c)) =>
        if a >= 0 && b >= 0 && c >= 0 then Some((a, b, c)) else None
      case _ => None
  }

  function PointLine(p: Point): string {
    Unwords([IntToString(p.id), IntToString(p.marker), p.x, p.y])
  }

  function ParsePoint(s: string): Option<Point> {
    var t := Split(s);
    if |t| != 4 then None
    else match (ParseInt(t[0]), ParseInt(t[1]))
      case (Some(id), Some(marker)) => Some(Point(id, marker, t[2], t[3]))
      case _ => None
  }

  function CellLine(c: Cell): string {
    Unwords([IntToString(c.id), IntToString(c.attribute), KindName(c.kind)] + Ints(c.nodes))
  }

  function ParseCell(s: string): Option<Cell> {
    var t := Split(s);
    if |t| < 3 then None
    else match (ParseInt(t[0]), ParseInt(t[1]), ParseKind(t[2]), ParseInts(t[3..]))
      case (Some(id), Some(attribute), Some(kind), Some(nodes)) =>
        if |nodes| == NodeCount(kind) then Some(Cell(id, attribute, kind, nodes)) else None
      case _ => None
  }

  function EdgeLine(e: MarkedEdge): string {
    Unwords([IntToString(e.marker), IntToString(e.v0), IntToString(e.v1)])
  }

  function ParseEdge(s: string): Option<MarkedEdge> {
    var t := Split(s);
    if |t| != 3 then None
    else match (ParseInt(t[0]), ParseInt(t[1]), ParseInt(t[2]))
      case (Some(marker), Some(v0), Some(v1)) => Some(MarkedEdge(marker, v0, v1))
      case _ => None
  }

  /**
   * The comment over the marked edges follows the node count of the last
   * cell written, and names three or four points although each marked-edge
   * line holds two.
   */
  function EdgeComment(last: Cell): (r: string)
    ensures r == PointNames(if |last.nodes| == 3 then 3 else 4)
  {
    if |last.nodes| == 3 then "# marker p1 p2 p3" else "# marker p1 p2 p3 p4"
  }

  /** `# marker p1 ... pn`: a comment naming a marker and `n` points. */
  function PointNames(n: nat): string
    decreases n
  {
    if n == 0 then "# marker" else PointNames(n - 1) + " p" + NatToString(n)
  }

  function PointLines(ps: seq<Point>): (ls: seq<string>)
    ensures |ls| == |ps|
    ensures forall i :: 0 <= i < |ps| ==> ls[i] == PointLine(ps[i])
  {
    seq(|ps|, i requires 0 <= i < |ps| => PointLine(ps[i]))
  }

  function CellLines(cs: seq<Cell>): (ls: seq<string>)
    ensures |ls| == |cs|
    ensures forall i :: 0 <= i < |cs| ==> ls[i] == CellLine(cs[i])
  {
    seq(|cs|, i requires 0 <= i < |cs| => CellLine(cs[i]))
  }

  function EdgeLines(es: seq<MarkedEdge>): (ls: seq<string>)
    ensures |ls| == |es|
    ensures forall i :: 0 <= i < |es| ==> ls[i] == EdgeLine(es[i])
  {
    seq(|es|, i requires 0 <= i < |es| => EdgeLine(es[i]))
  }

  function ParsePoints(ls: seq<string>): (r: Option<seq<Point>>)
    ensures r.Some? ==> |r.value| == |ls|
  {
    if forall i :: 0 <= i < |ls| ==> ParsePoint(ls[i]).Some? then
      Some(seq(|ls|, i requires 0 <= i < |ls| => ParsePoint(ls[i]).value))
    else None
  }

  function ParseCells(ls: seq<string>): (r: Option<seq<Cell>>)
    ensures r.Some? ==> |r.value| == |ls|
  {
    if forall i :: 0 <= i < |ls| ==> ParseCell(ls[i]).Some? then
      Some(seq(|ls|, i requires 0 <= i < |ls| => ParseCell(ls[i]).value))
    else None
  }

  function ParseEdges(ls: seq<string>): (r: Option<seq<MarkedEdge>>)
    ensures r.Some? ==> |r.value| == |ls|
  {
    if forall i :: 0 <= i < |ls| ==> ParseEdge(ls[i]).Some? then
      Some(seq(|ls|, i requires 0 <= i < |ls| => ParseEdge(ls[i]).value))
    else None
  }

  /** The lines of the marked-edges block; empty when no edge is marked. */
  function EdgeBlock(doc: Document): seq<string>
    requires |doc.edges| > 0 ==> |doc.cells| > 0
  {
    if |doc.edges| > 0 then ["", EdgesTitle, EdgeComment(doc.cells[|doc.cells| - 1])] + EdgeLines(doc.edges)
    else []
  }

  /** The lines of the file, block after block. */
  function Layout(doc: Document): (lines: seq<string>)
    requires |doc.edges| > 0 ==> |doc.cells| > 0
    ensures |lines| == 9 + |doc.points| + |doc.cells| + (if |doc.edges| > 0 then 3 + |doc.edges| else 0)
  {
    [HeaderTitle, HeaderFields]
    + ([HeaderLine(|doc.points|, |doc.cells|, |doc.edges|)]
    + (["", PointsTitle, PointsFields]
    + (PointLines(doc.points)
    + (["", CellsTitle, CellsFields]
    + (CellLines(doc.cells) + EdgeBlock(doc))))))
  }

  /** Reads the marked-edges block, expected to list `ne` edges after the cells `cs`. */
  function DecodeEdges(tail: seq<string>, cs: seq<Cell>, ne: nat): Option<seq<MarkedEdge>> {
    if ne == 0 then
      if tail == [] then Some([]) else None
    else if |tail| != 3 + ne || |cs| == 0 || tail[..3] != ["", EdgesTitle, EdgeComment(cs[|cs| - 1])] then None
    else ParseEdges(tail[3..])
  }

  /** The lines after the fixed lines `expected`, when `lines` starts with them. */
  function Expect(lines: seq<string>, expected: seq<string>): (r: Option<seq<string>>)
    ensures r.Some? ==> lines == expected + r.value
  {
    if |lines| >= |expected| && lines[..|expected|] == expected then Some(lines[|expected|..]) else None
  }

  /** Reads the cells block and what follows it. */
  function DecodeCells(body: seq<string>, ps: seq<Point>, nc: nat, ne: nat): Option<Document> {
    match Expect(body, ["", CellsTitle, CellsFields])
    case None => None
    case Some(rest) =>
      if |rest| < nc then None
      else match ParseCells(rest[..nc])
        case None => None
        case Some(cs) =>
          (match DecodeEdges(rest[nc..], cs, ne)
           case None => None
           case Some(es) => Some(Document(ps, cs, es)))
  }

  /** Reads everything after the header line, given the header's counts. */
  function DecodeBlocks(body: seq<string>, np: nat, nc: nat, ne: nat): Option<Document> {
    match Expect(body, ["", PointsTitle, PointsFields])
    case None => None
    case Some(rest) =>
      if |rest| < np then None
      else match ParsePoints(rest[..np])
        case None => None
        case Some(ps) => DecodeCells(rest[np..], ps, nc, ne)
  }

  /**
   * Reads `.msh` text: the header's counts must match the blocks that
   * follow, and the marked-edges comment must match the last cell.
   */
  function Decode(lines: seq<string>): Option<Document> {
    match Expect(lines, [HeaderTitle, HeaderFields])
    case None => None
    case Some(rest) =>
      if rest == [] then None
      else match ParseHeader(rest[0])
        case None => None
        case Some(counts) => DecodeBlocks(rest[1..], counts.0, counts.1, counts.2)
  }

  lemma ParseIntsInts(xs: seq<int>)
    ensures ParseInts(Ints(xs)) == Some(xs)
  {
    forall i | 0 <= i < |xs| ensures ParseInt(Ints(xs)[i]) == Some(xs[i]) {
      ParseIntToString(xs[i]);
    }
    var r := ParseInts(Ints(xs));
    assert r.Some?;
    assert forall i :: 0 <= i < |xs| ==> r.value[i] == xs[i];
    assert r.value == xs;
  }


  lemma ParseHeaderLine(npoint: nat, ncell: nat, nmarkedEdge: nat)
    ensures ParseHeader(HeaderLine(npoint, ncell, nmarkedEdge)) == Some((npoint, ncell, nmarkedEdge))
  {
    var ws := ["2", IntToString(npoint), IntToString(ncell), IntToString(nmarkedEdge), "0"];
    assert Blankless(ws);
    SplitUnwords(ws);
    ParseIntToString(npoint);
    ParseIntToString(ncell);
    ParseIntToString(nmarkedEdge);
  }

  lemma ParsePointLine(p: Point)
    requires ' ' !in p.x && ' ' !in p.y
    ensures ParsePoint(PointLine(p)) == Some(p)
  {
    var ws := [IntToString(p.id), IntToString(p.marker), p.x, p.y];
    assert Blankless(ws);
    SplitUnwords(ws);
    ParseIntToString(p.id);
    ParseIntToString(p.marker);
  }

  lemma ParseCellLine(c: Cell)
    requires |c.nodes| == NodeCount(c.kind)
    ensures ParseCell(CellLine(c)) == Some(c)
  {
    var ws := [IntToString(c.id), IntToString(c.attribute), KindName(c.kind)] + Ints(c.nodes);
    assert Blankless(ws) by {
      forall i | 0 <= i < |ws| ensures ' ' !in ws[i] {
        if i >= 3 {
          assert ws[i] == IntToString(c.nodes[i - 3]);
        }
      }
    }
    SplitUnwords(ws);
    assert ws[3..] == Ints(c.nodes);
    ParseIntToString(c.id);
    ParseIntToString(c.attribute);
    ParseIntsInts(c.nodes);
  }

  lemma ParseEdgeLine(e: MarkedEdge)
    ensures ParseEdge(EdgeLine(e)) == Some(e)
  {
    var ws := [IntToString(e.marker), IntToString(e.v0), IntToString(e.v1)];
    assert Blankless(ws);
    SplitUnwords(ws);
    ParseIntToString(e.marker);
    ParseIntToString(e.v0);
    ParseIntToString(e.v1);
  }

  lemma ParsePointsLines(xs: seq<Point>)
    requires forall i :: 0 <= i < |xs| ==> ' ' !in xs[i].x && ' ' !in xs[i].y
    ensures ParsePoints(PointLines(xs)) == Some(xs)
  {
    forall i | 0 <= i < |xs| ensures ParsePoint(PointLines(xs)[i]) == Some(xs[i]) {
      ParsePointLine(xs[i]);
    }
    var r := ParsePoints(PointLines(xs));
    assert r.Some?;
    assert forall i :: 0 <= i < |xs| ==> r.value[i] == xs[i];
    assert r.value == xs;
  }


  lemma ParseCellsLines(xs: seq<Cell>)
    requires forall i :: 0 <= i < |xs| ==> |xs[i].nodes| == NodeCount(xs[i].kind)
    ensures ParseCells(CellLines(xs)) == Some(xs)
  {
    forall i | 0 <= i < |xs| ensures ParseCell(CellLines(xs)[i]) == Some(xs[i]) {
      ParseCellLine(xs[i]);
    }
    var r := ParseCells(CellLines(xs));
    assert r.Some?;
    assert forall i :: 0 <= i < |xs| ==> r.value[i] == xs[i];
    assert r.value == xs;
  }


  lemma ParseEdgesLines(xs: seq<MarkedEdge>)
    ensures ParseEdges(EdgeLines(xs)) == Some(xs)
  {
    forall i | 0 <= i < |xs| ensures ParseEdge(EdgeLines(xs)[i]) == Some(xs[i]) {
      ParseEdgeLine(xs[i]);
    }
    var r := ParseEdges(EdgeLines(xs));
    assert r.Some?;
    assert forall i :: 0 <= i < |xs| ==> r.value[i] == xs[i];
    assert r.value == xs;
  }


  lemma DecodeEdgeBlock(doc: Document)
    requires |doc.edges| > 0 ==> |doc.cells| > 0
    ensures DecodeEdges(EdgeBlock(doc), doc.cells, |doc.edges|) == Some(doc.edges)
  {
    if |doc.edges| > 0 {
      var tail := EdgeBlock(doc);
      assert tail[3..] == EdgeLines(doc.edges);
      ParseEdgesLines(doc.edges);
    }
  }

  lemma ExpectPrefix(expected: seq<string>, rest: seq<string>)
    ensures Expect(expected + rest, expected) == Some(rest)
  {
    assert (expected + rest)[..|expected|] == expected;
    assert (expected + rest)[|expected|..] == rest;
  }

  lemma DecodeCellsOf(cl: seq<string>, tail: seq<string>, ps: seq<Point>, cs: seq<Cell>, es: seq<MarkedEdge>, ne: nat)
    requires ParseCells(cl) == Some(cs)
    requires DecodeEdges(tail, cs, ne) == Some(es)
    ensures DecodeCells(["", CellsTitle, CellsFields] + (cl + tail), ps, |cl|, ne) == Some(Document(ps, cs, es))
  {
    var rest := cl + tail;
    assert Expect(["", CellsTitle, CellsFields] + rest, ["", CellsTitle, CellsFields]) == Some(rest) by {
      ExpectPrefix(["", CellsTitle, CellsFields], rest);
    }
    assert rest[..|cl|] == cl;
    assert rest[|cl|..] == tail;
  }

  lemma DecodeBlocksOf(pl: seq<string>, after: seq<string>, ps: seq<Point>, nc: nat, ne: nat)
    requires ParsePoints(pl) == Some(ps)
    ensures DecodeBlocks(["", PointsTitle, PointsFields] + (pl + after), |pl|, nc, ne) == DecodeCells(after, ps, nc, ne)
  {
    var rest := pl + after;
    assert Expect(["", PointsTitle, PointsFields] + rest, ["", PointsTitle, PointsFields]) == Some(rest) by {
      ExpectPrefix(["", PointsTitle, PointsFields], rest);
    }
    assert rest[..|pl|] == pl;
    assert rest[|pl|..] == after;
  }

  lemma DecodeAfterHeader(h: string, body: seq<string>, np: nat, nc: nat, ne: nat)
    requires ParseHeader(h) == Some((np, nc, ne))
    ensures Decode([HeaderTitle, HeaderFields] + ([h] + body)) == DecodeBlocks(body, np, nc, ne)
  {
    var rest := [h] + body;
    assert Expect([HeaderTitle, HeaderFields] + rest, [HeaderTitle, HeaderFields]) == Some(rest) by {
      ExpectPrefix([HeaderTitle, HeaderFields], rest);
    }
    assert rest[0] == h && rest[1..] == body;
  }

  /** The text starts with the header block, whose counts are the document's. */
  lemma LayoutHeader(doc: Document)
    requires |doc.edges| > 0 ==> |doc.cells| > 0
    ensures Layout(doc)[..3] == [HeaderTitle, HeaderFields, HeaderLine(|doc.points|, |doc.cells|, |doc.edges|)]
  {
    var lines := Layout(doc);
    assert lines[0] == HeaderTitle && lines[1] == HeaderFields;
    assert lines[2] == HeaderLine(|doc.points|, |doc.cells|, |doc.edges|);
  }

  /** Reading the rendered text of a well-formed document gives the document back. */
  lemma {:induction false} DecodeLayout(doc: Document)
    requires WellFormed(doc)
    ensures Decode(Layout(doc)) == Some(doc)
  {
    var np, nc, ne := |doc.points|, |doc.cells|, |doc.edges|;
    var pl, cl, tail := PointLines(doc.points), CellLines(doc.cells), EdgeBlock(doc);
    var cellsPart := ["", CellsTitle, CellsFields] + (cl + tail);
    var body := ["", PointsTitle, PointsFields] + (pl + cellsPart);
    var h := HeaderLine(np, nc, ne);
    assert Layout(doc) == [HeaderTitle, HeaderFields] + ([h] + body);
    assert Decode(Layout(doc)) == DecodeBlocks(body, np, nc, ne) by {
      ParseHeaderLine(np, nc, ne);
      DecodeAfterHeader(h, body, np, nc, ne);
    }
    assert DecodeBlocks(body, np, nc, ne) == DecodeCells(cellsPart, doc.points, nc, ne) by {
      ParsePointsLines(doc.points);
      DecodeBlocksOf(pl, cellsPart, doc.points, nc, ne);
    }
    assert DecodeCells(cellsPart, doc.points, nc, ne) == Some(doc) by {
      ParseCellsLines(doc.cells);
      DecodeEdgeBlock(doc);
      DecodeCellsOf(cl, tail, doc.points, doc.cells, doc.edges, ne);
    }
  }

  /**
   * The exporter's text for `doc`, one string per line: the header block
   * carries the counts, and reading the text of a well-formed document
   * gives the document back.
   */
  function Render(doc: Document): (lines: seq<string>)
    requires |doc.edges| > 0 ==> |doc.cells| > 0
    ensures |lines| == 9 + |doc.points| + |doc.cells| + (if |doc.edges| > 0 then 3 + |doc.edges| else 0)
    ensures lines[..3] == [HeaderTitle, HeaderFields, HeaderLine(|doc.points|, |doc.cells|, |doc.edges|)]
    ensures WellFormed(doc) ==> Decode(lines) == Some(doc)
  {
    LayoutHeader(doc);
    assert WellFormed(doc) ==> Decode(Layout(doc)) == Some(doc) by {
      if WellFormed(doc) {
        DecodeLayout(doc);
      }
    }
    Layout(doc)
  }
}
