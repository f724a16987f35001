/**
 * `write_2d_msh_file`: check the active mesh object, then turn its
 * vertices, polygons and tag overlays into the `.msh` document and its
 * text. Any failed check cancels the export before anything is written;
 * the model returns the text instead of writing it to a file.
 */
module MshExport {
  import opened Wrappers
  import opened TagStore
  import opened BlenderMesh
  import opened MshFormat
  import opened TagOperators

  /** Why an export is cancelled, in the order the exporter checks. */
  datatype ExportError =
    | NoMeshObject
      // no active object, or one that is not of type MESH
    | NoMeshData
    | NonZeroZ(vertex: nat)
      // the first vertex whose z test fires (world z not 0)
    | NormalNotParallelToZ(cell: nat)
    | WrongWinding(cell: nat)
    | UnsupportedArity(cell: nat)
      // the first polygon failing a check, with the first check it fails
    | UndefinedNnode
      // edges are marked but there is no polygon: the marked-edges comment
      // reads `nnode`, which only the cell loop binds, and Python raises

  /** The position of the first element failing `ok`, if any. */
  function FirstFailing<T>(xs: seq<T>, ok: T -> bool): (r: Option<nat>)
    ensures r.None? <==> forall i :: 0 <= i < |xs| ==> ok(xs[i])
    ensures r.Some? ==> r.value < |xs| && !ok(xs[r.value])
    ensures r.Some? ==> forall i :: 0 <= i < r.value ==> ok(xs[i])
  {
    if xs == [] then None
    else if !ok(xs[0]) then Some(0)
    else match FirstFailing(xs[1..], ok)
      case None => None
      case Some(j) => Some(j + 1)
  }

  predicate FlatVertex(v: Vertex) {
    v.zIsZero
  }

  /** A polygon the exporter accepts: normal along +z and 3 or 4 nodes. */
  predicate CellOk(p: Polygon) {
    p.normalAlongZ && p.normalUp && (|p.vertices| == 3 || |p.vertices| == 4)
  }

  /** The error for polygon `i`, checked in the exporter's order: normal direction, winding, node count. */
  function PolygonError(p: Polygon, i: nat): (r: Option<ExportError>)
    ensures r.None? <==> CellOk(p)
    ensures r == Some(NormalNotParallelToZ(i)) <==> !p.normalAlongZ
    ensures r == Some(WrongWinding(i)) <==> p.normalAlongZ && !p.normalUp
    ensures r == Some(UnsupportedArity(i)) <==> p.normalAlongZ && p.normalUp && |p.vertices| != 3 && |p.vertices| != 4
  {
    if !p.normalAlongZ then Some(NormalNotParallelToZ(i))
    else if !p.normalUp then Some(WrongWinding(i))
    else if |p.vertices| != 3 && |p.vertices| != 4 then Some(UnsupportedArity(i))
    else None
  }

  /** One point record per vertex, in mesh order, carrying its vertex tag or 0. */
  function Points(vs: seq<Vertex>, vtags: seq<VertTag>): (ps: seq<Point>)
    ensures |ps| == |vs|
    ensures forall i :: 0 <= i < |ps| ==> ps[i].id == i && ps[i].x == vs[i].x && ps[i].y == vs[i].y
    ensures forall i :: 0 <= i < |ps| && (forall t :: 0 <= t < |vtags| ==> vtags[t].key != i) ==> ps[i].marker == 0
    ensures UniqueKeys(vtags) ==>
      forall i, t :: 0 <= i < |ps| && 0 <= t < |vtags| && vtags[t].key == i ==> ps[i].marker == vtags[t].tag
  {
    seq(|vs|, i requires 0 <= i < |vs| => Point(i, MarkerOf(vtags, i), vs[i].x, vs[i].y))
  }

  /** `"lin3" if nnode == 3 else "qua4"`. */
  function KindOf(nnode: nat): (k: Kind)
    requires nnode == 3 || nnode == 4
    ensures NodeCount(k) == nnode
  {
    if nnode == 3 then Lin3 else Qua4
  }

  /** One cell record per accepted polygon, its kind fitting its node count. */
  function Cells(polys: seq<Polygon>, ctags: seq<CellTag>): (cs: seq<Cell>)
    requires forall i :: 0 <= i < |polys| ==> CellOk(polys[i])
    ensures |cs| == |polys|
    ensures forall i :: 0 <= i < |cs| ==> cs[i].id == i && cs[i].nodes == polys[i].vertices
    ensures forall i :: 0 <= i < |cs| ==> NodeCount(cs[i].kind) == |cs[i].nodes|
    ensures forall i :: 0 <= i < |cs| && (forall t :: 0 <= t < |ctags| ==> ctags[t].key != i) ==> cs[i].attribute == 0
    ensures UniqueKeys(ctags) ==>
      forall i, t :: 0 <= i < |cs| && 0 <= t < |ctags| && ctags[t].key == i ==> cs[i].attribute == ctags[t].tag
  {
    seq(|polys|, i requires 0 <= i < |polys| && CellOk(polys[i]) =>
          Cell(i, MarkerOf(ctags, i), KindOf(|polys[i].vertices|), polys[i].vertices))
  }

  /** One marked-edge record per edge-tag record, in store order, with the marker of the key's first record. */
  function Edges(etags: seq<EdgeTag>): (es: seq<MarkedEdge>)
    ensures |es| == |etags|
    ensures forall j :: 0 <= j < |es| ==> (es[j].v0, es[j].v1) == etags[j].key
    ensures forall j, t ::
      (0 <= j < |es| && 0 <= t < |etags| && etags[t].key == etags[j].key
       && forall u :: 0 <= u < t ==> etags[u].key != etags[j].key) ==> es[j].marker == etags[t].tag
    ensures UniqueKeys(etags) ==> forall j :: 0 <= j < |es| ==> es[j].marker == etags[j].tag
  {
    seq(|etags|, j requires 0 <= j < |etags| =>
          MarkedEdge(MarkerOf(etags, etags[j].key), etags[j].key.0, etags[j].key.1))
  }

  /** Everything the exporter checks before it can finish. */
  predicate Exportable(ctx: Option<Object>) {
    && ctx.Some? && ctx.value.isMesh && ctx.value.data.Some?
    && (forall i :: 0 <= i < |ctx.value.data.value.vertices| ==> FlatVertex(ctx.value.data.value.vertices[i]))
    && (forall i :: 0 <= i < |ctx.value.data.value.polygons| ==> CellOk(ctx.value.data.value.polygons[i]))
    && (|ctx.value.etags| > 0 ==> |ctx.value.data.value.polygons| > 0)
  }

  /**
   * The first check a mesh fails, in the exporter's order: every vertex's
   * z, then each polygon in turn, then the marked-edges comment's `nnode`.
   */
  function MeshError(m: Mesh, etags: seq<EdgeTag>): (r: Option<ExportError>)
    ensures r.None? <==>
      && (forall j :: 0 <= j < |m.vertices| ==> FlatVertex(m.vertices[j]))
      && (forall j :: 0 <= j < |m.polygons| ==> CellOk(m.polygons[j]))
      && (|etags| > 0 ==> |m.polygons| > 0)
    ensures r.Some? && r.value.NonZeroZ? ==>
      && r.value.vertex < |m.vertices| && !m.vertices[r.value.vertex].zIsZero
      && forall j :: 0 <= j < r.value.vertex ==> m.vertices[j].zIsZero
    ensures r.Some? && (r.value.NormalNotParallelToZ? || r.value.WrongWinding? || r.value.UnsupportedArity?) ==>
      && (forall j :: 0 <= j < |m.vertices| ==> m.vertices[j].zIsZero)
      && r.value.cell < |m.polygons| && r == PolygonError(m.polygons[r.value.cell], r.value.cell)
      && forall j :: 0 <= j < r.value.cell ==> CellOk(m.polygons[j])
    ensures r == Some(UndefinedNnode) <==>
      (forall j :: 0 <= j < |m.vertices| ==> m.vertices[j].zIsZero) && |m.polygons| == 0 && |etags| > 0
    ensures r != Some(NoMeshObject) && r != Some(NoMeshData)
  {
    match FirstFailing(m.vertices, FlatVertex)
    case Some(i) => Some(NonZeroZ(i))
    case None =>
      match FirstFailing(m.polygons, CellOk)
      case Some(i) => PolygonError(m.polygons[i], i)
      case None =>
        if |etags| > 0 && |m.polygons| == 0 then Some(UndefinedNnode) else None
  }

  /**
   * The document the exporter writes for the active object `ctx`, or the
   * reason it cancels: no mesh object, no mesh data, or the mesh's first
   * failed check.
   */
  function Build(ctx: Option<Object>): (r: Result<Document, ExportError>)
    ensures r.Success? <==> Exportable(ctx)
    ensures r == Failure(NoMeshObject) <==> ctx.None? || !ctx.value.isMesh
    ensures r == Failure(NoMeshData) <==> ctx.Some? && ctx.value.isMesh && ctx.value.data.None?
    ensures r.Failure? && ctx.Some? && Editable(ctx.value) ==> Some(r.error) == MeshError(ctx.value.data.value, ctx.value.etags)
    ensures r.Success? ==> |r.value.points| == |ctx.value.data.value.vertices|
    ensures r.Success? ==> |r.value.cells| == |ctx.value.data.value.polygons|
    ensures r.Success? ==> |r.value.edges| == |ctx.value.etags|
  {
    if ctx.None? || !ctx.value.isMesh then Failure(NoMeshObject)
    else if ctx.value.data.None? then Failure(NoMeshData)
    else
      var ob := ctx.value;
      var m := ob.data.value;
      match MeshError(m, ob.etags)
      case Some(e) => Failure(e)
      case None => Success(Document(Points(m.vertices, ob.vtags), Cells(m.polygons, ob.ctags), Edges(ob.etags)))
  }

  /** Python prints a float without blanks, so every coordinate text is one word. */
  predicate PrintedCoordinates(m: Mesh) {
    forall i :: 0 <= i < |m.vertices| ==> ' ' !in m.vertices[i].x && ' ' !in m.vertices[i].y
  }

  /** A built document has the shape `Render` can read back whenever its coordinate texts are blank-free. */
  lemma BuiltWellFormed(ctx: Option<Object>)
    requires Exportable(ctx)
    ensures Build(ctx).Success?
    ensures PrintedCoordinates(ctx.value.data.value) ==> WellFormed(Build(ctx).value)
  {
    var ob := ctx.value;
    var m := ob.data.value;
    var doc := Build(ctx).value;
    assert doc == Document(Points(m.vertices, ob.vtags), Cells(m.polygons, ob.ctags), Edges(ob.etags));
  }

  /** `write_2d_msh_file`: the lines of the written file, or why nothing is written. */
  function Export(ctx: Option<Object>): (r: Result<seq<string>, ExportError>)
    ensures r.Success? <==> Exportable(ctx)
    ensures r.Failure? ==> Build(ctx) == Failure(r.error)
    ensures r.Success? ==>
      var np, nc, ne := |ctx.value.data.value.vertices|, |ctx.value.data.value.polygons|, |ctx.value.etags|;
      && |r.value| == 9 + np + nc + (if ne > 0 then 3 + ne else 0)
      && r.value[..3] == [HeaderTitle, HeaderFields, HeaderLine(np, nc, ne)]
    ensures r.Success? && PrintedCoordinates(ctx.value.data.value) ==> Decode(r.value) == Some(Build(ctx).value)
  {
    match Build(ctx)
    case Failure(e) => Failure(e)
    case Success(doc) =>
      BuiltWellFormed(ctx);
      Success(Render(doc))
  }

  /**
   * What an export writes, read back: point `i` is vertex `i` with its
   * vertex marker; cell `i` is polygon `i` with its cell marker, its nodes
   * and `lin3` exactly for three nodes; marked edge `j` is the key of
   * edge-tag record `j` with the marker of that key.
   */
  lemma {:induction false} ExportReadsBack(ctx: Option<Object>)
    requires Exportable(ctx) && PrintedCoordinates(ctx.value.data.value)
    ensures Export(ctx).Success?
    ensures var ob := ctx.value; var m := ob.data.value; var doc := Decode(Export(ctx).value);
      && doc.Some?
      && |doc.value.points| == |m.vertices|
      && |doc.value.cells| == |m.polygons|
      && |doc.value.edges| == |ob.etags|
      && (forall i :: 0 <= i < |m.vertices| ==>
            doc.value.points[i] == Point(i, MarkerOf(ob.vtags, i), m.vertices[i].x, m.vertices[i].y))
      && (forall i :: 0 <= i < |m.polygons| ==>
            && doc.value.cells[i].id == i
            && doc.value.cells[i].attribute == MarkerOf(ob.ctags, i)
            && doc.value.cells[i].nodes == m.polygons[i].vertices
            && (doc.value.cells[i].kind == Lin3 <==> |m.polygons[i].vertices| == 3)
            && (doc.value.cells[i].kind == Qua4 <==> |m.polygons[i].vertices| == 4))
      && (forall j :: 0 <= j < |ob.etags| ==>
            doc.value.edges[j] == MarkedEdge(MarkerOf(ob.etags, ob.etags[j].key), ob.etags[j].key.0, ob.etags[j].key.1))
  {
    var ob := ctx.value;
    var m := ob.data.value;
    var doc := Build(ctx).value;
    assert doc == Document(Points(m.vertices, ob.vtags), Cells(m.polygons, ob.ctags), Edges(ob.etags));
    assert Decode(Export(ctx).value) == Some(doc) by {
      BuiltWellFormed(ctx);
      DecodeLayout(doc);
    }
  }

  /**
   * With valid overlays, every exported marker is the marker of the
   * feature's own record, 0 for an untagged feature, and within its kind's
   * bounds, so never above 0.
   */
  lemma {:induction false} ExportMarkers(ctx: Option<Object>)
    requires Exportable(ctx) && ValidTags(ctx.value)
    ensures var ob := ctx.value; var doc := Build(ctx).value;
      && (forall i, t :: 0 <= i < |doc.points| && 0 <= t < |ob.vtags| && ob.vtags[t].key == i ==>
            doc.points[i].marker == ob.vtags[t].tag)
      && (forall i :: 0 <= i < |doc.points| && (forall t :: 0 <= t < |ob.vtags| ==> ob.vtags[t].key != i) ==>
            doc.points[i].marker == 0)
      && (forall i, t :: 0 <= i < |doc.cells| && 0 <= t < |ob.ctags| && ob.ctags[t].key == i ==>
            doc.cells[i].attribute == ob.ctags[t].tag)
      && (forall i :: 0 <= i < |doc.cells| && (forall t :: 0 <= t < |ob.ctags| ==> ob.ctags[t].key != i) ==>
            doc.cells[i].attribute == 0)
      && (forall j :: 0 <= j < |doc.edges| ==> doc.edges[j].marker == ob.etags[j].tag)
      && (forall i :: 0 <= i < |doc.points| ==> VertTagMin <= doc.points[i].marker <= VertTagMax)
      && (forall i :: 0 <= i < |doc.cells| ==> CellTagMin <= doc.cells[i].attribute <= CellTagMax)
      && (forall j :: 0 <= j < |doc.edges| ==> EdgeTagMin <= doc.edges[j].marker <= EdgeTagMax)
  {
    var ob := ctx.value;
    var m := ob.data.value;
    var doc := Build(ctx).value;
    forall i | 0 <= i < |doc.points| ensures VertTagMin <= doc.points[i].marker <= VertTagMax {
      MarkerWithin(ob.vtags, i, VertTagMin, VertTagMax);
    }
    forall i | 0 <= i < |doc.cells| ensures CellTagMin <= doc.cells[i].attribute <= CellTagMax {
      MarkerWithin(ob.ctags, i, CellTagMin, CellTagMax);
    }
    forall j | 0 <= j < |doc.edges| ensures doc.edges[j].marker == ob.etags[j].tag
      && EdgeTagMin <= doc.edges[j].marker <= EdgeTagMax
    {
      assert doc.edges[j].marker == MarkerOf(ob.etags, ob.etags[j].key);
    }
  }

  /** A marker read from a store whose markers lie in `[lo, hi]` with `lo <= 0 <= hi` lies there too. */
  lemma MarkerWithin<K>(s: seq<Tag<K>>, k: K, lo: int, hi: int)
    requires TagsWithin(s, lo, hi) && lo <= 0 <= hi
    ensures lo <= MarkerOf(s, k) <= hi
  {
    if Lookup(s, k).Some? {
      var i :| 0 <= i < |s| && s[i].key == k && s[i].tag == Lookup(s, k).value;
    }
  }

  /**
   * Tag with the "set tag" operators from valid overlays, under in-bounds
   * scene defaults, then export the object with whatever mesh it has by
   * then: no marker in the written file is above 0.
   */
  lemma {:induction false} SessionExportMarkers(ob: Object, steps: seq<Command>, m: Mesh)
    requires ob.isMesh && ValidTags(ob)
    requires forall i :: 0 <= i < |steps| ==> ValidScene(steps[i].scene) && DistinctEdgeKeys(steps[i].mesh)
    requires Exportable(Some(ApplyAll(ob, steps).(data := Some(m))))
    ensures var doc := Build(Some(ApplyAll(ob, steps).(data := Some(m)))).value;
      && (forall i :: 0 <= i < |doc.points| ==> doc.points[i].marker <= 0)
      && (forall i :: 0 <= i < |doc.cells| ==> doc.cells[i].attribute <= 0)
      && (forall j :: 0 <= j < |doc.edges| ==> doc.edges[j].marker <= 0)
  {
    SessionKeepsTagsValid(ob, steps);
    var exported := ApplyAll(ob, steps).(data := Some(m));
    assert ValidTags(exported);
    ExportMarkers(Some(exported));
  }
}
