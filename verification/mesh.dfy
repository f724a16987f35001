/**
 * The part of a Blender mesh object the add-on reads and writes: vertices,
 * edges and polygons with their selection state, the three tag overlays
 * stored on the object, and the scene's default tag values.
 *
 * Geometry enters the model already evaluated: a vertex carries the text of
 * its world x and y coordinates and the outcome of the exporter's test on
 * its world z; a polygon carries the outcome of the tests on its normal. A feature's index is
 * its position in the mesh's sequence.
 */
module BlenderMesh {
  import opened Wrappers
  import opened TagStore

  /** Blender's `edge.key`: the pair of vertex indices of an edge. */
  type EdgeKey = (int, int)

  /** `ObjectVertTag(tag, idx)`: key is the vertex index. */
  type VertTag = Tag<int>
  /** `ObjectEdgeTag(tag, v0, v1)`: key is `(v0, v1)`. */
  type EdgeTag = Tag<EdgeKey>
  /** `ObjectCellTag(tag, idx)`: key is the polygon index. */
  type CellTag = Tag<int>

  /**
   * `x` and `y` are the coordinates of `matrix_world @ v.co` as Python
   * prints them; `zIsZero` says the exporter's test `abs(z) > 0.0` on its
   * z coordinate does not fire (z is 0, or NaN, for which the test is
   * false).
   */
  datatype Vertex = Vertex(x: string, y: string, zIsZero: bool, select: bool)

  datatype MeshEdge = MeshEdge(key: EdgeKey, select: bool)

  /**
   * `normalAlongZ`: the exporter's test `abs(n[0]) > tol or abs(n[1]) > tol`
   * on the face normal does not fire; `normalUp`: its test `n[2] < tol` does
   * not fire. A NaN component makes a test false, so it counts as passing.
   */
  datatype Polygon = Polygon(vertices: seq<int>, normalAlongZ: bool, normalUp: bool, select: bool)

  datatype Mesh = Mesh(vertices: seq<Vertex>, edges: seq<MeshEdge>, polygons: seq<Polygon>)

  /** The active object: whether it is of type MESH, its mesh data, its tag overlays. */
  datatype Object = Object(isMesh: bool, data: Option<Mesh>, vtags: seq<VertTag>, etags: seq<EdgeTag>, ctags: seq<CellTag>)

  /** The scene's current default tags, used by the "set tag" operators. */
  datatype Scene = Scene(defaultVertTag: int, defaultEdgeTag: int, defaultCellTag: int)

  /** Declared bounds and initial values of the scene's default tags. */
  const VertTagMin: int := -1000
  const VertTagMax: int := 0
  const EdgeTagMin: int := -99
  const EdgeTagMax: int := 0
  const CellTagMin: int := -99
  const CellTagMax: int := 0
  const InitialScene: Scene := Scene(-100, -10, -1)

  /** The scene's defaults lie within their declared bounds. */
  predicate ValidScene(sc: Scene) {
    && VertTagMin <= sc.defaultVertTag <= VertTagMax
    && EdgeTagMin <= sc.defaultEdgeTag <= EdgeTagMax
    && CellTagMin <= sc.defaultCellTag <= CellTagMax
  }

  /** The initial defaults respect the declared bounds. */
  lemma InitialSceneValid()
    ensures ValidScene(InitialScene)
  {
  }

  predicate TagsWithin<K>(s: seq<Tag<K>>, lo: int, hi: int) {
    forall i :: 0 <= i < |s| ==> lo <= s[i].tag <= hi
  }

  /**
   * The invariant the operators keep on an object's overlays: no feature
   * has two records, and every marker lies within its kind's bounds.
   */
  predicate ValidTags(ob: Object) {
    && UniqueKeys(ob.vtags) && UniqueKeys(ob.etags) && UniqueKeys(ob.ctags)
    && TagsWithin(ob.vtags, VertTagMin, VertTagMax)
    && TagsWithin(ob.etags, EdgeTagMin, EdgeTagMax)
    && TagsWithin(ob.ctags, CellTagMin, CellTagMax)
  }

  /** The operators' `poll`: a mesh object is active (edit mode is not modelled). */
  predicate Editable(ob: Object) {
    ob.isMesh && ob.data.Some?
  }

  /** Blender never keeps two edges between the same pair of vertices. */
  predicate DistinctEdgeKeys(m: Mesh) {
    forall i, j :: 0 <= i < j < |m.edges| ==> m.edges[i].key != m.edges[j].key
  }

  /** The positions of the set flags, in increasing order. */
  function SelectedIndices(flags: seq<bool>): (r: seq<int>)
    ensures forall j :: 0 <= j < |r| ==> 0 <= r[j] < |flags| && flags[r[j]]
    ensures forall i :: 0 <= i < |flags| && flags[i] ==> i in r
    ensures forall a, b :: 0 <= a < b < |r| ==> r[a] < r[b]
  {
    if flags == [] then []
    else
      var n := |flags| - 1;
      var init := SelectedIndices(flags[..n]);
      assert forall i :: 0 <= i < n ==> flags[..n][i] == flags[i];
      init + (if flags[n] then [n] else [])
  }

  /** Indices of the selected vertices, in mesh order. */
  function SelectedVertices(m: Mesh): (r: seq<int>)
    ensures forall k :: k in r <==> 0 <= k < |m.vertices| && m.vertices[k].select
    ensures Distinct(r)
    ensures forall a, b :: 0 <= a < b < |r| ==> r[a] < r[b]
  {
    SelectedIndices(seq(|m.vertices|, i requires 0 <= i < |m.vertices| => m.vertices[i].select))
  }

  /** Indices of the selected polygons, in mesh order. */
  function SelectedPolygons(m: Mesh): (r: seq<int>)
    ensures forall k :: k in r <==> 0 <= k < |m.polygons| && m.polygons[k].select
    ensures Distinct(r)
    ensures forall a, b :: 0 <= a < b < |r| ==> r[a] < r[b]
  {
    SelectedIndices(seq(|m.polygons|, i requires 0 <= i < |m.polygons| => m.polygons[i].select))
  }

  /** Indices of the selected edges, in mesh order. */
  function SelectedEdges(m: Mesh): (idx: seq<int>)
    ensures forall j :: 0 <= j < |idx| ==> 0 <= idx[j] < |m.edges| && m.edges[idx[j]].select
    ensures forall i :: 0 <= i < |m.edges| && m.edges[i].select ==> i in idx
    ensures forall a, b :: 0 <= a < b < |idx| ==> idx[a] < idx[b]
  {
    var flags := seq(|m.edges|, i requires 0 <= i < |m.edges| => m.edges[i].select);
    assert forall i :: 0 <= i < |m.edges| ==> flags[i] == m.edges[i].select;
    SelectedIndices(flags)
  }

  /** Some selected edge of `m` has key `k`. */
  predicate EdgeSelected(m: Mesh, k: EdgeKey) {
    exists i :: 0 <= i < |m.edges| && m.edges[i].select && m.edges[i].key == k
  }

  lemma SelectedEdgeKeysFacts(m: Mesh, idx: seq<int>, r: seq<EdgeKey>)
    requires idx == SelectedEdges(m)
    requires |r| == |idx| && forall j :: 0 <= j < |idx| ==> r[j] == m.edges[idx[j]].key
    ensures forall j :: 0 <= j < |r| ==> EdgeSelected(m, r[j])
    ensures forall i :: 0 <= i < |m.edges| && m.edges[i].select ==> m.edges[i].key in r
    ensures DistinctEdgeKeys(m) ==> Distinct(r)
  {
    SelectedEdgeKeysSound(m, idx, r);
    SelectedEdgeKeysComplete(m, idx, r);
    if DistinctEdgeKeys(m) {
      SelectedEdgeKeysDistinct(m, idx, r);
    }
  }

  lemma SelectedEdgeKeysSound(m: Mesh, idx: seq<int>, r: seq<EdgeKey>)
    requires idx == SelectedEdges(m)
    requires |r| == |idx| && forall j :: 0 <= j < |idx| ==> r[j] == m.edges[idx[j]].key
    ensures forall j :: 0 <= j < |r| ==> EdgeSelected(m, r[j])
  {
    forall j | 0 <= j < |r| ensures EdgeSelected(m, r[j]) {
      var i := idx[j];
      assert 0 <= i < |m.edges| && m.edges[i].select && m.edges[i].key == r[j];
    }
  }

  lemma SelectedEdgeKeysComplete(m: Mesh, idx: seq<int>, r: seq<EdgeKey>)
    requires idx == SelectedEdges(m)
    requires |r| == |idx| && forall j :: 0 <= j < |idx| ==> r[j] == m.edges[idx[j]].key
    ensures forall i :: 0 <= i < |m.edges| && m.edges[i].select ==> m.edges[i].key in r
  {
    forall i | 0 <= i < |m.edges| && m.edges[i].select ensures m.edges[i].key in r {
      var j :| 0 <= j < |idx| && idx[j] == i;
      assert r[j] == m.edges[i].key;
    }
  }

  lemma SelectedEdgeKeysDistinct(m: Mesh, idx: seq<int>, r: seq<EdgeKey>)
    requires idx == SelectedEdges(m) && DistinctEdgeKeys(m)
    requires |r| == |idx| && forall j :: 0 <= j < |idx| ==> r[j] == m.edges[idx[j]].key
    ensures Distinct(r)
  {
    forall a, b | 0 <= a < b < |r| ensures r[a] != r[b] {
      assert idx[a] < idx[b];
    }
  }

  function SelectedEdgeKeys(m: Mesh): (r: seq<EdgeKey>)
    ensures forall j :: 0 <= j < |r| ==> EdgeSelected(m, r[j])
    ensures forall i :: 0 <= i < |m.edges| && m.edges[i].select ==> m.edges[i].key in r
    ensures DistinctEdgeKeys(m) ==> Distinct(r)
    ensures |r| == |SelectedEdges(m)| && forall j :: 0 <= j < |r| ==> r[j] == m.edges[SelectedEdges(m)[j]].key
  {
    var idx := SelectedEdges(m);
    var r := seq(|idx|, j requires 0 <= j < |idx| => m.edges[idx[j]].key);
    SelectedEdgeKeysFacts(m, idx, r);
    r
  }
}
