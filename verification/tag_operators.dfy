/**
 * The three "set tag" operators (`SetVertexTag`, `SetEdgeTag`,
 * `SetCellTag`): every selected feature of the active mesh gets the scene's
 * default tag of its kind, through the upsert rule of `TagStore`.
 */
module TagOperators {
  import opened Wrappers
  import opened TagStore
  import opened BlenderMesh

  /** Every key's lookup after `Upsert`, in one statement. */
  lemma UpsertLookupAll<K>(store: seq<Tag<K>>, selected: seq<K>, d: int)
    ensures forall k :: Lookup(Upsert(store, selected, d), k) == if k in selected then Some(d) else Lookup(store, k)
  {
    forall k ensures Lookup(Upsert(store, selected, d), k) == if k in selected then Some(d) else Lookup(store, k) {
      UpsertLookup(store, selected, d, k);
    }
  }

  /** Upsert with a distinct selection and an in-bounds default keeps a store valid. */
  lemma UpsertKeepsValid<K>(store: seq<Tag<K>>, selected: seq<K>, d: int, lo: int, hi: int)
    ensures Distinct(selected) && lo <= d <= hi && UniqueKeys(store) && TagsWithin(store, lo, hi) ==>
      UniqueKeys(Upsert(store, selected, d)) && TagsWithin(Upsert(store, selected, d), lo, hi)
  {
    if Distinct(selected) && lo <= d <= hi && UniqueKeys(store) && TagsWithin(store, lo, hi) {
      UpsertPreservesUniqueKeys(store, selected, d);
      UpsertTagsWithin(store, selected, d, lo, hi);
    }
  }

  /** `SetVertexTag.execute`: tag the selected vertices with the default vertex tag. */
  function SetVertexTag(ob: Object, sc: Scene): (r: Object)
    requires Editable(ob)
    ensures r == ob.(vtags := r.vtags)
    ensures forall k :: (Lookup(r.vtags, k) ==
      if 0 <= k < |ob.data.value.vertices| && ob.data.value.vertices[k].select then Some(sc.defaultVertTag)
      else Lookup(ob.vtags, k))
    ensures ValidTags(ob) && ValidScene(sc) ==> ValidTags(r)
  {
    var selected := SelectedVertices(ob.data.value);
    UpsertLookupAll(ob.vtags, selected, sc.defaultVertTag);
    UpsertKeepsValid(ob.vtags, selected, sc.defaultVertTag, VertTagMin, VertTagMax);
    ob.(vtags := Upsert(ob.vtags, selected, sc.defaultVertTag))
  }

  /** `SetEdgeTag.execute`: tag the selected edges with the default edge tag. */
  function SetEdgeTag(ob: Object, sc: Scene): (r: Object)
    requires Editable(ob)
    ensures r == ob.(etags := r.etags)
    ensures forall k :: (Lookup(r.etags, k) ==
      if EdgeSelected(ob.data.value, k) then Some(sc.defaultEdgeTag)
      else Lookup(ob.etags, k))
    ensures ValidTags(ob) && ValidScene(sc) && DistinctEdgeKeys(ob.data.value) ==> ValidTags(r)
  {
    var selected := SelectedEdgeKeys(ob.data.value);
    assert forall k :: k in selected <==> EdgeSelected(ob.data.value, k) by {
      forall k ensures k in selected <==> EdgeSelected(ob.data.value, k) {
        if EdgeSelected(ob.data.value, k) {
          var i :| 0 <= i < |ob.data.value.edges| && ob.data.value.edges[i].select && ob.data.value.edges[i].key == k;
        }
      }
    }
    UpsertLookupAll(ob.etags, selected, sc.defaultEdgeTag);
    UpsertKeepsValid(ob.etags, selected, sc.defaultEdgeTag, EdgeTagMin, EdgeTagMax);
    ob.(etags := Upsert(ob.etags, selected, sc.defaultEdgeTag))
  }

  /** `SetCellTag.execute`: tag the selected polygons with the default cell tag. */
  function SetCellTag(ob: Object, sc: Scene): (r: Object)
    requires Editable(ob)
    ensures r == ob.(ctags := r.ctags)
    ensures forall k :: (Lookup(r.ctags, k) ==
      if 0 <= k < |ob.data.value.polygons| && ob.data.value.polygons[k].select then Some(sc.defaultCellTag)
      else Lookup(ob.ctags, k))
    ensures ValidTags(ob) && ValidScene(sc) ==> ValidTags(r)
  {
    var selected := SelectedPolygons(ob.data.value);
    UpsertLookupAll(ob.ctags, selected, sc.defaultCellTag);
    UpsertKeepsValid(ob.ctags, selected, sc.defaultCellTag, CellTagMin, CellTagMax);
    ob.(ctags := Upsert(ob.ctags, selected, sc.defaultCellTag))
  }

  /** A user action on the tag overlays. */
  datatype Action = TagVertices | TagEdges | TagCells

  function Apply(ob: Object, sc: Scene, a: Action): (r: Object)
    requires Editable(ob)
    ensures Editable(r) && r.data == ob.data
  {
    match a
    case TagVertices => SetVertexTag(ob, sc)
    case TagEdges => SetEdgeTag(ob, sc)
    case TagCells => SetCellTag(ob, sc)
  }

  /**
   * One operator call of a session: the mesh as the user left it (its
   * geometry and its selection at that moment), the scene defaults of that
   * moment, and the operator invoked.
   */
  datatype Command = Command(mesh: Mesh, scene: Scene, action: Action)

  /**
   * The object after a session of commands. Between calls the user may
   * select other features or edit the mesh; the overlays carry over.
   */
  function ApplyAll(ob: Object, steps: seq<Command>): (r: Object)
    requires ob.isMesh
    ensures r.isMesh
    ensures r.data == if steps == [] then ob.data else Some(steps[|steps| - 1].mesh)
    decreases |steps|
  {
    if steps == [] then ob
    else
      var next := Apply(ob.(data := Some(steps[0].mesh)), steps[0].scene, steps[0].action);
      assert steps[1..] != [] ==> steps[1..][|steps[1..]| - 1] == steps[|steps| - 1];
      ApplyAll(next, steps[1..])
  }

  /**
   * From valid overlays, any session of "set tag" commands with in-bounds
   * scene defaults, on meshes without duplicate edges, leaves every overlay
   * with unique keys and every marker within its bounds, hence no marker
   * above 0.
   */
  lemma {:induction false} SessionKeepsTagsValid(ob: Object, steps: seq<Command>)
    requires ob.isMesh && ValidTags(ob)
    requires forall i :: 0 <= i < |steps| ==> ValidScene(steps[i].scene) && DistinctEdgeKeys(steps[i].mesh)
    ensures ValidTags(ApplyAll(ob, steps))
    ensures forall i :: 0 <= i < |ApplyAll(ob, steps).vtags| ==> ApplyAll(ob, steps).vtags[i].tag <= 0
    ensures forall i :: 0 <= i < |ApplyAll(ob, steps).etags| ==> ApplyAll(ob, steps).etags[i].tag <= 0
    ensures forall i :: 0 <= i < |ApplyAll(ob, steps).ctags| ==> ApplyAll(ob, steps).ctags[i].tag <= 0
    decreases |steps|
  {
    if steps != [] {
      var current := ob.(data := Some(steps[0].mesh));
      assert ValidTags(current);
      var next := Apply(current, steps[0].scene, steps[0].action);
      assert ValidTags(next);
      SessionKeepsTagsValid(next, steps[1..]);
    }
  }
}
