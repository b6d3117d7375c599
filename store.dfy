/** The local-model store seen as a sequence of records with append and remove-by-id. */
module Store {
  import opened Records

  /** `set(model['model_id'] for model in local_models)`. */
  function LocalIds(store: seq<LocalModel>): (ids: set<string>)
    ensures forall id :: id in ids <==> exists k :: 0 <= k < |store| && store[k].modelId == id
  {
    set k | 0 <= k < |store| :: store[k].modelId
  }

  /** `db.model_local_delete(model_id)`: the records with that id leave the store. */
  function WithoutModel(store: seq<LocalModel>, modelId: string): (r: seq<LocalModel>)
    ensures forall m :: m in r <==> m in store && m.modelId != modelId
    ensures modelId !in LocalIds(r)
    ensures modelId !in LocalIds(store) ==> r == store
    ensures |r| <= |store|
    decreases |store|
  {
    if store == [] then []
    else
      var init, last := store[..|store| - 1], store[|store| - 1];
      assert store == init + [last];
      if last.modelId == modelId then WithoutModel(init, modelId)
      else WithoutModel(init, modelId) + [last]
  }

  /** Removal works record by record, so the remaining records keep their order. */
  lemma {:induction false} WithoutModelDistributes(a: seq<LocalModel>, b: seq<LocalModel>, modelId: string)
    ensures WithoutModel(a + b, modelId) == WithoutModel(a, modelId) + WithoutModel(b, modelId)
    decreases |b|
  {
    if b == [] {
      assert a + b == a;
    } else {
      var init, last := b[..|b| - 1], b[|b| - 1];
      assert (a + b)[..|a + b| - 1] == a + init;
      assert (a + b)[|a + b| - 1] == last;
      WithoutModelDistributes(a, init, modelId);
    }
  }

  /** Deleting an id right after creating a record under it leaves what deleting would have left before. */
  lemma CreateThenDelete(store: seq<LocalModel>, m: LocalModel)
    ensures WithoutModel(store + [m], m.modelId) == WithoutModel(store, m.modelId)
  {
    WithoutModelDistributes(store, [m], m.modelId);
    assert [m][..0] == [];
  }
}
