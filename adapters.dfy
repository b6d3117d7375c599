/** The adapter ("peft") directories under `<workspace>/adaptors/<model_id>`, as one directory
    tree below `<workspace>/adaptors`. */
module Adapters {
  import opened Records
  import opened Paths

  /** What `os.listdir` returns for an adapters directory: every entry name, files included. */
  function AdapterNames(es: seq<AdapterEntry>): (r: seq<string>)
    ensures |r| == |es|
    ensures forall i :: 0 <= i < |es| ==> r[i] == es[i].name
  {
    seq(|es|, i requires 0 <= i < |es| => es[i].name)
  }

  predicate UniqueAdapterNames(es: seq<AdapterEntry>) {
    forall i, j :: 0 <= i < j < |es| ==> es[i].name != es[j].name
  }

  /** `shutil.rmtree(f"{adaptors_dir}/{peft}")` on a directory that exists: its entry goes. */
  function WithoutAdapter(es: seq<AdapterEntry>, peft: string): (r: seq<AdapterEntry>)
    ensures forall e :: e in r <==> e in es && e.name != peft
    decreases |es|
  {
    if es == [] then []
    else
      var init, last := es[..|es| - 1], es[|es| - 1];
      assert es == init + [last];
      if last.name == peft then WithoutAdapter(init, peft) else WithoutAdapter(init, peft) + [last]
  }

  /** After a deletion the listing no longer names the adapter and still names every
      other adapter. */
  lemma DeletedAdapterIsNotListed(es: seq<AdapterEntry>, peft: string)
    ensures peft !in AdapterNames(WithoutAdapter(es, peft))
    ensures forall n :: n in AdapterNames(es) && n != peft ==> n in AdapterNames(WithoutAdapter(es, peft))
  {
    var w := WithoutAdapter(es, peft);
    forall n | n in AdapterNames(es) && n != peft ensures n in AdapterNames(w) {
      var i :| 0 <= i < |es| && AdapterNames(es)[i] == n;
      assert es[i] in w;
      var k :| 0 <= k < |w| && w[k] == es[i];
      assert AdapterNames(w)[k] == n;
    }
    forall k | 0 <= k < |w| ensures AdapterNames(w)[k] != peft {
      assert w[k] in w;
    }
  }

  /** A deletion keeps the adapter names distinct. */
  lemma {:induction false} WithoutAdapterKeepsNamesUnique(es: seq<AdapterEntry>, peft: string)
    requires UniqueAdapterNames(es)
    ensures UniqueAdapterNames(WithoutAdapter(es, peft))
    decreases |es|
  {
    if es != [] {
      var init, last := es[..|es| - 1], es[|es| - 1];
      assert es == init + [last];
      assert UniqueAdapterNames(init);
      WithoutAdapterKeepsNamesUnique(init, peft);
      var wi := WithoutAdapter(init, peft);
      if last.name != peft {
        forall i | 0 <= i < |wi| ensures wi[i].name != last.name {
          assert wi[i] in init;
          var k :| 0 <= k < |init| && init[k] == wi[i];
          assert es[k] == init[k];
        }
      }
    }
  }

  // ---------------------------------------------------------------------------
  // The directory tree below `<workspace>/adaptors`

  /** Every directory below `<workspace>/adaptors`, keyed by its path relative to it, with its
      entries. A model id is such a path, and one holding '/' is nested: the adapters directory
      of model `a/b` is also the adapter `b` of model `a`. A missing key is a missing directory. */
  type AdaptorDirs = map<string, seq<AdapterEntry>>

  /** The map describes one directory tree: entry names are single non-empty segments that
      are distinct within a directory, every subdirectory is itself a key, and every nested key
      is a subdirectory of its parent. */
  predicate Tree(a: AdaptorDirs) {
    (forall k, e :: k in a && e in a[k] ==> e.name != "" && '/' !in e.name) &&
    (forall k :: k in a ==> UniqueAdapterNames(a[k])) &&
    (forall k, e :: k in a && e in a[k] && e.isDir ==> k + "/" + e.name in a) &&
    (forall k :: k in a && '/' in k ==> Parent(k) in a && AdapterEntry(LastSegment(k), true) in a[Parent(k)])
  }

  /** `shutil.rmtree` of the directory at `t`: `t` and everything inside it goes, and the
      directory holding `t` no longer lists it. */
  function RemoveDir(a: AdaptorDirs, t: string): (r: AdaptorDirs)
    ensures forall k :: k in r <==> k in a && !Within(k, t)
    ensures forall k :: k in r && !('/' in t && k == Parent(t)) ==> r[k] == a[k]
    ensures '/' in t && Parent(t) in a ==> Parent(t) in r && r[Parent(t)] == WithoutAdapter(a[Parent(t)], LastSegment(t))
  {
    var kept := map k | k in a && !Within(k, t) :: a[k];
    if '/' in t && Parent(t) in a then kept[Parent(t) := WithoutAdapter(a[Parent(t)], LastSegment(t))]
    else kept
  }

  /** After a removal the map still describes one directory tree. */
  lemma RemoveDirKeepsTree(a: AdaptorDirs, t: string)
    requires Tree(a)
    ensures Tree(RemoveDir(a, t))
  {
    var r := RemoveDir(a, t);
    forall k | k in r ensures UniqueAdapterNames(r[k]) {
      if '/' in t && k == Parent(t) {
        WithoutAdapterKeepsNamesUnique(a[k], LastSegment(t));
      }
    }
    forall k: string, e: AdapterEntry | k in r && e in r[k] && e.isDir ensures k + "/" + e.name in r {
      var c := k + "/" + e.name;
      ParentOfChild(k, e.name);
      if '/' in t && k == Parent(t) {
        assert LastSegment(c) != LastSegment(t);
      }
      ChildOfOutside(k, e.name, t);
    }
    forall k | k in r && '/' in k
      ensures Parent(k) in r && AdapterEntry(LastSegment(k), true) in r[Parent(k)]
    {
      var p := Parent(k);
      if Within(p, t) {
        ChildStaysWithin(p, LastSegment(k), t);
      }
      assert k != t;
    }
  }

  // ---------------------------------------------------------------------------
  // `shutil.rmtree(f"{workspace}/adaptors/{model_id}/{peft}")`

  /** How `shutil.rmtree` of an adapter path ends. */
  datatype AdapterRemoval =
    | Removed
    | NoSuchPath      // FileNotFoundError
    | NotADirectory   // NotADirectoryError: the name is a file

  /** The path `f"{adaptors_dir}/{peft}"` names below `<workspace>/adaptors`: the adapter's
      directory inside the model's, or, for an empty adapter name, whose trailing '/' adds
      nothing, the model's adapters directory itself. */
  function PeftPath(modelId: string, peft: string): (r: string)
    ensures peft == "" ==> r == modelId
    ensures peft != "" && '/' !in peft ==> '/' in r && Parent(r) == modelId && LastSegment(r) == peft
  {
    if peft == "" then modelId
    else
      assert '/' !in peft ==> '/' in modelId + "/" + peft && Parent(modelId + "/" + peft) == modelId
                              && LastSegment(modelId + "/" + peft) == peft by {
        if '/' !in peft { ParentOfChild(modelId, peft); }
      }
      modelId + "/" + peft
  }

  /** The removal as written, on the adapter directories: how it ends and what is left. */
  function RemovePeft(adaptors: AdaptorDirs, modelId: string, peft: string): (r: (AdapterRemoval, AdaptorDirs))
    ensures r.1.Keys <= adaptors.Keys
    ensures r.0 != Removed ==> r.1 == adaptors
    ensures r.0 == Removed ==> forall k :: k in adaptors ==> (k in r.1 <==> !Within(k, PeftPath(modelId, peft)))
  {
    if modelId !in adaptors then (NoSuchPath, adaptors)
    else if peft == "" || AdapterEntry(peft, true) in adaptors[modelId] then
      (Removed, RemoveDir(adaptors, PeftPath(modelId, peft)))
    else if AdapterEntry(peft, false) in adaptors[modelId] then (NotADirectory, adaptors)
    else (NoSuchPath, adaptors)
  }

  /** A missing path and a plain file each raise and change nothing; otherwise the directory
      at the built path exists and is removed with everything inside it, the model's own
      listing drops the adapter, and the map still describes one tree. */
  lemma RemovePeftOutcomes(adaptors: AdaptorDirs, modelId: string, peft: string)
    requires Tree(adaptors)
    ensures var (res, after) := RemovePeft(adaptors, modelId, peft);
      && (res == NoSuchPath <==>
            modelId !in adaptors || (peft != "" && peft !in AdapterNames(adaptors[modelId])))
      && (res == NotADirectory <==>
            modelId in adaptors && peft != "" && AdapterEntry(peft, false) in adaptors[modelId])
      && (res == Removed ==>
            && PeftPath(modelId, peft) in adaptors
            && after == RemoveDir(adaptors, PeftPath(modelId, peft))
            && Tree(after))
      && (res == Removed && peft != "" ==>
            && AdapterEntry(peft, true) in adaptors[modelId]
            && modelId in after && after[modelId] == WithoutAdapter(adaptors[modelId], peft))
  {
    if modelId in adaptors && peft != "" {
      var es := adaptors[modelId];
      if peft in AdapterNames(es) {
        var i :| 0 <= i < |es| && AdapterNames(es)[i] == peft;
        assert es[i] == AdapterEntry(peft, es[i].isDir);
      } else {
        assert AdapterEntry(peft, true) !in es && AdapterEntry(peft, false) !in es by {
          forall i | 0 <= i < |es| ensures es[i].name != peft {
            assert AdapterNames(es)[i] == es[i].name;
          }
        }
      }
      if AdapterEntry(peft, true) in es {
        assert '/' !in peft;
        assert PeftPath(modelId, peft) == modelId + "/" + peft;
      }
    }
    if RemovePeft(adaptors, modelId, peft).0 == Removed {
      RemoveDirKeepsTree(adaptors, PeftPath(modelId, peft));
    }
  }

  /** As written: a request with an empty adapter name succeeds and removes the model's
      adapters directory with every adapter, and every model nested in it, inside. */
  lemma EmptyPeftRemovesAllAdapters(adaptors: AdaptorDirs, modelId: string)
    requires modelId in adaptors
    ensures RemovePeft(adaptors, modelId, "").0 == Removed
    ensures forall k :: k in RemovePeft(adaptors, modelId, "").1 ==> !Within(k, modelId)
  {
  }

  /** The removal as intended: an empty name names no adapter, so it fails like any other
      missing one; every other request is the removal as written. */
  function IntendedRemovePeft(adaptors: AdaptorDirs, modelId: string, peft: string): (r: (AdapterRemoval, AdaptorDirs))
    ensures r.1.Keys <= adaptors.Keys
    ensures modelId in adaptors ==> modelId in r.1
  {
    if peft == "" then (NoSuchPath, adaptors) else RemovePeft(adaptors, modelId, peft)
  }

  /** The intended removal takes at most the one named adapter: the model keeps its adapters
      directory, a removal takes that adapter off the model's listing and keeps every other
      one and every directory outside the adapter's, and a failure changes nothing. */
  lemma IntendedRemovalTakesOnlyTheAdapter(adaptors: AdaptorDirs, modelId: string, peft: string)
    requires Tree(adaptors)
    ensures var (res, after) := IntendedRemovePeft(adaptors, modelId, peft);
      && (modelId in adaptors ==> modelId in after)
      && (res != Removed ==> after == adaptors)
      && (res == Removed ==>
            && peft in AdapterNames(adaptors[modelId])
            && peft !in AdapterNames(after[modelId])
            && (forall n :: n in AdapterNames(adaptors[modelId]) && n != peft ==> n in AdapterNames(after[modelId]))
            && (forall k :: k in adaptors && !Within(k, modelId + "/" + peft) ==> k in after))
  {
    if peft != "" {
      RemovePeftOutcomes(adaptors, modelId, peft);
      if modelId in adaptors {
        DeletedAdapterIsNotListed(adaptors[modelId], peft);
      }
    }
  }
}
