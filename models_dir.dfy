/** The models directory: the scan that `model_local_list` appends to the store's records,
    the normalisation of each `info.json`, and the directory removal of `model_local_delete`. */
module ModelsDir {
  import opened Wrappers
  import opened Json
  import opened Paths
  import opened Records

  /** The exceptions that escape `model_local_list`; only FileNotFoundError is caught there. */
  datatype ListError =
    | JsonDecodeError   // info.json is not valid JSON
    | IndexError        // info.json holds an empty list
    | TypeError         // the described value is not an object, or its model_filename is not a string

  type Fields = map<string, Json>

  /** One element of the listing: a store record or a normalised `info.json`. */
  datatype Listed = FromStore(record: LocalModel) | FromFilesystem(fields: Fields)

  const STORED_IN_FILESYSTEM: string := "stored_in_filesystem"
  const LOCAL_PATH: string := "local_path"
  const MODEL_FILENAME: string := "model_filename"

  /** `"model_filename" in filedata and filedata["model_filename"]` */
  predicate NamesModelFile(obj: Fields) {
    MODEL_FILENAME in obj && Truthy(obj[MODEL_FILENAME])
  }

  /** The annotation of one `info.json` object found in the directory at `dirPath`. */
  function NormaliseObject(dirPath: string, v: Json): (r: Result<Fields, ListError>)
    ensures !v.JObj? ==> r == Err(TypeError)
    ensures v.JObj? && NamesModelFile(v.fields) && !v.fields[MODEL_FILENAME].JStr? ==> r == Err(TypeError)
    ensures v.JObj? && (!NamesModelFile(v.fields) || v.fields[MODEL_FILENAME].JStr?) ==> r.Ok?
    ensures r.Ok? ==> v.JObj? && r.value.Keys == v.fields.Keys + {STORED_IN_FILESYSTEM, LOCAL_PATH}
    ensures r.Ok? ==> forall k :: k in v.fields && k != STORED_IN_FILESYSTEM && k != LOCAL_PATH ==> r.value[k] == v.fields[k]
    ensures r.Ok? ==> r.value[STORED_IN_FILESYSTEM] == JBool(true)
    ensures r.Ok? ==>
      r.value[LOCAL_PATH] == JStr(if NamesModelFile(v.fields) then Join(dirPath, v.fields[MODEL_FILENAME].s) else dirPath)
  {
    match v
    case JObj(obj) =>
      var marked := obj[STORED_IN_FILESYSTEM := JBool(true)][LOCAL_PATH := JStr(dirPath)];
      if NamesModelFile(marked) then
        match marked[MODEL_FILENAME]
        case JStr(file) => Ok(marked[LOCAL_PATH := JStr(Join(dirPath, file))])
        case _ => Err(TypeError)
      else Ok(marked)
    case _ => Err(TypeError)
  }

  /** The body of the `try` for one directory whose `info.json` parsed to `doc`: a list
      stands for its first element. */
  function Normalise(modelsDir: string, name: string, doc: Json): (r: Result<Fields, ListError>)
    ensures !doc.JArr? && !doc.JObj? ==> r == Err(TypeError)
    ensures r.Ok? ==> STORED_IN_FILESYSTEM in r.value && r.value[STORED_IN_FILESYSTEM] == JBool(true)
    ensures r.Ok? ==> LOCAL_PATH in r.value && r.value[LOCAL_PATH].JStr?
  {
    var dirPath := ScannedDirPath(modelsDir, name);
    match doc
    case JArr(items) => if items == [] then Err(IndexError) else NormaliseObject(dirPath, items[0])
    case _ => NormaliseObject(dirPath, doc)
  }

  /** Both shapes of `info.json` describe the same model: an object, or a list starting with it. */
  lemma ListShapeIsFirstElement(modelsDir: string, name: string, obj: Fields, rest: seq<Json>)
    ensures Normalise(modelsDir, name, JArr([JObj(obj)] + rest)) == Normalise(modelsDir, name, JObj(obj))
    ensures Normalise(modelsDir, name, JArr([])) == Err(IndexError)
  {
    assert ([JObj(obj)] + rest)[0] == JObj(obj);
  }

  /** What the loop of `model_local_list` does with one scanned entry. */
  datatype Step = Skip | Keep(fields: Fields) | Stop(error: ListError)

  function ScanStep(modelsDir: string, e: DirEntry): (r: Step)
    ensures r.Skip? <==> !HasInfo(e)
    ensures r.Keep? ==> STORED_IN_FILESYSTEM in r.fields && r.fields[STORED_IN_FILESYSTEM] == JBool(true)
  {
    if !e.isDir then Skip
    else
      match e.info
      case Missing => Skip
      case Malformed => Stop(JsonDecodeError)
      case Contents(doc) =>
        match Normalise(modelsDir, e.name, doc)
        case Ok(fields) => Keep(fields)
        case Err(err) => Stop(err)
  }

  /** A directory that holds an `info.json` file (`os.path.isfile` of it is true). */
  predicate HasInfo(e: DirEntry) {
    e.isDir && !e.info.Missing?
  }

  /** The scanned entries, in scan order, that the listing reads. */
  function Candidates(es: seq<DirEntry>): (r: seq<DirEntry>)
    ensures forall e :: e in r <==> e in es && HasInfo(e)
    decreases |es|
  {
    if es == [] then []
    else
      var init, last := es[..|es| - 1], es[|es| - 1];
      assert es == init + [last];
      Candidates(init) + (if HasInfo(last) then [last] else [])
  }

  /** The filesystem half of the listing: the normalised entries in scan order, or the
      first exception raised. */
  function Scan(modelsDir: string, es: seq<DirEntry>): (r: Result<seq<Fields>, ListError>)
    ensures r.Ok? ==> |r.value| <= |es|
    ensures r.Ok? ==> forall k :: 0 <= k < |r.value| ==>
      STORED_IN_FILESYSTEM in r.value[k] && r.value[k][STORED_IN_FILESYSTEM] == JBool(true)
    decreases |es|
  {
    if es == [] then Ok([])
    else
      match Scan(modelsDir, es[..|es| - 1])
      case Err(err) => Err(err)
      case Ok(found) =>
        match ScanStep(modelsDir, es[|es| - 1])
        case Skip => Ok(found)
        case Keep(fields) => Ok(found + [fields])
        case Stop(err) => Err(err)
  }

  /** One more scanned entry either adds nothing to the candidates or is the new last one. */
  lemma CandidatesOfSnoc(init: seq<DirEntry>, last: DirEntry)
    ensures Candidates(init + [last]) == Candidates(init) + (if HasInfo(last) then [last] else [])
  {
    assert (init + [last])[..|init|] == init;
  }

  /** The scan succeeds exactly when no directory with an `info.json` raises. */
  lemma {:induction false} ScanOkIffNoCandidateRaises(modelsDir: string, es: seq<DirEntry>)
    ensures Scan(modelsDir, es).Ok? <==> forall e :: e in Candidates(es) ==> !ScanStep(modelsDir, e).Stop?
    decreases |es|
  {
    if es != [] {
      var init, last := es[..|es| - 1], es[|es| - 1];
      assert es == init + [last];
      ScanOkIffNoCandidateRaises(modelsDir, init);
      CandidatesOfSnoc(init, last);
      var step := ScanStep(modelsDir, last);
      if HasInfo(last) && !step.Stop? {
        forall e | e in Candidates(es) ensures (e != last ==> e in Candidates(init)) { }
      } else if HasInfo(last) {
        assert last in Candidates(es);
      }
    }
  }

  /** A successful scan holds one normalised entry per directory with an `info.json`, in scan order. */
  lemma {:induction false} ScanOkFollowsCandidates(modelsDir: string, es: seq<DirEntry>)
    requires Scan(modelsDir, es).Ok?
    ensures |Scan(modelsDir, es).value| == |Candidates(es)|
    ensures forall k :: 0 <= k < |Candidates(es)| ==>
      ScanStep(modelsDir, Candidates(es)[k]) == Keep(Scan(modelsDir, es).value[k])
    decreases |es|
  {
    if es != [] {
      var init, last := es[..|es| - 1], es[|es| - 1];
      OkScanOfSnoc(modelsDir, es);
      ScanOkFollowsCandidates(modelsDir, init);
      CandidatesOfSnoc(init, last);
      if HasInfo(last) {
        KeptInOrder(modelsDir, Candidates(init), last, Scan(modelsDir, init).value, ScanStep(modelsDir, last).fields);
      }
    }
  }

  /** A successful scan extends the successful scan of all but its last entry. */
  lemma OkScanOfSnoc(modelsDir: string, es: seq<DirEntry>)
    requires es != [] && Scan(modelsDir, es).Ok?
    ensures Scan(modelsDir, es[..|es| - 1]).Ok? && !ScanStep(modelsDir, es[|es| - 1]).Stop?
    ensures Scan(modelsDir, es).value ==
      Scan(modelsDir, es[..|es| - 1]).value +
      (if HasInfo(es[|es| - 1]) then [ScanStep(modelsDir, es[|es| - 1]).fields] else [])
  {
  }

  lemma KeptInOrder(modelsDir: string, c: seq<DirEntry>, last: DirEntry, found: seq<Fields>, fields: Fields)
    requires |found| == |c|
    requires forall k :: 0 <= k < |c| ==> ScanStep(modelsDir, c[k]) == Keep(found[k])
    requires ScanStep(modelsDir, last) == Keep(fields)
    ensures forall k :: 0 <= k < |c| + 1 ==> ScanStep(modelsDir, (c + [last])[k]) == Keep((found + [fields])[k])
  {
    forall k | 0 <= k < |c| + 1 ensures ScanStep(modelsDir, (c + [last])[k]) == Keep((found + [fields])[k]) {
      if k < |c| {
        assert (c + [last])[k] == c[k] && (found + [fields])[k] == found[k];
      }
    }
  }

  /** A failed scan fails with the exception of the first directory with an `info.json` that raises. */
  lemma {:induction false} ScanErrIsFirstRaise(modelsDir: string, es: seq<DirEntry>)
    requires Scan(modelsDir, es).Err?
    ensures FirstRaise(modelsDir, Candidates(es), Scan(modelsDir, es).error)
    decreases |es|
  {
    var init, last := es[..|es| - 1], es[|es| - 1];
    assert es == init + [last];
    CandidatesOfSnoc(init, last);
    if Scan(modelsDir, init).Err? {
      ScanErrIsFirstRaise(modelsDir, init);
      FirstRaiseCarriesOver(modelsDir, Candidates(init), Candidates(es), Scan(modelsDir, es).error);
    } else {
      ScanOkIffNoCandidateRaises(modelsDir, init);
      LastRaise(modelsDir, init, last, Scan(modelsDir, es).error);
    }
  }

  /** Directory `k` of `c` raises `err`, and no earlier one raises. */
  predicate FirstRaise(modelsDir: string, c: seq<DirEntry>, err: ListError) {
    exists k :: 0 <= k < |c| && ScanStep(modelsDir, c[k]) == Stop(err) &&
                forall j :: 0 <= j < k ==> !ScanStep(modelsDir, c[j]).Stop?
  }

  lemma LastRaise(modelsDir: string, init: seq<DirEntry>, last: DirEntry, err: ListError)
    requires forall e :: e in Candidates(init) ==> !ScanStep(modelsDir, e).Stop?
    requires ScanStep(modelsDir, last) == Stop(err)
    ensures FirstRaise(modelsDir, Candidates(init) + [last], err)
  {
    var ci := Candidates(init);
    var c := ci + [last];
    assert c[|ci|] == last;
    forall j | 0 <= j < |ci| ensures !ScanStep(modelsDir, c[j]).Stop? {
      assert c[j] == ci[j] && ci[j] in ci;
    }
  }

  lemma FirstRaiseCarriesOver(modelsDir: string, prefix: seq<DirEntry>, c: seq<DirEntry>, err: ListError)
    requires |prefix| <= |c| && c[..|prefix|] == prefix
    requires FirstRaise(modelsDir, prefix, err)
    ensures FirstRaise(modelsDir, c, err)
  {
    var k :| 0 <= k < |prefix| && ScanStep(modelsDir, prefix[k]) == Stop(err) &&
             forall j :: 0 <= j < k ==> !ScanStep(modelsDir, prefix[j]).Stop?;
    assert forall j :: 0 <= j <= k ==> c[j] == prefix[j];
  }

  /** Once a prefix of the scan has raised, the rest of the directory is not read. */
  lemma {:induction false} ScanStopsAtError(modelsDir: string, es: seq<DirEntry>, n: nat)
    requires n <= |es|
    requires Scan(modelsDir, es[..n]).Err?
    ensures Scan(modelsDir, es) == Scan(modelsDir, es[..n])
    decreases |es|
  {
    if n < |es| {
      var init := es[..|es| - 1];
      assert init[..n] == es[..n];
      ScanStopsAtError(modelsDir, init, n);
    } else {
      assert es[..n] == es;
    }
  }

  /** The scan of one more entry of `es`, as the loop of `model_local_list` takes it. */
  lemma ScanOneMore(modelsDir: string, es: seq<DirEntry>, i: nat)
    requires i < |es|
    requires Scan(modelsDir, es[..i]).Ok?
    ensures ScanStep(modelsDir, es[i]).Skip? ==> Scan(modelsDir, es[..i + 1]) == Scan(modelsDir, es[..i])
    ensures ScanStep(modelsDir, es[i]).Keep? ==>
      Scan(modelsDir, es[..i + 1]) == Ok(Scan(modelsDir, es[..i]).value + [ScanStep(modelsDir, es[i]).fields])
    ensures ScanStep(modelsDir, es[i]).Stop? ==> Scan(modelsDir, es) == Err(ScanStep(modelsDir, es[i]).error)
  {
    assert es[..i + 1][..i] == es[..i];
    assert es[..i + 1][i] == es[i];
    if ScanStep(modelsDir, es[i]).Stop? {
      ScanStopsAtError(modelsDir, es, i + 1);
    }
  }

  lemma FilesystemListingSnoc(found: seq<Fields>, f: Fields)
    ensures FilesystemListing(found + [f]) == FilesystemListing(found) + [FromFilesystem(f)]
  {
  }

  /** `GET /model/list`: the store's records, in order, followed by the normalised
      entries of the scan, or the exception the scan raised. */
  function Listing(modelsDir: string, store: seq<LocalModel>, es: seq<DirEntry>): (r: Result<seq<Listed>, ListError>)
    ensures r.Ok? ==> |store| <= |r.value| <= |store| + |es|
    ensures r.Ok? ==> forall k :: |store| <= k < |r.value| ==> r.value[k].FromFilesystem?
  {
    match Scan(modelsDir, es)
    case Ok(found) => Ok(StoreListing(store) + FilesystemListing(found))
    case Err(err) => Err(err)
  }

  function StoreListing(store: seq<LocalModel>): seq<Listed> {
    seq(|store|, k requires 0 <= k < |store| => FromStore(store[k]))
  }

  function FilesystemListing(found: seq<Fields>): seq<Listed> {
    seq(|found|, k requires 0 <= k < |found| => FromFilesystem(found[k]))
  }

  /** The listing is every store record followed by one entry per directory that has an
      `info.json`; non-directories and directories without one add nothing, and nothing is
      deduplicated between the two sources. */
  lemma ListingComposition(modelsDir: string, store: seq<LocalModel>, es: seq<DirEntry>)
    ensures Listing(modelsDir, store, es).Ok? <==> forall e :: e in Candidates(es) ==> !ScanStep(modelsDir, e).Stop?
    ensures Listing(modelsDir, store, es).Ok? ==>
      var r := Listing(modelsDir, store, es).value;
      |r| == |store| + |Candidates(es)| &&
      (forall k :: 0 <= k < |store| ==> r[k] == FromStore(store[k])) &&
      (forall k :: 0 <= k < |Candidates(es)| ==>
         r[|store| + k].FromFilesystem? && ScanStep(modelsDir, Candidates(es)[k]) == Keep(r[|store| + k].fields))
  {
    ScanOkIffNoCandidateRaises(modelsDir, es);
    if Scan(modelsDir, es).Ok? {
      ScanOkFollowsCandidates(modelsDir, es);
    }
  }

  /** A record created in the store shows up in the next listing, after the earlier records. */
  lemma CreatedRecordIsListed(modelsDir: string, store: seq<LocalModel>, es: seq<DirEntry>, m: LocalModel)
    ensures Listing(modelsDir, store + [m], es).Ok? <==> Listing(modelsDir, store, es).Ok?
    ensures Listing(modelsDir, store + [m], es).Ok? ==>
      Listing(modelsDir, store + [m], es).value[|store|] == FromStore(m)
  {
  }

  // ---------------------------------------------------------------------------
  // Removing a model directory

  /** `os.path.isfile(os.path.join(models_dir, dirName, "info.json"))` */
  predicate HasInfoFile(es: seq<DirEntry>, dirName: string) {
    exists k :: 0 <= k < |es| && es[k].name == dirName && HasInfo(es[k])
  }

  /** After the removal no entry of the scan carries that name. */
  lemma RemovedDirIsNotScanned(es: seq<DirEntry>, dirName: string)
    ensures !HasInfoFile(WithoutDir(es, dirName), dirName)
    ensures forall e :: e in Candidates(WithoutDir(es, dirName)) ==> e.name != dirName
  {
    var w := WithoutDir(es, dirName);
    forall k | 0 <= k < |w| ensures w[k].name != dirName { assert w[k] in w; }
  }

  /** A directory listing never holds two entries of the same name. */
  predicate UniqueNames(es: seq<DirEntry>) {
    forall i, j :: 0 <= i < j < |es| ==> es[i].name != es[j].name
  }

  /** `shutil.rmtree(os.path.join(models_dir, dirName))`: the entry of that name goes. */
  function WithoutDir(es: seq<DirEntry>, dirName: string): (r: seq<DirEntry>)
    ensures forall e :: e in r <==> e in es && e.name != dirName
    ensures |r| <= |es|
    decreases |es|
  {
    if es == [] then []
    else
      var init, last := es[..|es| - 1], es[|es| - 1];
      assert es == init + [last];
      if last.name == dirName then WithoutDir(init, dirName) else WithoutDir(init, dirName) + [last]
  }

  /** Removing a directory keeps the names of what is left distinct. */
  lemma {:induction false} WithoutDirKeepsNamesUnique(es: seq<DirEntry>, dirName: string)
    requires UniqueNames(es)
    ensures UniqueNames(WithoutDir(es, dirName))
    decreases |es|
  {
    if es != [] {
      var init, last := es[..|es| - 1], es[|es| - 1];
      assert es == init + [last];
      assert UniqueNames(init);
      WithoutDirKeepsNamesUnique(init, dirName);
      var w := WithoutDir(init, dirName);
      if last.name != dirName {
        forall i | 0 <= i < |w| ensures w[i].name != last.name {
          assert w[i] in init;
          var k :| 0 <= k < |init| && init[k] == w[i];
          assert es[k] == init[k];
        }
      }
    }
  }
}
