/** The state the model router works on (the job table, the local-model store, the models
    directory, the adapter directories and the downloader's launches) and its endpoints
    that read or change that state. */
module Workspace {
  import opened Wrappers
  import opened Records
  import opened Paths
  import opened Store
  import opened Gallery
  import opened ModelsDir
  import opened Adapters
  import opened Downloads

  class Backend {
    const cfg: Config
    /** The parsed contents of `model-gallery.json`, read afresh by every request. */
    const catalog: seq<GalleryEntry>

    var jobs: map<nat, Job>
    var nextJobId: nat
    var store: seq<LocalModel>
    var modelsDirExists: bool
    /** The entries of the models directory, in `os.scandir` order. */
    var models: seq<DirEntry>
    /** The directories below `<workspace>/adaptors`, among them `<model_id>` for each model
        whose adapters directory exists. */
    var adaptors: AdaptorDirs
    /** The argument lists the downloader script was launched with, oldest first. */
    var launches: seq<seq<string>>

    ghost predicate Valid()
      reads this
    {
      IsAbsolute(cfg.modelsDir) &&
      (forall id :: id in jobs ==> id < nextJobId) &&
      (!modelsDirExists ==> models == []) &&
      UniqueNames(models) &&
      Tree(adaptors)
    }

    constructor (cfg: Config, catalog: seq<GalleryEntry>, store: seq<LocalModel>,
                 modelsDirExists: bool, models: seq<DirEntry>, adaptors: AdaptorDirs)
      requires IsAbsolute(cfg.modelsDir)
      requires !modelsDirExists ==> models == []
      requires UniqueNames(models)
      requires Tree(adaptors)
      ensures Valid()
      ensures this.cfg == cfg && this.catalog == catalog && this.store == store
      ensures this.modelsDirExists == modelsDirExists && this.models == models && this.adaptors == adaptors
      ensures jobs == map[] && launches == []
    {
      this.cfg := cfg;
      this.catalog := catalog;
      this.store := store;
      this.modelsDirExists := modelsDirExists;
      this.models := models;
      this.adaptors := adaptors;
      jobs := map[];
      nextJobId := 1;
      launches := [];
    }

    /** `db.job_create`: a new job under a fresh id. */
    method JobCreate(kind: string, status: JobStatus, data: string) returns (jobId: nat)
      requires Valid()
      modifies this`jobs, this`nextJobId
      ensures Valid()
      ensures jobId == old(nextJobId) && jobId !in old(jobs)
      ensures jobs == old(jobs)[jobId := Job(kind, status, data)]
      ensures nextJobId == old(nextJobId) + 1
    {
      jobId := nextJobId;
      jobs := jobs[jobId := Job(kind, status, data)];
      nextJobId := nextJobId + 1;
    }

    /** `db.job_update`: the job's status changes, nothing else does. */
    method JobUpdate(jobId: nat, status: JobStatus)
      requires Valid() && jobId in jobs
      modifies this`jobs
      ensures Valid()
      ensures jobs == old(jobs)[jobId := old(jobs)[jobId].(status := status)]
    {
      jobs := jobs[jobId := jobs[jobId].(status := status)];
    }

    /** `get_models_dir`: the models directory, created when missing. */
    method GetModelsDir() returns (dir: string)
      requires Valid()
      modifies this`modelsDirExists
      ensures Valid() && modelsDirExists
      ensures dir == cfg.modelsDir
    {
      if !modelsDirExists {
        modelsDirExists := true;
      }
      dir := cfg.modelsDir;
    }

    /** `GET /model/create`: the store gains the record at its end. */
    method ModelLocalCreate(id: string, name: string, jsonData: Metadata) returns (message: string)
      requires Valid()
      modifies this`store
      ensures Valid()
      ensures store == old(store) + [LocalModel(id, name, jsonData)]
      ensures message == "model created"
    {
      store := store + [LocalModel(id, name, jsonData)];
      message := "model created";
    }

    /** `GET /model/download_from_huggingface`: a job is created and the downloader launched;
        only an exception counts as failure (the exit code is not looked at), and a
        successful download registers the model under its own name. */
    method DownloadFromHuggingface(model: string, outcome: DownloaderOutcome) returns (resp: HubResponse)
      requires Valid()
      modifies this`jobs, this`nextJobId, this`store, this`launches
      ensures Valid()
      ensures old(nextJobId) !in old(jobs) && nextJobId == old(nextJobId) + 1
      ensures launches == old(launches) + [HubLaunchArgs(cfg, model)]
      ensures outcome.Raised? ==>
        && resp == HubFailed && resp.Message() == "Failed to download model"
        && jobs == old(jobs)[old(nextJobId) := Job(DOWNLOAD_MODEL, Failed, EMPTY_JOB_DATA)]
        && store == old(store)
      ensures !outcome.Raised? ==>
        && resp == HubSuccess(model, old(nextJobId)) && resp.Message() == "success"
        && jobs == old(jobs)[old(nextJobId) := Job(DOWNLOAD_MODEL, Started, EMPTY_JOB_DATA)]
        && store == old(store) + [LocalModel(model, model, EmptyObject)]
    {
      var jobId := JobCreate(DOWNLOAD_MODEL, Started, EMPTY_JOB_DATA);
      var args := HubLaunchArgs(cfg, model);
      launches := launches + [args];
      if outcome.Raised? {
        JobUpdate(jobId, Failed);
        resp := HubFailed;
        return;
      }
      var _ := ModelLocalCreate(model, model, EmptyObject);
      resp := HubSuccess(model, jobId);
    }

    /** `GET /model/download_model_from_gallery`: an unknown id is answered before any job
        exists; otherwise a job is created and the downloader launched with the entry's repo;
        an exception or a non-zero exit fails the job, and a success registers the entry
        only when it is a whole-repo download. */
    method DownloadFromGallery(galleryId: string, outcome: DownloaderOutcome) returns (resp: GalleryResponse)
      requires Valid()
      modifies this`jobs, this`nextJobId, this`store, this`launches
      ensures Valid()
      ensures FirstEntry(catalog, UniqueIds(catalog), galleryId).None? ==>
        && resp == NotInGallery && resp.Message() == "Model not found in gallery"
        && jobs == old(jobs) && nextJobId == old(nextJobId)
        && store == old(store) && launches == old(launches)
      ensures FirstEntry(catalog, UniqueIds(catalog), galleryId).Some? ==>
        var entry := FirstEntry(catalog, UniqueIds(catalog), galleryId).value;
        var jobId := old(nextJobId);
        && jobId !in old(jobs) && nextJobId == jobId + 1
        && launches == old(launches) + [GalleryLaunchArgs(cfg, entry)]
        && (outcome != Exited(0) ==>
              && resp == GalleryFailed && resp.Message() == "Failed to download model"
              && jobs == old(jobs)[jobId := Job(DOWNLOAD_MODEL, Failed, EMPTY_JOB_DATA)]
              && store == old(store))
        && (outcome == Exited(0) ==>
              && resp == GallerySuccess(entry, jobId) && resp.Message() == "success"
              && jobs == old(jobs)[jobId := Job(DOWNLOAD_MODEL, Started, EMPTY_JOB_DATA)]
              && store == old(store) + (if entry.filename.None? then [LocalModel(entry.repo, entry.name, GalleryData(entry))] else []))
    {
      var found := FindByUniqueId(catalog, galleryId);
      if found.None? {
        resp := NotInGallery;
        return;
      }
      // `model`, the loop variable, still holds the entry the loop broke on.
      var galleryEntry, model := found.value, found.value;
      var huggingFaceId, huggingFaceFilename, name := galleryEntry.repo, galleryEntry.filename, galleryEntry.name;
      var jobId := JobCreate(DOWNLOAD_MODEL, Started, EMPTY_JOB_DATA);
      var args := GalleryLaunchArgs(cfg, galleryEntry);
      launches := launches + [args];
      if outcome.Raised? || outcome.code != 0 {
        JobUpdate(jobId, Failed);
        resp := GalleryFailed;
        return;
      }
      if huggingFaceFilename.Some? {
        args := args + [MODEL_FILENAME_FLAG, huggingFaceFilename.value];
        assert args == IntendedGalleryLaunchArgs(cfg, galleryEntry);
      } else {
        var _ := ModelLocalCreate(huggingFaceId, name, GalleryData(galleryEntry));
      }
      resp := GallerySuccess(model, jobId);
    }

    /** `GET /model/list`: the store's records followed by one normalised entry per
        directory of the models directory that has an `info.json`. */
    method ModelLocalList() returns (result: Result<seq<Listed>, ListError>)
      requires Valid()
      modifies this`modelsDirExists
      ensures Valid() && modelsDirExists
      ensures result == Listing(cfg.modelsDir, store, models)
    {
      var listing := StoreListing(store);
      var modelsDir := GetModelsDir();
      ghost var found: seq<Fields> := [];
      var i := 0;
      while i < |models|
        invariant 0 <= i <= |models|
        invariant modelsDir == cfg.modelsDir
        modifies {}
        invariant Scan(modelsDir, models[..i]) == Ok(found)
        invariant listing == StoreListing(store) + FilesystemListing(found)
      {
        var entry := models[i];
        ScanOneMore(modelsDir, models, i);
        if entry.isDir {
          match entry.info
          case Missing =>
          case Malformed =>
            return Err(JsonDecodeError);
          case Contents(doc) =>
            var filedata := Normalise(modelsDir, entry.name, doc);
            if filedata.Err? {
              return Err(filedata.error);
            }
            FilesystemListingSnoc(found, filedata.value);
            listing := listing + [FromFilesystem(filedata.value)];
            found := found + [filedata.value];
        }
        i := i + 1;
      }
      assert models[..i] == models;
      result := Ok(listing);
    }

    /** `GET /model/delete`: the directory named by the id's last segment is removed when
        it holds an `info.json`; the store's record goes in either case. */
    method ModelLocalDelete(modelId: string) returns (message: string)
      requires Valid()
      modifies this`modelsDirExists, this`models, this`store
      ensures Valid() && modelsDirExists
      ensures models == if HasInfoFile(old(models), LastSegment(modelId))
                        then WithoutDir(old(models), LastSegment(modelId))
                        else old(models)
      ensures store == WithoutModel(old(store), modelId)
      ensures message == "model deleted"
    {
      var rootModelsDir := GetModelsDir();
      var modelDir := LastSegment(modelId);
      if HasInfoFile(models, modelDir) {
        WithoutDirKeepsNamesUnique(models, modelDir);
        models := WithoutDir(models, modelDir);
      }
      store := WithoutModel(store, modelId);
      message := "model deleted";
    }

    /** `POST /model/pefts`: the adapter names of a model, or none when its adapters
        directory does not exist. */
    method GetsPefts(modelId: string) returns (names: seq<string>)
      ensures modelId !in adaptors ==> names == []
      ensures modelId in adaptors ==> names == AdapterNames(adaptors[modelId])
    {
      names := [];
      if modelId in adaptors {
        names := AdapterNames(adaptors[modelId]);
      }
    }

    /** `GET /model/delete_peft`: the adapter path is removed without checking first, so a
        missing path or a plain file makes the removal raise and changes nothing; otherwise the
        directory goes with everything inside it, model directories nested in it included. */
    method DeletePeft(modelId: string, peft: string) returns (r: AdapterRemoval)
      requires Valid()
      modifies this`adaptors
      ensures Valid()
      ensures (r, adaptors) == RemovePeft(old(adaptors), modelId, peft)
      ensures r == NoSuchPath <==>
        modelId !in old(adaptors) || (peft != "" && peft !in AdapterNames(old(adaptors)[modelId]))
      ensures r == NotADirectory <==>
        modelId in old(adaptors) && peft != "" && AdapterEntry(peft, false) in old(adaptors)[modelId]
      ensures r != Removed ==> adaptors == old(adaptors)
      ensures r == Removed ==>
        && PeftPath(modelId, peft) in old(adaptors)
        && adaptors == RemoveDir(old(adaptors), PeftPath(modelId, peft))
      ensures r == Removed && peft != "" ==>
        && AdapterEntry(peft, true) in old(adaptors)[modelId]
        && adaptors[modelId] == WithoutAdapter(old(adaptors)[modelId], peft)
    {
      RemovePeftOutcomes(adaptors, modelId, peft);
      if modelId !in adaptors {
        return NoSuchPath;
      }
      var entries := adaptors[modelId];
      var peftPath := PeftPath(modelId, peft);
      if peft == "" || AdapterEntry(peft, true) in entries {
        adaptors := RemoveDir(adaptors, peftPath);
        r := Removed;
      } else if AdapterEntry(peft, false) in entries {
        r := NotADirectory;
      } else {
        r := NoSuchPath;
      }
    }
  }
}
