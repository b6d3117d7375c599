/** The entities the model router handles: gallery entries, local-model records,
    entries of the models directory, adapter directories and jobs. */
module Records {
  import opened Wrappers
  import opened Json

  /** One object of `model-gallery.json`. `downloaded` is absent in the file and set by
      the gallery listing; `details` holds the descriptive fields the router never reads. */
  datatype GalleryEntry = GalleryEntry(
    uniqueID: string,
    repo: string,                 // "huggingface_repo"
    filename: Option<string>,     // "huggingface_filename", None when absent or null
    name: string,
    downloaded: Option<bool>,
    details: map<string, Json>)

  /** The metadata blob stored with a local-model record. */
  datatype Metadata =
    | EmptyObject                 // the default `json_data={}`
    | GalleryData(entry: GalleryEntry)
    | Supplied(value: Json)

  /** A row of the local-model store. */
  datatype LocalModel = LocalModel(modelId: string, name: string, json: Metadata)

  /** What `info.json` in a directory holds, as far as `json.load` is concerned. */
  datatype InfoFile =
    | Missing                     // open() raises FileNotFoundError
    | Malformed                   // a regular file that json.load rejects
    | Contents(value: Json)

  /** An entry of `os.scandir(models_dir)`. */
  datatype DirEntry = DirEntry(name: string, isDir: bool, info: InfoFile)

  /** An entry of `<workspace>/adaptors/<model_id>`. */
  datatype AdapterEntry = AdapterEntry(name: string, isDir: bool)

  datatype JobStatus = Started | Failed | Completed

  /** A row of the job table as `db.job_create` writes it. */
  datatype Job = Job(kind: string, status: JobStatus, data: string)

  /** The directories the router works in (the `dirs` module's globals). */
  datatype Config = Config(sourceCodeDir: string, modelsDir: string, workspaceDir: string)
}
