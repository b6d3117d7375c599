/** The download handlers' vocabulary: the downloader's outcome, the responses and the
    argument lists the downloader script is launched with. */
module Downloads {
  import opened Wrappers
  import opened Records

  const DOWNLOAD_MODEL: string := "DOWNLOAD_MODEL"
  const EMPTY_JOB_DATA: string := "{}"
  const MODEL_NAME_FLAG: string := "--model_name"
  const MODEL_FILENAME_FLAG: string := "--model_filename"

  /** How `shared.async_run_python_script_and_update_status` ended. */
  datatype DownloaderOutcome = Raised | Exited(code: int)

  /** The responses of `download_model_from_huggingface`. */
  datatype HubResponse =
    | HubFailed                              // {"message": "Failed to download model"}
    | HubSuccess(model: string, jobId: nat)  // {"message": "success", "model", "job_id"}
  {
    function Message(): string {
      if HubFailed? then "Failed to download model" else "success"
    }
  }

  /** The responses of `download_model_from_gallery`. */
  datatype GalleryResponse =
    | NotInGallery                                   // {"message": "Model not found in gallery"}
    | GalleryFailed                                  // {"status": "error", "message": "Failed to download model"}
    | GallerySuccess(model: GalleryEntry, jobId: nat) // {"status": "success", "message": "success", "model", "job_id"}
  {
    function Message(): string {
      match this
      case NotInGallery => "Model not found in gallery"
      case GalleryFailed => "Failed to download model"
      case GallerySuccess(_, _) => "success"
    }
  }

  function DownloaderScript(cfg: Config): string {
    cfg.sourceCodeDir + "/transformerlab/shared/download_huggingface_model.py"
  }

  /** The arguments `download_model_from_huggingface` launches the downloader with. */
  function HubLaunchArgs(cfg: Config, model: string): (r: seq<string>)
    ensures |r| == 3 && r[0] == DownloaderScript(cfg)
    ensures ParseLaunchArgs(r) == Some((model, None))
  {
    [DownloaderScript(cfg), MODEL_NAME_FLAG, model]
  }

  /** The arguments `download_model_from_gallery` launches the downloader with, as written:
      the filename flag is only appended to `args` once the process has finished. */
  function GalleryLaunchArgs(cfg: Config, e: GalleryEntry): (r: seq<string>)
    ensures r == HubLaunchArgs(cfg, e.repo)
  {
    [DownloaderScript(cfg), MODEL_NAME_FLAG, e.repo]
  }

  /** The arguments a gallery download should launch with, filename included. This is also
      the final value of `args` in the handler, built after the launch. */
  function IntendedGalleryLaunchArgs(cfg: Config, e: GalleryEntry): (r: seq<string>)
    ensures GalleryLaunchArgs(cfg, e) <= r
    ensures r == GalleryLaunchArgs(cfg, e) <==> e.filename.None?
  {
    GalleryLaunchArgs(cfg, e) + (if e.filename.Some? then [MODEL_FILENAME_FLAG, e.filename.value] else [])
  }

  /** How the downloader's `--model_name` and `--model_filename` flags are meant to be read: the
      repo and the optional file. The script itself is not part of this model. */
  function ParseLaunchArgs(args: seq<string>): Option<(string, Option<string>)> {
    if |args| == 3 && args[1] == MODEL_NAME_FLAG then Some((args[2], None))
    else if |args| == 5 && args[1] == MODEL_NAME_FLAG && args[3] == MODEL_FILENAME_FLAG then Some((args[2], Some(args[4])))
    else None
  }

  /** As written, a single-file gallery entry is downloaded without its filename reaching
      the downloader: the launch names the whole repo. */
  lemma FilenameNeverLaunched(cfg: Config, e: GalleryEntry)
    requires e.filename.Some?
    ensures ParseLaunchArgs(GalleryLaunchArgs(cfg, e)) == Some((e.repo, None))
    ensures ParseLaunchArgs(GalleryLaunchArgs(cfg, e)) != Some((e.repo, e.filename))
  {
  }

  /** The intended launch hands the downloader exactly the entry's repo and filename. */
  lemma IntendedLaunchCarriesFilename(cfg: Config, e: GalleryEntry)
    ensures ParseLaunchArgs(IntendedGalleryLaunchArgs(cfg, e)) == Some((e.repo, e.filename))
    ensures ParseLaunchArgs(HubLaunchArgs(cfg, e.repo)) == Some((e.repo, None))
  {
  }
}
