# Model router of transformerlab-api, modelled in Dafny

This project models the decision logic of the model router in `transformerlab/routers/model.py`.
The router covers the static model gallery, downloads from the Hugging Face hub, the local-model
listing, model deletion and the adapter ("peft") directories. The database, the filesystem and
the downloader subprocess are replaced by abstract state:

- The job table is a map from job id to `Job(kind, status, data)`. Ids are handed out from a
  counter, so each new job gets an id no earlier job had.
- The local-model store is a sequence of `LocalModel(modelId, name, json)` records. Creating a
  record appends it. Deleting an id removes every record with that id.
- The models directory is a sequence of `DirEntry(name, isDir, info)` in scan order. `info` says
  whether `info.json` is missing, is present but not valid JSON, or parsed to a value.
- The adapter directories are one directory tree below `<workspace>/adaptors`: a map from each
  directory's relative path to its entries (`name`, `isDir`). A model id is such a path, and
  Hugging Face ids hold a `/`, so model `a/b`'s adapters directory is also the adapter `b` of
  model `a`. `Adapters.Tree` says the map is one tree: every subdirectory is a key, and every
  nested key is listed by its parent.
  A missing key means the directory does not exist.
- The downloader's result is an input parameter: it raised, or it exited with a code. Every
  launch's argument list is appended to a log, so the model records what the script was given.
- The gallery file is a sequence of `GalleryEntry` values, read again on every request.

Modules: `Wrappers` (Option, Result), `Json` (parsed JSON values, Python truthiness),
`Paths` (`posixpath.join`, the `"~~~"` escape, `rsplit('/', 1)[-1]`), `Records` (the entities),
`Store`, `Gallery`, `ModelsDir` (normalisation, scan and listing, directory removal), `Adapters`,
`Downloads` (outcomes, responses, launch arguments) and `Workspace` (the class `Backend`, which
holds the state and has one method per endpoint that changes or reads it).

Some behaviour of the code is easy to misread. The model follows the code:

- `download_model_from_huggingface` catches only an exception from the downloader. A non-zero exit
  code still counts as success and the model is registered (`Workspace.Backend.DownloadFromHuggingface`).
- `download_model_from_gallery` intends to pass the entry's filename to the downloader. It appends
  the filename only after the download has finished. See Findings.
- `model_delete_peft` builds the path `<workspace>/adaptors/<model_id>/<peft>` and removes it
  without a check. An empty `peft` leaves a trailing `/`, which names the model's adapters directory
  itself, so every adapter of the model goes. See Findings. `rmtree` removes everything inside the
  directory, adapters directories of nested model ids included.
- The `model` in the gallery-download response is the `for` loop variable. The loop breaks on the
  match, and the not-found `else` branch returns early. So `model` is always the matched entry,
  never a stale value.

`local_path` of a scanned model is `os.path.join(models_dir, entry)`, and the `info.json` read is
`os.path.join(models_dir, entry, "info.json")`. An `os.DirEntry` stands for its own `path`, which is
`models_dir` joined with the entry's name. So `ModelsDir.NormaliseObject` receives
`Paths.ScannedDirPath(models_dir, name)`. This equals `join(models_dir, name)` when the models
directory is absolute, and `Workspace.Backend` requires an absolute models directory (see Left out).
The module that defines `MODELS_DIR` is not part of this model.

## Model

| member | source | states |
|---|---|---|
| Gallery.ModelGalleryListAll | transformerlab/routers/model.py:21-33 | the annotated gallery has the catalog's length and order; each entry's `downloaded` is true iff some store record's `model_id` equals its `huggingface_repo`; no other field changes |
| Store.LocalIds | transformerlab/routers/model.py:26-27 | the set of local ids holds exactly the `model_id`s of the store's records |
| Gallery.ModelGallery | transformerlab/routers/model.py:36-52 | the result is the first entry whose repo equals the id with `"~~~"` replaced by `"/"`, or None when no entry matches |
| Gallery.FirstEntry | transformerlab/routers/model.py:47-50 | None iff no key matches; otherwise the catalog entry at the first position whose key matches (the `break` on the first hit) |
| Gallery.FirstIndex | transformerlab/routers/model.py:47-50 | the first position holding the key, with no earlier position holding it; None iff the key does not occur |
| Paths.Unescape | transformerlab/routers/model.py:40 | `str.replace("~~~", "/")` never lengthens the id and leaves an id without `~` unchanged; `Paths.UnescapeEscape` and `Paths.UnescapeTripleFree` pin it down further |
| Paths.UnescapeEscape | transformerlab/routers/model.py:39-40 | writing each `/` of a `~`-free id as `"~~~"` and then applying the replacement gives the id back |
| Paths.UnescapeTripleFree | transformerlab/routers/model.py:40 | no `"~~~"` is left in the id after the replacement |
| Gallery.EscapedRepoFindsEntry | transformerlab/routers/model.py:39-52 | an escaped slash-containing repo finds the same entry as the repo itself |
| Gallery.FindByUniqueId | transformerlab/routers/model.py:106-114 | the `for`/`else` search returns the first entry whose `uniqueID` equals the gallery id, or None |
| Workspace.Backend.JobCreate | transformerlab/routers/model.py:80-81 | a job `DOWNLOAD_MODEL`/`STARTED`/`{}` is added under an id that was not in the table |
| Workspace.Backend.JobUpdate | transformerlab/routers/model.py:89 | only the status of that job changes |
| Workspace.Backend.DownloadFromHuggingface | transformerlab/routers/model.py:75-94 | one new job; on an exception it ends `FAILED` with no new record and a failure response; otherwise exactly one record with id = name = `model` is appended and the response carries the model and job id; the launch names the model |
| Workspace.Backend.DownloadFromGallery | transformerlab/routers/model.py:97-144 | an unknown id answers "Model not found in gallery" and changes nothing (no job, no launch); otherwise one new job; an exception or non-zero exit ends it `FAILED` with no record; on exit 0, the full gallery entry is registered under its repo and name iff it has no `huggingface_filename`; the response's `model` is the matched entry; the launch names only the repo |
| Downloads.HubLaunchArgs | transformerlab/routers/model.py:83-84 | the downloader script followed by `--model_name <model>`; read by the flag convention `Downloads.ParseLaunchArgs` assumes (the script itself is not part of this model), it names that model and no file |
| Downloads.GalleryLaunchArgs | transformerlab/routers/model.py:123-125 | as written, the gallery launch is exactly the hub launch of the entry's repo |
| Downloads.IntendedGalleryLaunchArgs | transformerlab/routers/model.py:123-139 | the launch as written is a prefix of it, and the two differ iff the entry names a file |
| Downloads.FilenameNeverLaunched | transformerlab/routers/model.py:123-139 | as written, the downloader of a single-file entry is told only the repo, not the filename |
| Downloads.IntendedLaunchCarriesFilename | transformerlab/routers/model.py:117-139 | the argument list completed with `--model_filename` gives the downloader exactly the entry's repo and filename |
| Workspace.Backend.GetModelsDir | transformerlab/routers/model.py:158-165 | returns the configured models directory, which exists afterwards |
| ModelsDir.Listing | transformerlab/routers/model.py:168-215 | a successful listing has at least the store's records and at most one more entry per scanned entry, and everything after the store's records comes from the filesystem; `ModelsDir.ListingComposition` states it in full |
| Workspace.Backend.ModelLocalList | transformerlab/routers/model.py:168-215 | the scan loop returns exactly `ModelsDir.Listing` of the store and the directory, and leaves the models directory existing |
| ModelsDir.ListingComposition | transformerlab/routers/model.py:173-215 | the listing succeeds iff no directory with an `info.json` raises; it is then every store record in order followed by one normalised entry per such directory in scan order, with length store + those directories and no deduplication |
| ModelsDir.Candidates | transformerlab/routers/model.py:180-187 | the entries read are exactly the directories holding an `info.json`; non-directories and directories without one are skipped |
| ModelsDir.ScanStep | transformerlab/routers/model.py:181-213 | an entry is skipped iff it is not a directory or has no `info.json`; a kept entry is marked `stored_in_filesystem` |
| ModelsDir.Scan | transformerlab/routers/model.py:179-213 | a successful scan has at most one entry per scanned entry, each marked `stored_in_filesystem`; `ModelsDir.ScanOkIffNoCandidateRaises`, `ModelsDir.ScanOkFollowsCandidates` and `ModelsDir.ScanErrIsFirstRaise` pin it down |
| ModelsDir.ScanOkIffNoCandidateRaises | transformerlab/routers/model.py:179-213 | the scan succeeds iff no directory with an `info.json` raises |
| ModelsDir.ScanOkFollowsCandidates | transformerlab/routers/model.py:179-209 | a successful scan holds one normalised entry per directory with an `info.json`, in scan order |
| ModelsDir.ScanErrIsFirstRaise | transformerlab/routers/model.py:185-213 | a failed scan carries the exception of the first directory whose `info.json` raises, since only FileNotFoundError is caught |
| ModelsDir.ScanOneMore | transformerlab/routers/model.py:180-213 | one more scanned entry leaves the scan unchanged when skipped, appends its normalised entry when read, and ends the whole scan with its exception when it raises |
| ModelsDir.ScanStopsAtError | transformerlab/routers/model.py:185-213 | once a prefix of the scan raised, later entries do not change the result |
| ModelsDir.Normalise | transformerlab/routers/model.py:190-207 | a scalar `info.json` raises TypeError; a successful result is marked `stored_in_filesystem` and has a string `local_path`; `ModelsDir.ListShapeIsFirstElement` gives the list shape |
| Json.Truthy | transformerlab/routers/model.py:205 | the falsy values are exactly `None`, `False`, `0`, `""`, `[]` and `{}` |
| ModelsDir.NormaliseObject | transformerlab/routers/model.py:195-207 | a non-object raises TypeError; otherwise every key is kept, `stored_in_filesystem` becomes true and `local_path` the directory, or `join(dir, model_filename)` when that is a truthy string; a truthy non-string raises TypeError |
| ModelsDir.ListShapeIsFirstElement | transformerlab/routers/model.py:190-193 | a list-shaped `info.json` is read as its first element; an empty list raises IndexError |
| Paths.Join | transformerlab/routers/model.py:200-207 | `os.path.join`: an absolute second part replaces the first; otherwise the result starts with the first part, ends with the second and adds at most one `/` |
| Paths.ScannedDirPath | transformerlab/routers/model.py:184-201 | joining the models directory with a scanned `os.DirEntry` gives `join(models_dir, name)` whenever the directory is absolute, whatever the name |
| Paths.ScannedDirPathOfAbsoluteDir | transformerlab/routers/model.py:200-201 | for an absolute models directory and a relative name, `local_path` is the directory and the name, with a `/` added unless the directory already ends in one |
| ModelsDir.CreatedRecordIsListed | transformerlab/routers/model.py:173 | a newly created record appears in the next listing right after the earlier records |
| Workspace.Backend.ModelLocalCreate | transformerlab/routers/model.py:218-221 | the store gains the record (id, name, json) at its end |
| Workspace.Backend.ModelLocalDelete | transformerlab/routers/model.py:224-245 | the directory named by the id's last segment is removed iff it holds an `info.json`; the store loses the id's records in both branches |
| Paths.LastSegment | transformerlab/routers/model.py:229 | `rsplit('/', 1)[-1]` holds no `/`; `Paths.LastSegmentIsFinalSegment` pins it down |
| Paths.LastSegmentIsFinalSegment | transformerlab/routers/model.py:229 | `rsplit('/', 1)[-1]` is a '/'-free suffix of the id, preceded by a '/' unless it is the whole id |
| Paths.WholeIdWithoutSlash | transformerlab/routers/model.py:229 | an id without '/' is its own directory name |
| Paths.LastSegmentAfterSlash | transformerlab/routers/model.py:229 | splitting `prefix/name` gives `name` |
| ModelsDir.WithoutDir | transformerlab/routers/model.py:232-234 | after `rmtree` exactly the other entries remain |
| ModelsDir.WithoutDirKeepsNamesUnique | transformerlab/routers/model.py:232-234 | the removal keeps entry names distinct |
| ModelsDir.RemovedDirIsNotScanned | transformerlab/routers/model.py:231-234 | after the removal no entry of that name has an `info.json` or is listed |
| Store.WithoutModel | transformerlab/routers/model.py:243-244 | exactly the records with other ids remain, and none with this id; an absent id changes nothing |
| Store.WithoutModelDistributes | transformerlab/routers/model.py:243-244 | removal works record by record, so the remaining records keep their order |
| Store.CreateThenDelete | transformerlab/routers/model.py:219-244 | deleting an id right after creating a record under it leaves the same store as deleting before |
| Workspace.Backend.GetsPefts | transformerlab/routers/model.py:248-255 | no names when the adapters directory is missing, otherwise all its entry names |
| Adapters.AdapterNames | transformerlab/routers/model.py:254 | the listing has one name per entry, files and directories alike, in order |
| Workspace.Backend.DeletePeft | transformerlab/routers/model.py:258-264 | the outcome and the new adapter tree are `Adapters.RemovePeft` of the old tree: a missing path and a plain file each fail and change nothing; otherwise the directory at the built path goes with everything inside it, nested model directories included, and the model's listing drops the adapter; the state stays one tree |
| Adapters.PeftPath | transformerlab/routers/model.py:261-262 | the built path is the adapter's entry inside the model's directory, or the model's directory itself when the adapter name is empty |
| Adapters.RemoveDir | transformerlab/routers/model.py:263 | `rmtree` of a directory leaves exactly the directories outside it, unchanged, except that its parent no longer lists it |
| Adapters.RemoveDirKeepsTree | transformerlab/routers/model.py:263 | after `rmtree` the state is still one directory tree: no dangling subdirectory entries and no orphaned nested directories |
| Adapters.RemovePeft | transformerlab/routers/model.py:260-263 | the removal as written creates no directory, a failure changes nothing, and a removal keeps exactly the directories outside the built path |
| Adapters.RemovePeftOutcomes | transformerlab/routers/model.py:260-263 | fails with FileNotFoundError iff the model's directory or the named adapter is missing, with NotADirectoryError iff the name is a file; a failure changes nothing; a removal removes the existing directory at the built path with everything inside it, and the model's listing loses exactly that adapter |
| Adapters.EmptyPeftRemovesAllAdapters | transformerlab/routers/model.py:260-263 | as written, an empty adapter name succeeds and nothing at or inside the model's adapters directory is left |
| Adapters.IntendedRemovePeft | transformerlab/routers/model.py:258-264 | the intended removal creates no directory and always keeps the model's own adapters directory |
| Adapters.IntendedRemovalTakesOnlyTheAdapter | transformerlab/routers/model.py:258-264 | the intended removal fails without change, or takes exactly the named adapter off the model's listing, keeping every other adapter and every directory outside the adapter's |
| Paths.Parent | transformerlab/routers/model.py:261-262 | a path holding `/` is its parent directory, a `/` and its last segment |
| Adapters.WithoutAdapter | transformerlab/routers/model.py:263 | after `rmtree` exactly the other entries remain |
| Adapters.DeletedAdapterIsNotListed | transformerlab/routers/model.py:258-264 | after a deletion the listing no longer names the adapter but still names every other one |
| Adapters.WithoutAdapterKeepsNamesUnique | transformerlab/routers/model.py:263 | the removal keeps adapter names distinct |

## Findings

| source | as written | input that shows it | evidently intended | confidence | as-written member | corrected member |
|---|---|---|---|---|---|---|
| transformerlab/routers/model.py:123-139 | `--model_filename` is appended to `args` after the downloader has run, so the launch names only the repo | any gallery entry with `huggingface_filename` set, e.g. `huggingface_filename = "model.gguf"` | the downloader is launched with `--model_filename <file>` (the comment at line 141 treats this case as a single-file download) | medium; not executed | Downloads.FilenameNeverLaunched | Downloads.IntendedLaunchCarriesFilename |
| transformerlab/routers/model.py:260-263 | `f"{adaptors_dir}/{peft}"` with an empty `peft` is `adaptors_dir + "/"`, so `rmtree` removes the model's whole adapters directory | `GET /model/delete_peft?model_id=m&peft=` | an empty adapter name names no adapter and removes nothing | medium; not executed | Adapters.EmptyPeftRemovesAllAdapters | Adapters.IntendedRemovalTakesOnlyTheAdapter |

`Downloads.GalleryLaunchArgs` is the argument list as the code launches it.
`Downloads.IntendedGalleryLaunchArgs` is the corrected list, which is also the final value of
`args`. `Workspace.Backend.DownloadFromGallery` still logs the as-written launch. This keeps its
contract a statement about the code. The corrected list is used only by the corrected lemma.
In the same way `Workspace.Backend.DeletePeft` follows `Adapters.RemovePeft`, the removal as
written; `Adapters.IntendedRemovePeft` is the corrected removal.

## Left out

- `login_to_huggingface`, `get_model_prompt_template` and `healthz`: they wrap the `huggingface_hub` and `fastchat` libraries or return a constant.
- FastAPI routing and JSON serialisation, `async`/`await` and `print` logging are not modelled.
- Real file I/O and `json.load` are abstract. A file's parsed value, or the fact that it does not parse, is part of the modelled state.
- JSON numbers are integers, and objects are maps, so key order is not kept.
- An `info.json` that is not a regular file (a directory of that name) is not modelled.
- Gallery entries are assumed to have `uniqueID`, `huggingface_repo` and `name`. The `KeyError` a malformed catalog would raise is not modelled.
- Workspace.Backend.DownloadFromHuggingface: the downloader helper `shared.async_run_python_script_and_update_status` is a foreign call. Any job-status update it makes itself is not modelled, so a successful job stays `STARTED` here.
- Workspace.Backend.DownloadFromGallery: same as above for the helper's own job-status updates.
- The internals of `transformerlab.db` are not part of this model. The store appends on create and removes every record with the id on delete. Job ids come from a counter.
- Workspace.Backend.ModelLocalDelete: ids whose last segment is `""`, `.` or `..` make the directory resolve to the models directory itself or to its parent. Here they are ordinary names, which match no entry.
- Workspace.Backend.ModelLocalList: a relative `MODELS_DIR` is not modelled. Line 184 would then open `<dir>/<dir>/<name>/info.json`, so the code would skip directories that the model lists. `Workspace.Backend` requires an absolute models directory.
- Workspace.Backend.DeletePeft: an adapter name of `.` or `..`, or one holding `/`, would reach other paths. Here each is a plain name, which matches no adapter. The empty name is modelled.
- Workspace.Backend.DeletePeft: a model id that is not a plain relative path is looked up as it is. Such ids are empty, start or end with `/`, hold `//` or have a `.` or `..` segment, and they name a directory other than their own key; the empty id, for example, makes the path `<workspace>/adaptors//<peft>`, the adapters directory of a model named `peft`.
- Workspace.Backend.GetsPefts: the same holds for listing. The empty id lists `<workspace>/adaptors/` itself, so the code returns the top-level model ids, and `..` lists the workspace. The entries of `<workspace>/adaptors` itself are not part of the tree.
- Workspace.Backend.GetsPefts: a model id naming a file makes `os.listdir` raise NotADirectoryError. Here it names no directory, so the result is empty. Workspace.Backend.DeletePeft raises NotADirectoryError for such an id too, and here it fails with FileNotFoundError; neither changes anything.
- Workspace.Backend.DeletePeft: the source raises on a missing target. This is modelled as an error result that changes nothing, not as a precondition.
- `os.listdir` and `os.scandir` order is the order of the modelled sequences.
