# Face recognition with alert deduplication: a verified model

This project models the core of a small face-recognition tool in Dafny. The tool
keeps an encoding store, a dictionary from identity names to face embedding vectors.
It fills that store from a dataset (`train`) or from images of one person (`save`),
and recognises faces with a per-identity majority vote (`recognize_face`). In a
live camera loop (`process_video_stream`), it sends at most one alert per re-arm
window, and that window is shared by all faces: a known face also re-arms, and two
unknown faces in the same minute can both alert.
The command line (`main`) picks one of these operations from its flags.

The model has seven modules:

- `Wrappers` (wrappers.dfy): `Option`, `Result` and the program's two modelled
  exceptions. `EmptyRecord` is the `IndexError` of `most_common(1)[0]` on an identity
  with no vectors. `UnreadableImage` is `load_image_file` failing on a path.
- `Config` (config.dfy): `UNKNOWN_TIMEOUT` and the dataset folder name.
- `Paths` (paths.dfy): parsing an argument into a POSIX path, `Path.name`, `dir / name`,
  and the folder resolution of `save`.
- `EncodingStore` (store.dfy): the store and its operations.
  - The store is an insertion-ordered dictionary, `Store(order, records)`, with
    `Valid()`: distinct keys, and exactly the keys of `records`. Which identity
    matches "first" depends on that order.
  - The images and the embedding provider are a `Disk` value. It records which
    encodings the provider finds in each readable image, at its own size and resized,
    and what each directory lists.
  - The store file is `snapshot: Option<Store>`, where None means no file yet.
  - `save` and `train` are loop methods (`Save`, `AddImages`, `Train`), each proved
    equal to a specification function (`SaveSpec`, `TrainSpec`). The properties are
    proved about those functions.
- `Matching` (matching.dfy): the embedding comparison is an uninterpreted parameter
  `same(known, unknown)`.
  - `MostCommon` is `Counter.most_common(1)`: the highest count, with ties going to
    the value inserted first.
  - `CompareEncodings` is the per-identity vote, and `Recognize` is `recognize_face`.
  - `GatherVotes` and `RecognizeFace` are the two loops of the source. `GatherVotes`
    is proved to return one vote per identity, in store order, and to fail exactly
    on an identity without vectors. `RecognizeFace` is proved equal to `Recognize`.
- `LiveLoop` (live.dfy): `Step` is the dedup decision for one face.
  - `FrameSpec` and `StreamSpec` are the inner and outer loops.
  - The class `VideoStream` holds `target` and `recentTime` and updates them in
    place. Its methods are proved against those functions.
  - The minute of the hour at which each face is handled is part of the input.
- `Cli` (cli.dfy): `Dispatch` is the decision chain of `main`, `Run` is its outcome,
  and `Execute` is the method that performs it.

The model follows the code, including where it behaves differently from what its
names and comments suggest:

- **Tie-break.** A 1-1 tie between per-vector verdicts takes the verdict of the
  first stored vector, because `most_common` keeps insertion order among equal
  counts. So `[true, false]` gives true and `[false, true]` gives false, rather
  than a tie counting as no match. See `TieTakesFirstVerdict`.
- **Empty records.** An identity with no vectors makes recognition raise. It is not
  skipped as a non-match. All votes are gathered before the scan, so this happens
  even when an earlier identity would have matched. `train` creates such records
  (a dataset folder without faces) and so does `save` (the key is created before
  any face is found).
- **Alert window.** `recent_time` is set at loop start and at a re-arm, never when
  an alert is sent. The window is therefore measured from the last re-arm.
  - Started at minute 5, two unknown faces at minute 10 raise two alerts:
    `AlertWindowStartsAtRearm`.
  - Started at minute 10, unknown faces at 10, 10 and 12 raise alert, nothing,
    alert: `AlertOncePerWindow`.
- **Re-arm and the clock.** Re-arming is checked only while a face is handled, so
  frames without faces change nothing. The clock is the minute of the hour, so a
  disarm whose last re-arm was at minute `59 - UNKNOWN_TIMEOUT` or later never
  re-arms: `LateDisarmNeverRearms`.
- **Image arguments.** `--save --image` wraps the argument in `Path`, which drops a
  trailing `/`, but `--recognize --image` opens the raw string. So `p.jpg/` saves
  the faces of `p.jpg` but fails to be recognised: `TrailingSlashImage`.
- **Batch recognition.** `--recognize --image` and `--recognize --folder` only
  collect the encodings. They never compare them with the store and produce no
  decisions.

## Model

| member | source | states |
|---|---|---|
| `Paths.Components` | main.py:25-28 | splitting an argument on `/` yields only components that are non-empty, not `.` and free of separators |
| `Paths.Parse` | main.py:25-28 | `Path(arg)`: the path is absolute exactly when the argument starts with `/`, and every component is non-empty, not `.` and has no separator |
| `Paths.ComponentsSplit` | main.py:25-28 | the components of `a/t` are those of `a` followed by those of `t` |
| `Paths.ParsePlainName` | main.py:25-28 | a plain name such as `alice` is the one-component relative path |
| `Paths.ParseSnoc` | main.py:25-28 | `a/b` for a plain name `b` has the components of `a` followed by `b`, so its name is `b` |
| `Paths.ParseTrailingSlash` | main.py:25-28 | a trailing `/` changes no component, and for a non-empty argument nothing at all |
| `Paths.LastSegment` | main.py:43 | the text after the last `/` of a raw argument: a suffix without separators that is the whole argument or follows a `/` |
| `Paths.NamesFile` | main.py:43 | whether `open()` can read the raw argument as a file; an argument ending in `/` never can |
| `Paths.LastSegmentOfName` | main.py:43 | the last segment of a plain name is the name, and that of `a/b` is `b` |
| `Paths.NamesFileOfName` | main.py:43 | a plain name other than `..`, alone or as `a/b`, can be opened as a file |
| `Paths.TrailingSlashNamesNoFile` | main.py:25-43 | `p.jpg/` parses like `p.jpg`, but cannot be opened as a file |
| `Paths.Name` | modules/utils.py:96 | `Path.name` is the last component; it is empty only for a path without components and never holds a separator |
| `Paths.Join` | modules/utils.py:146 | `dir / name` keeps the anchor of `dir` and adds `name` as its last component |
| `Paths.ResolveFolder` | modules/utils.py:146 | with `fullpath` the folder is used as given; otherwise it is the project root joined with only the folder's last component |
| `Paths.ResolveNestedFolder` | modules/utils.py:146 | without `fullpath`, a folder given as `a/b` or `a/b/` is looked up as `b` under the project root |
| `EncodingStore.GlobListing` | modules/utils.py:94-101 | `glob("*")` gives a listed directory's entries in listing order, and nothing for any other path |
| `EncodingStore.Load` | modules/utils.py:113-119 | no store file gives the empty store; otherwise the stored dictionary exactly, so loading what was saved gives it back |
| `EncodingStore.Assign` | modules/utils.py:97 | `d[name] = vs`: `name` holds `vs`, an existing key keeps its position and a new one goes last |
| `EncodingStore.AssignValid` | modules/utils.py:97 | assignment keeps the dictionary well formed: distinct keys in insertion order, exactly the keys of the records |
| `EncodingStore.EnsureKey` | modules/utils.py:137-138 | the person's key exists afterwards; an existing record and every other key are unchanged; a new key goes last |
| `EncodingStore.Extend` | modules/utils.py:133-134 | appending to an existing key changes only that key's record and keeps the key order |
| `EncodingStore.ExtendNothing` | modules/utils.py:133-134 | appending no vectors leaves the store as it was |
| `EncodingStore.EnsureKeyThenExtend` | modules/utils.py:133-138 | creating the key and then appending: the person's record is the old one (or nothing) followed by the new vectors, every other key is untouched, the store stays well formed |
| `EncodingStore.FirstFaces` | modules/utils.py:133-134 | at most one vector is kept per image |
| `EncodingStore.FirstFacesAppend` | modules/utils.py:130-134 | the first faces kept from two runs of images are those of the first run followed by those of the second |
| `EncodingStore.FirstFacesNone` | modules/utils.py:133-134 | images in which no face is found add nothing |
| `EncodingStore.FirstFacesAll` | modules/utils.py:133-134 | when every image has a face, exactly one vector per image is kept, its first |
| `EncodingStore.EnrollThreeOfFour` | modules/utils.py:130-134 | three images with faces and one without add exactly three vectors, in image order |
| `EncodingStore.SaveInputs` | modules/utils.py:141-149 | the images `save` processes: the single image first, then everything the resolved folder lists, and nothing when neither is given |
| `EncodingStore.SaveNestedFolder` | modules/utils.py:146-147 | `save` on a folder `a/b` without `fullpath` reads the listing of `b` under the project root |
| `EncodingStore.SaveSpec` | modules/utils.py:122-154 | `save` fails exactly when an input image cannot be read; otherwise the person's record is the old one followed by the first face of each resized image with a face, every other identity is unchanged, and a new person goes last |
| `EncodingStore.SaveWithoutFacesCreatesEmptyRecord` | modules/utils.py:137-138 | saving a new person from images without faces creates that person with no vectors |
| `EncodingStore.AddImages` | modules/utils.py:130-134 | `process_image` over a list: the first unreadable image raises; otherwise the first face of each image with one is appended in order |
| `EncodingStore.Save` | modules/utils.py:122-154 | the step-by-step `save` produces exactly `SaveSpec` |
| `EncodingStore.AssignAll` | modules/utils.py:91-97 | assigning the entries in turn starts from an empty dictionary and adds at most one key per entry |
| `EncodingStore.AssignAllLast` | modules/utils.py:96-97 | the last assignment to a name wins: the name holds the last entry's vectors, whatever came before |
| `EncodingStore.AssignAllValid` | modules/utils.py:91-97 | the dictionary `train` builds is always well formed |
| `EncodingStore.AssignAllOrder` | modules/utils.py:94-97 | with distinct folder names the store lists the names in folder order |
| `EncodingStore.AssignAllRecords` | modules/utils.py:94-105 | with distinct folder names each name holds exactly its own folder's vectors |
| `EncodingStore.TrainEntries` | modules/utils.py:94-105 | one entry per dataset folder, in listing order, named after its folder |
| `EncodingStore.TrainSpec` | modules/utils.py:89-110 | `train` fails exactly when some image of some dataset folder cannot be read; otherwise it writes a well-formed store built from the dataset alone |
| `EncodingStore.TrainRecords` | modules/utils.py:89-110 | one identity per dataset folder, in listing order, holding the first face of each of that folder's images |
| `EncodingStore.TrainFaceLessFolder` | modules/utils.py:96-105 | a dataset folder in which no image shows a face becomes an identity with no vectors |
| `EncodingStore.Train` | modules/utils.py:89-110 | the step-by-step `train` produces exactly `TrainSpec` |
| `EncodingStore.Flatten` | main.py:50-53 | concatenating the images' encodings gives nothing exactly when no image has an encoding |
| `EncodingStore.FlattenAppend` | main.py:50-53 | the encodings of two runs of images are those of the first run followed by those of the second |
| `EncodingStore.CollectEncodings` | main.py:46-53 | folder recognition fails at the first unreadable image; otherwise it gathers every listed image's encodings in listing order |
| `Matching.Count` | modules/utils.py:199 | a value's count is at most the length, and positive exactly when the value occurs |
| `Matching.CountBoth` | modules/utils.py:199 | every verdict is counted as true or as false |
| `Matching.LeaderFrom` | modules/utils.py:200 | the scan of `most_common(1)` ends on a position whose count is maximal and is strictly greater than the count of every earlier position |
| `Matching.MostCommon` | modules/utils.py:199-200 | nothing for an empty list; otherwise a value of the list with the highest count, and the first inserted among the values with that count |
| `Matching.Verdicts` | modules/utils.py:199 | one comparison verdict per stored vector |
| `Matching.CompareEncodings` | modules/utils.py:197-200 | the vote fails exactly on an identity with no vectors; otherwise it is one of the verdicts |
| `Matching.CompareEncodingsIsMajority` | modules/utils.py:199-200 | the vote is a majority verdict, and on an even split it is the verdict of the first stored vector |
| `Matching.MajorityDecides` | modules/utils.py:199-200 | a strict majority decides the vote, whatever the order of the vectors |
| `Matching.TieTakesFirstVerdict` | modules/utils.py:199-200 | with one match and one non-match the vote is the first vector's verdict: true then false gives true, false then true gives false |
| `Matching.FirstMatch` | modules/utils.py:211-215 | the scan yields one of the names or `Unknown` |
| `Matching.Recognize` | modules/utils.py:190-215 | recognition fails exactly when some identity has no vectors; otherwise it yields exactly one label, a store identity or `Unknown` |
| `Matching.FirstMatchIsFirst` | modules/utils.py:211-215 | the label is the first name whose vote is true, and `Unknown` when no vote is true |
| `Matching.FirstMatchFound` | modules/utils.py:211-215 | a returned name has a true vote, and no earlier name has one |
| `Matching.RecognizeFirstIdentity` | modules/utils.py:204-215 | the first identity in store order whose vote is true is the label |
| `Matching.RecognizeNoMatch` | modules/utils.py:204-215 | with no true vote, including an empty store, the label is `Unknown` |
| `Matching.EmptyRecordBreaksRecognition` | modules/utils.py:199-208 | one identity with no vectors makes every recognition fail |
| `Matching.FaceLessSaveBreaksRecognition` | modules/utils.py:130-138 | saving a new person from images without faces leaves a store in which every recognition fails |
| `Matching.GatherVotes` | modules/utils.py:203-208 | the gathered votes fail exactly when some identity has no vectors; otherwise there is one vote per identity, in store order |
| `Matching.RecognizeFace` | modules/utils.py:190-215 | the step-by-step `recognize_face` produces exactly `Recognize` |
| `LiveLoop.Step` | modules/utils.py:44-53 | only an unknown face raises an alert, and the alert disarms; an unknown face raises one whenever the state is armed after the re-arm check; a disarmed state within the window is left as it is; a known face re-arms exactly when the window has passed; a re-arm (disarmed and more than `timeout` minutes since `recent_time`) sets `recent_time` to the current minute, and otherwise it is unchanged |
| `LiveLoop.FrameSpec` | modules/utils.py:41-55 | a frame with faces fails exactly when some identity has no vectors, at its first face and with the state unchanged; otherwise there is one label per face, each face's recognition result, in detector order, and only unknown faces raise alerts |
| `LiveLoop.StreamSpec` | modules/utils.py:27-69 | the loop crashes only on an identity with no vectors; it ends at the camera's end only if `q` was never pressed, and does so whenever no identity is empty and `q` is never pressed |
| `LiveLoop.FaceLessFramesChangeNothing` | modules/utils.py:41-55 | frames without faces change no state and send nothing, however long the window has passed |
| `LiveLoop.CrashAtFirstFace` | modules/utils.py:27-55 | with an identity that has no vectors, the loop crashes at the first frame with a face when no earlier frame was quit |
| `LiveLoop.QuietFrame` | modules/utils.py:44-53 | once disarmed, faces handled within the window send nothing and change nothing |
| `LiveLoop.QuietWindow` | modules/utils.py:27-55 | at most one alert per window: from a disarmed state no alert is sent while every face is handled within the window |
| `LiveLoop.LateDisarmNeverRearms` | modules/utils.py:44-47 | with minute-of-hour clock readings, a disarm whose last re-arm was at minute `59 - UNKNOWN_TIMEOUT` or later never re-arms |
| `LiveLoop.AlertOncePerWindow` | modules/utils.py:20-53 | started at minute 10, unknown faces at 10, 10 and 12 raise an alert, nothing, and an alert |
| `LiveLoop.AlertWindowStartsAtRearm` | modules/utils.py:20-53 | started at minute 5, two unknown faces at minute 10 both raise alerts, since sending does not move `recent_time` |
| `LiveLoop.VideoStream.constructor` | modules/utils.py:20-21 | the loop starts armed with the start minute as `recent_time` |
| `LiveLoop.VideoStream.OnFace` | modules/utils.py:44-53 | the in-place update of `target` and `recent_time` for one face is `Step` |
| `LiveLoop.VideoStream.ProcessFrame` | modules/utils.py:41-55 | the in-place loop over one frame's faces is `FrameSpec` |
| `LiveLoop.VideoStream.Run` | modules/utils.py:27-69 | the in-place loop over the frames is `StreamSpec` |
| `Cli.TruthyCases` | main.py:22-38 | a missing argument and an empty string are false, and any other string is true |
| `Cli.Dispatch` | main.py:17-63 | precedence train, save, load, recognize; `save` needs a person and an image or a folder, and the image wins, parsed as a path; `recognize` takes the raw image string, else the folder, else the video; each missing case gets its usage message, and no mode flag gets the general one |
| `Cli.OpenImage` | main.py:43 | opening the raw image argument succeeds exactly when it names a file that is a readable image, and then gives that image's encodings |
| `Cli.Run` | main.py:10-63 | only train and save write the store, and a written store is well formed; load shows the stored dictionary; usage errors only show their message; only the image and folder branches collect encodings; only the video branch runs the live loop |
| `Cli.RunResults` | main.py:17-57 | train writes `TrainSpec`'s store and save writes `SaveSpec`'s; the image branch opens the raw argument; the video branch reports `StreamSpec`'s alerts and ending |
| `Cli.RecognizeNamedImage` | main.py:40-43 | `--recognize --image photos/p.jpg` opens that readable image and collects its encodings |
| `Cli.TrailingSlashImage` | main.py:25-43 | with `p.jpg/`, `--save` reads the image `p.jpg`, while `--recognize --image` fails to open the argument |
| `Cli.OnlyTrainAndSaveWrite` | main.py:32-60 | load and recognize leave the store file as it was |
| `Cli.TrainWins` | main.py:17-19 | with `--train` the run is the training, whatever else is given |
| `Cli.FaceLessTrainingBreaksVideo` | main.py:55-57 | after training on a dataset with a face-less folder, the video loop ends with the empty-record error at the first camera frame with a face, when no earlier frame was quit |
| `Cli.Execute` | main.py:10-63 | the step-by-step `main` produces exactly `Run` |

## Left out

- Camera capture, `imshow`, `waitKey` and drawing (`display_face`) are not modelled. The
  camera is a sequence of frames, and a `q` press is a flag on a frame.
- The optional snapshot under `tmp/` after `q`, and the temporary `tmp_unknown.jpg`,
  are not modelled.
- The chat transport is not modelled. An alert is the value `true` in the alert
  sequence; a failing send is left out.
- Face detection, embeddings and the distance threshold of `compare_faces` are
  floating point and foreign code. The embedding provider is the `Disk` value, and
  the comparison is the `same` parameter.
- `resize_face` numerics are not modelled. Each image carries the faces found at its
  own size and after resizing.
- The store file's byte format and a corrupt store file (pickle errors) are not
  modelled. A loaded store is always a well-formed dictionary.
- asyncio scheduling and tqdm progress bars are not modelled. Votes and images are
  handled in their deterministic order.
- The diagnostic output is not modelled: `print("yes")`, progress lines, and the
  text of `Loaded encodings: ...`.
- `recognize_face` reloads the store file for every face. The model reads it once per
  run, because nothing writes it during a run.
- Lines 44 and 47 read the clock separately. The model takes one minute per face.
- The store file is written only on success. An exception before the write leaves
  the old file.
- A leading `//` is read like a single `/`, which pathlib keeps distinct. A
  directory that `glob` does not list yields no images.
- How the file system resolves `..` and symbolic links when a file is opened is not
  modelled. An image is found by the components of its path, `..` included.
- argparse itself is not modelled. The parsed flags are the `Args` record.
- The POSIX path details of `DEFAULT_PROJECT_PATH` are not modelled. The root is part
  of the `Disk`.
