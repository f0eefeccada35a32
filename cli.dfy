/**
 * The command line of main.py: `main(args)` chooses one operation from the
 * parsed flags (train, then save, then load, then recognize) and runs it once.
 */
module Cli {
  import opened Wrappers
  import opened Paths
  import opened EncodingStore
  import opened Matching
  import opened LiveLoop
  import Config

  /**
   * The parsed arguments (main.py:73-81): four mode flags, three optional
   * strings (None when not given) and the video and full-path flags.
   */
  datatype Args = Args(train: bool, save: bool, load: bool, recognize: bool,
                       person: Option<string>, folder: Option<string>, image: Option<string>,
                       video: bool, fullpath: bool)

  /** Python truthiness of an optional string argument: given and not empty. */
  predicate Truthy(o: Option<string>) {
    o.Some? && o.value != ""
  }

  /** A missing argument and an empty string are both false; any other string is true. */
  lemma TruthyCases(v: string)
    ensures !Truthy(None) && !Truthy(Some(""))
    ensures v != "" ==> Truthy(Some(v))
  {
  }

  const SaveUsage: string := "Error: 'person' and either 'folder' or 'image' must be provided to save encodings."
  const RecognizeUsage: string := "Error: Either '--image' or '--folder' must be provided for recognition."
  const NoCommand: string := "No valid command provided. Use --train, --save, --load, or --recognize."

  /** The one thing `main` does for a set of arguments. */
  datatype Action =
    | TrainAll
    | SaveImage(person: string, image: Path, fullpath: bool)
    | SaveFolder(person: string, folder: Path, fullpath: bool)
    | ShowStore
    | RecognizeImage(imageArg: string)
    | RecognizeFolder(folder: Path)
    | RecognizeVideo
    | Report(text: string)

  /**
   * The branches of `main` (main.py:17-63). The first mode flag set, in the order
   * train, save, load, recognize, decides; `save` needs a person and an image or
   * a folder, and the image wins; `recognize` takes the image, else the folder,
   * else the video; anything missing is reported with the usage message.
   */
  function Dispatch(args: Args): (a: Action)
    ensures a == TrainAll <==> args.train
    ensures a.SaveImage? <==> !args.train && args.save && Truthy(args.person) && Truthy(args.image)
    ensures a.SaveFolder? <==> !args.train && args.save && Truthy(args.person) && !Truthy(args.image) && Truthy(args.folder)
    ensures a.SaveImage? ==> a == SaveImage(args.person.value, Parse(args.image.value), args.fullpath)
    ensures a.SaveFolder? ==> a == SaveFolder(args.person.value, Parse(args.folder.value), args.fullpath)
    ensures a == Report(SaveUsage) <==>
              !args.train && args.save && !(Truthy(args.person) && (Truthy(args.folder) || Truthy(args.image)))
    ensures a == ShowStore <==> !args.train && !args.save && args.load
    ensures a.RecognizeImage? <==> !args.train && !args.save && !args.load && args.recognize && Truthy(args.image)
    ensures a.RecognizeImage? ==> a.imageArg == args.image.value
    ensures a.RecognizeFolder? <==>
              !args.train && !args.save && !args.load && args.recognize && !Truthy(args.image) && Truthy(args.folder)
    ensures a == RecognizeVideo <==>
              !args.train && !args.save && !args.load && args.recognize && !Truthy(args.image) && !Truthy(args.folder) && args.video
    ensures a == Report(RecognizeUsage) <==>
              !args.train && !args.save && !args.load && args.recognize && !Truthy(args.image) && !Truthy(args.folder) && !args.video
    ensures a == Report(NoCommand) <==> !args.train && !args.save && !args.load && !args.recognize
  {
    if args.train then TrainAll
    else if args.save then
      if Truthy(args.person) && (Truthy(args.folder) || Truthy(args.image)) then
        if Truthy(args.image) then SaveImage(args.person.value, Parse(args.image.value), args.fullpath)
        else SaveFolder(args.person.value, Parse(args.folder.value), args.fullpath)
      else Report(SaveUsage)
    else if args.load then ShowStore
    else if args.recognize then
      if Truthy(args.image) then RecognizeImage(args.image.value)
      else if Truthy(args.folder) then RecognizeFolder(Parse(args.folder.value))
      else if args.video then RecognizeVideo
      else Report(RecognizeUsage)
    else Report(NoCommand)
  }

  /** What a run of `main` leaves behind. */
  datatype Outcome =
    | Wrote(store: Store)                       // train or save wrote the store file
    | Failed(error: Error)                      // an exception ended the run
    | Shown(store: Store)                       // load showed the stored encodings
    | Collected(encodings: seq<Vector>)         // recognize on an image or a folder
    | Watched(alerts: seq<bool>, ending: Ending) // recognize on the camera
    | Message(text: string)                     // a usage message

  /**
   * `load_image_file` on the raw argument string (main.py:43): `open()` fails
   * unless the string names a file, and otherwise reads the image at its path.
   */
  function OpenImage(disk: Disk, raw: string): (r: Result<Faces>)
    ensures r.Ok? <==> NamesFile(raw) && Parse(raw) in disk.images
    ensures r.Err? ==> r.error == UnreadableImage
    ensures r.Ok? ==> r.value == disk.images[Parse(raw)].faces
  {
    if NamesFile(raw) && Parse(raw) in disk.images then Ok(disk.images[Parse(raw)].faces) else Err(UnreadableImage)
  }

  /** The world `main` runs in: files, the comparison of encodings, the camera and the clock at start. */
  datatype Env = Env(disk: Disk, same: SamePerson, camera: seq<Frame>, startMinute: int)

  /** An operation that writes the store file either writes it or fails before the write. */
  function Written(r: Result<Store>): (o: Outcome)
    ensures r.Ok? ==> o == Wrote(r.value)
    ensures r.Err? ==> o == Failed(r.error)
  {
    if r.Ok? then Wrote(r.value) else Failed(r.error)
  }

  /** The store file after the run: replaced when the run wrote it, otherwise as it was. */
  function FileAfter(snapshot: Option<Store>, o: Outcome): (after: Option<Store>)
    ensures o.Wrote? ==> after == Some(o.store)
    ensures !o.Wrote? ==> after == snapshot
  {
    if o.Wrote? then Some(o.store) else snapshot
  }

  /**
   * `main(args)` (main.py:10-63) as its outcome. The image and folder branches of
   * `recognize` only gather encodings (the image's, or every listed image's in
   * listing order); they never compare them with the store.
   */
  function Run(args: Args, snapshot: Option<Store>, env: Env): (o: Outcome)
    requires snapshot.Some? ==> snapshot.value.Valid()
    ensures o.Wrote? ==> o.store.Valid() && (Dispatch(args) == TrainAll || Dispatch(args).SaveImage? || Dispatch(args).SaveFolder?)
    ensures Dispatch(args) == ShowStore ==> o == Shown(Load(snapshot))
    ensures Dispatch(args).Report? ==> o == Message(Dispatch(args).text)
    ensures o.Collected? ==> Dispatch(args).RecognizeImage? || Dispatch(args).RecognizeFolder?
    ensures o.Watched? <==> Dispatch(args) == RecognizeVideo
  {
    match Dispatch(args)
    case TrainAll => Written(TrainSpec(env.disk))
    case SaveImage(person, image, fullpath) => Written(SaveSpec(snapshot, env.disk, person, Some(image), None, fullpath))
    case SaveFolder(person, folder, fullpath) => Written(SaveSpec(snapshot, env.disk, person, None, Some(folder), fullpath))
    case ShowStore => Shown(Load(snapshot))
    case RecognizeImage(image) =>
      var r := OpenImage(env.disk, image);
      if r.Ok? then Collected(r.value) else Failed(r.error)
    case RecognizeFolder(folder) =>
      var paths := Glob(env.disk, folder);
      if Readable(env.disk, paths) then Collected(Flatten(FacesOf(env.disk, paths, false))) else Failed(UnreadableImage)
    case RecognizeVideo =>
      var o := StreamSpec(env.same, Load(snapshot), Config.UnknownTimeout, Dedup(true, env.startMinute), env.camera);
      Watched(o.alerts, o.ending)
    case Report(text) => Message(text)
  }

  /**
   * What each writing or watching run produces: train writes `TrainSpec`'s store,
   * save writes `SaveSpec`'s, the image branch opens the raw argument, and the
   * video branch reports the live loop's alerts and ending.
   */
  lemma RunResults(args: Args, snapshot: Option<Store>, env: Env)
    requires snapshot.Some? ==> snapshot.value.Valid()
    ensures var d := Dispatch(args); var o := Run(args, snapshot, env);
      (d == TrainAll ==> o == Written(TrainSpec(env.disk))) &&
      (d.SaveImage? ==> o == Written(SaveSpec(snapshot, env.disk, d.person, Some(d.image), None, d.fullpath))) &&
      (d.SaveFolder? ==> o == Written(SaveSpec(snapshot, env.disk, d.person, None, Some(d.folder), d.fullpath))) &&
      (d.RecognizeImage? ==> o == (var r := OpenImage(env.disk, d.imageArg); if r.Ok? then Collected(r.value) else Failed(r.error)))
    ensures Dispatch(args) == RecognizeVideo ==>
      var w := StreamSpec(env.same, Load(snapshot), Config.UnknownTimeout, Dedup(true, env.startMinute), env.camera);
      Run(args, snapshot, env) == Watched(w.alerts, w.ending)
  {
  }

  /** Only `--train` and `--save` change the store file; `--load` and `--recognize` leave it as it was. */
  lemma OnlyTrainAndSaveWrite(args: Args, snapshot: Option<Store>, env: Env)
    requires snapshot.Some? ==> snapshot.value.Valid()
    requires !args.train && !args.save
    ensures FileAfter(snapshot, Run(args, snapshot, env)) == snapshot
  {
  }

  /** `--train` wins over every other flag: the run is the training, whatever else is given. */
  lemma TrainWins(args: Args, snapshot: Option<Store>, env: Env)
    requires snapshot.Some? ==> snapshot.value.Valid()
    requires args.train
    ensures Run(args, snapshot, env) == Written(TrainSpec(env.disk))
  {
  }

  /**
   * `--save` reads the image through `Path(image)`, which drops a trailing
   * separator, but `--recognize --image` opens the raw string: "p.jpg/" saves
   * the faces of p.jpg and fails to be recognised.
   */
  lemma TrailingSlashImage(args: Args, snapshot: Option<Store>, env: Env, s: string)
    requires snapshot.Some? ==> snapshot.value.Valid()
    requires !args.train && Truthy(args.person) && args.image == Some(s + "/") && s != ""
    ensures args.save ==> Dispatch(args) == SaveImage(args.person.value, Parse(s), args.fullpath)
    ensures !args.save && !args.load && args.recognize ==> Run(args, snapshot, env) == Failed(UnreadableImage)
  {
    TrailingSlashNamesNoFile(s);
  }

  /** `--recognize --image photos/p.jpg` opens `p.jpg` in `photos` and collects its encodings. */
  lemma RecognizeNamedImage(args: Args, snapshot: Option<Store>, env: Env, a: string, b: string)
    requires snapshot.Some? ==> snapshot.value.Valid()
    requires !args.train && !args.save && !args.load && args.recognize
    requires args.image == Some(a + "/" + b) && IsPart(b) && b != ".."
    requires Parse(a + "/" + b) in env.disk.images
    ensures Run(args, snapshot, env) == Collected(env.disk.images[Parse(a + "/" + b)].faces)
  {
    NamesFileOfName(a, b);
  }

  /**
   * After a training in which some dataset folder shows no face, the video loop
   * ends with the empty-record error at the first camera frame with a face, when
   * no earlier frame was quit.
   */
  lemma FaceLessTrainingBreaksVideo(args: Args, disk: Disk, env: Env, i: nat, k: nat)
    requires TrainSpec(disk).Ok?
    requires DistinctNames(TrainEntries(disk, Glob(disk, DatasetPath(disk))))
    requires i < |Glob(disk, DatasetPath(disk))|
    requires var f := Glob(disk, DatasetPath(disk))[i];
      forall j :: 0 <= j < |Glob(disk, f)| ==> FacesOf(disk, Glob(disk, f), false)[j] == []
    requires Dispatch(args) == RecognizeVideo
    requires k < |env.camera| && env.camera[k].faces != []
    requires forall j :: 0 <= j < k ==> env.camera[j].faces == [] && !env.camera[j].quit
    ensures Run(args, Some(TrainSpec(disk).value), env).ending == Crashed(EmptyRecord)
  {
    var f := Glob(disk, DatasetPath(disk))[i];
    var store := TrainSpec(disk).value;
    TrainFaceLessFolder(disk, i);
    EmptyRecordBreaksRecognition(env.same, store, Name(f), env.camera[k].faces[0].encoding);
    CrashAtFirstFace(env.same, store, Config.UnknownTimeout, Dedup(true, env.startMinute), env.camera, k);
  }

  /** `main(args)` step by step: the chosen operation, run once. */
  method Execute(args: Args, snapshot: Option<Store>, env: Env) returns (o: Outcome)
    requires snapshot.Some? ==> snapshot.value.Valid()
    ensures o == Run(args, snapshot, env)
  {
    var action := Dispatch(args);
    match action
    case TrainAll =>
      var r := Train(env.disk);
      o := Written(r);
    case SaveImage(person, image, fullpath) =>
      var r := Save(snapshot, env.disk, person, Some(image), None, fullpath);
      o := Written(r);
    case SaveFolder(person, folder, fullpath) =>
      var r := Save(snapshot, env.disk, person, None, Some(folder), fullpath);
      o := Written(r);
    case ShowStore =>
      o := Shown(Load(snapshot));
    case RecognizeImage(image) =>
      var r := OpenImage(env.disk, image);
      o := if r.Ok? then Collected(r.value) else Failed(r.error);
    case RecognizeFolder(folder) =>
      var r := CollectEncodings(env.disk, Glob(env.disk, folder));
      o := if r.Ok? then Collected(r.value) else Failed(r.error);
    case RecognizeVideo =>
      var stream := new VideoStream(env.startMinute);
      var alerts, ending := stream.Run(env.same, Load(snapshot), env.camera);
      o := Watched(alerts, ending);
    case Report(text) =>
      o := Message(text);
  }
}
