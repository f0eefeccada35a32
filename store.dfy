/**
 * The encoding store of modules/utils.py: the insertion-ordered dictionary from
 * identity name to embedding vectors, and the operations that read it (`load`)
 * and rebuild or extend it (`train`, `save` with its inner `process_image`).
 *
 * Images and the embedding provider are inputs: a `Disk` says, for every image
 * file, which encodings the provider returns for it, and what each folder lists.
 * The store file is the value `snapshot: Option<Store>` (None: no file yet);
 * an operation that writes the file returns the one value it writes.
 */
module EncodingStore {
  import opened Wrappers
  import opened Paths
  import Config

  /** A face embedding; its numbers are never inspected by the modelled logic. */
  type Vector = seq<real>

  /** The encodings the provider returns for one image, in detection order. */
  type Faces = seq<Vector>

  /**
   * What the provider finds in one image file: at its own size (train, batch
   * recognition) and after `resize_face` to DEFAULT_IMAGE_SIZE (save).
   */
  datatype ImageFile = ImageFile(faces: Faces, facesResized: Faces)

  /**
   * The files the program can see: the project root, the readable images, and
   * what `glob("*")` yields for each directory, in listing order.
   */
  datatype Disk = Disk(root: Path, images: map<Path, ImageFile>, listings: map<Path, seq<Path>>)

  /** `dir.glob("*")`: a path that is not a listed directory yields nothing. */
  function Glob(disk: Disk, dir: Path): (paths: seq<Path>) {
    if dir in disk.listings then disk.listings[dir] else []
  }

  /** A listed directory yields its entries in listing order; any other path yields nothing. */
  lemma GlobListing(disk: Disk, dir: Path)
    ensures dir !in disk.listings ==> Glob(disk, dir) == []
    ensures dir in disk.listings ==> Glob(disk, dir) == disk.listings[dir]
  {
  }

  /** Every path can be opened as an image (otherwise load_image_file raises). */
  predicate Readable(disk: Disk, paths: seq<Path>) {
    forall i :: 0 <= i < |paths| ==> paths[i] in disk.images
  }

  lemma ReadableAppend(disk: Disk, a: seq<Path>, b: seq<Path>)
    ensures Readable(disk, a + b) <==> Readable(disk, a) && Readable(disk, b)
  {
    assert forall i :: 0 <= i < |a| ==> (a + b)[i] == a[i];
    assert forall i :: 0 <= i < |b| ==> (a + b)[|a| + i] == b[i];
  }

  /** The paths up to `i + 1` are readable when those up to `i` are and path `i` is; an unreadable path makes the whole list unreadable. */
  lemma ReadableSnoc(disk: Disk, paths: seq<Path>, i: nat)
    requires i < |paths|
    ensures Readable(disk, paths[..i + 1]) <==> Readable(disk, paths[..i]) && paths[i] in disk.images
    ensures paths[i] !in disk.images ==> !Readable(disk, paths)
  {
    assert paths[..i + 1][i] == paths[i];
    assert forall j :: 0 <= j < i ==> paths[..i + 1][j] == paths[..i][j];
  }

  /** The encodings of one image file, at its own size or resized. */
  function FacesIn(file: ImageFile, resized: bool): (r: Faces) {
    if resized then file.facesResized else file.faces
  }

  /**
   * The provider's encodings for each path, in order. Only ever consulted for
   * readable paths; an unreadable one would show no face.
   */
  function FacesOf(disk: Disk, paths: seq<Path>, resized: bool): (r: seq<Faces>)
    ensures |r| == |paths|
  {
    seq(|paths|, i requires 0 <= i < |paths| =>
      if paths[i] in disk.images then FacesIn(disk.images[paths[i]], resized) else [])
  }

  lemma FacesOfAppend(disk: Disk, a: seq<Path>, b: seq<Path>, resized: bool)
    ensures FacesOf(disk, a + b, resized) == FacesOf(disk, a, resized) + FacesOf(disk, b, resized)
  {
  }

  /**
   * The store: identity names in dictionary insertion order, and each name's
   * record. A Python dict has no duplicate keys and knows exactly its keys.
   */
  datatype Store = Store(order: seq<string>, records: map<string, seq<Vector>>) {
    predicate Valid() {
      (forall i, j :: 0 <= i < j < |order| ==> order[i] != order[j]) &&
      (forall k :: k in records ==> k in order) &&
      (forall i :: 0 <= i < |order| ==> order[i] in records)
    }
  }

  const Empty: Store := Store([], map[])

  /** The record of `name`, or [] when the store has no such key. */
  function Lookup(store: Store, name: string): (vs: seq<Vector>) {
    if name in store.records then store.records[name] else []
  }

  /**
   * `load` (modules/utils.py:113-119): with no store file the result is the empty
   * store; otherwise exactly the store that was last written.
   */
  function Load(snapshot: Option<Store>): (s: Store)
    ensures snapshot.None? ==> s.order == [] && s.records == map[]
    ensures forall t :: snapshot == Some(t) ==> s == t
  {
    snapshot.GetOr(Empty)
  }

  /**
   * `d[name] = vs`: an existing key keeps its position and gets the new record; a
   * new key goes last. No other key is touched.
   */
  function Assign(store: Store, name: string, vs: seq<Vector>): (r: Store)
    ensures name in r.records
    ensures r.records == store.records[name := vs]
    ensures r.order == if name in store.records then store.order else store.order + [name]
  {
    if name in store.records then Store(store.order, store.records[name := vs])
    else Store(store.order + [name], store.records[name := vs])
  }

  /** Assignment keeps a store well formed: keys stay distinct and match the records. */
  lemma AssignValid(store: Store, name: string, vs: seq<Vector>)
    requires store.Valid()
    ensures Assign(store, name, vs).Valid()
  {
    var r := Assign(store, name, vs);
    if name !in store.records {
      assert name !in store.order;
      assert forall i :: 0 <= i < |store.order| ==> r.order[i] == store.order[i];
      assert r.order[|store.order|] == name;
    }
  }

  /**
   * `if person not in encodings: encodings[person] = []` (modules/utils.py:137-138):
   * the key exists afterwards, and an existing record is left as it was.
   */
  function EnsureKey(store: Store, person: string): (r: Store)
    ensures person in r.records
    ensures r.records == store.records[person := Lookup(store, person)]
    ensures r.order == if person in store.records then store.order else store.order + [person]
  {
    if person in store.records then store else Assign(store, person, [])
  }

  /** Appends `vs` to the record of an existing key; nothing else changes. */
  function Extend(store: Store, person: string, vs: seq<Vector>): (r: Store)
    requires person in store.records
    ensures r.order == store.order
    ensures r.records == store.records[person := store.records[person] + vs]
  {
    Assign(store, person, store.records[person] + vs)
  }

  lemma ExtendNothing(store: Store, person: string)
    requires person in store.records
    ensures Extend(store, person, []) == store
  {
    assert store.records[person] + [] == store.records[person];
    assert store.records[person := store.records[person]] == store.records;
  }

  lemma ExtendTwice(store: Store, person: string, a: seq<Vector>, b: seq<Vector>)
    requires person in store.records
    ensures Extend(Extend(store, person, a), person, b) == Extend(store, person, a + b)
  {
    assert store.records[person] + a + b == store.records[person] + (a + b);
  }

  lemma ResetThenExtend(store: Store, name: string, vs: seq<Vector>)
    ensures Extend(Assign(store, name, []), name, vs) == Assign(store, name, vs)
  {
    assert [] + vs == vs;
  }

  /**
   * Creating the key if needed and then appending: the person's record is the old
   * one (or nothing) followed by the new vectors, every other key is untouched,
   * and a new person goes last.
   */
  lemma EnsureKeyThenExtend(store: Store, person: string, vs: seq<Vector>)
    requires store.Valid()
    ensures var r := Extend(EnsureKey(store, person), person, vs);
      r.Valid() && person in r.records && r.records[person] == Lookup(store, person) + vs &&
      (forall k :: k != person ==> Lookup(r, k) == Lookup(store, k) && (k in r.records <==> k in store.records)) &&
      r.order == if person in store.records then store.order else store.order + [person]
  {
    if person !in store.records {
      AssignValid(store, person, []);
    }
    AssignValid(EnsureKey(store, person), person, Lookup(store, person) + vs);
  }

  /**
   * What `if encoding: d[name].append(encoding[0])` collects over a sequence of
   * images: the first encoding of every image that has one, in image order.
   */
  function FirstFaces(images: seq<Faces>): (r: seq<Vector>)
    ensures |r| <= |images|
    decreases |images|
  {
    if images == [] then []
    else (if images[0] == [] then [] else [images[0][0]]) + FirstFaces(images[1..])
  }

  lemma {:induction false} FirstFacesAppend(a: seq<Faces>, b: seq<Faces>)
    ensures FirstFaces(a + b) == FirstFaces(a) + FirstFaces(b)
    decreases |a|
  {
    if a == [] {
      assert a + b == b;
    } else {
      assert (a + b)[1..] == a[1..] + b;
      FirstFacesAppend(a[1..], b);
    }
  }

  /** The images up to `i + 1` keep what the images up to `i` keep, then the first face of image `i`. */
  lemma FirstFacesSnoc(disk: Disk, paths: seq<Path>, i: nat, resized: bool)
    requires i < |paths|
    ensures var enc := FacesOf(disk, paths, resized)[i];
      FirstFaces(FacesOf(disk, paths[..i + 1], resized)) ==
      FirstFaces(FacesOf(disk, paths[..i], resized)) + (if enc == [] then [] else [enc[0]])
  {
    var enc := FacesOf(disk, paths, resized)[i];
    assert FacesOf(disk, paths[..i + 1], resized) == FacesOf(disk, paths[..i], resized) + [enc];
    FirstFacesAppend(FacesOf(disk, paths[..i], resized), [enc]);
    assert [enc][1..] == [];
  }

  /** Images in which no face is found contribute nothing. */
  lemma {:induction false} FirstFacesNone(images: seq<Faces>)
    requires forall i :: 0 <= i < |images| ==> images[i] == []
    ensures FirstFaces(images) == []
    decreases |images|
  {
    if images != [] {
      FirstFacesNone(images[1..]);
    }
  }

  /** When every image has a face, exactly one vector per image is kept: its first. */
  lemma {:induction false} FirstFacesAll(images: seq<Faces>)
    requires forall i :: 0 <= i < |images| ==> images[i] != []
    ensures |FirstFaces(images)| == |images|
    ensures forall i :: 0 <= i < |images| ==> FirstFaces(images)[i] == images[i][0]
    decreases |images|
  {
    if images != [] {
      FirstFacesAll(images[1..]);
    }
  }

  /** Three images with faces and one without yield exactly three new vectors. */
  lemma EnrollThreeOfFour(a: Faces, b: Faces, c: Faces)
    requires a != [] && b != [] && c != []
    ensures FirstFaces([a, b, [], c]) == [a[0], b[0], c[0]]
  {
    FirstFacesAppend([a, b], [[], c]);
    FirstFacesAppend([a], [b]);
    FirstFacesAppend([[]], [c]);
    assert [a, b] + [[], c] == [a, b, [], c];
    assert [a] + [b] == [a, b];
    assert [[]] + [c] == [[], c];
  }

  /**
   * The images `save` processes: the single image first, then whatever the
   * resolved folder lists (modules/utils.py:141-149).
   */
  function SaveInputs(disk: Disk, image: Option<Path>, folder: Option<Path>, fullpath: bool): (paths: seq<Path>)
    ensures image.Some? ==> paths != [] && paths[0] == image.value
    ensures image.None? && folder.None? ==> paths == []
    ensures |paths| == (if image.Some? then 1 else 0) +
                       (if folder.Some? then |Glob(disk, ResolveFolder(folder.value, fullpath, disk.root))| else 0)
    ensures folder.Some? ==> paths[|paths| - |Glob(disk, ResolveFolder(folder.value, fullpath, disk.root))|..]
                             == Glob(disk, ResolveFolder(folder.value, fullpath, disk.root))
  {
    (if image.Some? then [image.value] else []) +
    (if folder.Some? then Glob(disk, ResolveFolder(folder.value, fullpath, disk.root)) else [])
  }

  /**
   * `save --folder a/b` without `--fullpath` reads the images listed under `b`
   * in the project root, wherever `a/b` itself is.
   */
  lemma SaveNestedFolder(disk: Disk, a: string, b: string)
    requires IsPart(b)
    ensures SaveInputs(disk, None, Some(Parse(a + "/" + b)), false) == Glob(disk, Join(disk.root, b))
  {
    ResolveNestedFolder(a, b, disk.root);
  }

  /**
   * `save` (modules/utils.py:122-154) as the store it writes, or the exception that
   * stops it before the write: the person's key is created if absent, the first
   * face of every (resized) image with a face is appended to it, and every other
   * identity is left exactly as it was.
   */
  function SaveSpec(snapshot: Option<Store>, disk: Disk, person: string,
                    image: Option<Path>, folder: Option<Path>, fullpath: bool): (r: Result<Store>)
    requires snapshot.Some? ==> snapshot.value.Valid()
    ensures var paths := SaveInputs(disk, image, folder, fullpath);
      (r.Err? <==> !Readable(disk, paths)) &&
      (r.Ok? ==> var prev := Load(snapshot);
        r.value.Valid() &&
        person in r.value.records &&
        r.value.records[person] == Lookup(prev, person) + FirstFaces(FacesOf(disk, paths, true)) &&
        (forall k :: k != person ==> Lookup(r.value, k) == Lookup(prev, k) && (k in r.value.records <==> k in prev.records)) &&
        r.value.order == if person in prev.records then prev.order else prev.order + [person])
  {
    var paths := SaveInputs(disk, image, folder, fullpath);
    if !Readable(disk, paths) then Err(UnreadableImage)
    else
      var added := FirstFaces(FacesOf(disk, paths, true));
      EnsureKeyThenExtend(Load(snapshot), person, added);
      Ok(Extend(EnsureKey(Load(snapshot), person), person, added))
  }

  /** A save in which no image shows a face still creates the person, with no vectors. */
  lemma SaveWithoutFacesCreatesEmptyRecord(snapshot: Option<Store>, disk: Disk, person: string,
                                           image: Option<Path>, folder: Option<Path>, fullpath: bool)
    requires snapshot.Some? ==> snapshot.value.Valid()
    requires person !in Load(snapshot).records
    requires Readable(disk, SaveInputs(disk, image, folder, fullpath))
    requires forall i :: 0 <= i < |FacesOf(disk, SaveInputs(disk, image, folder, fullpath), true)| ==>
               FacesOf(disk, SaveInputs(disk, image, folder, fullpath), true)[i] == []
    ensures SaveSpec(snapshot, disk, person, image, folder, fullpath).Ok?
    ensures person in SaveSpec(snapshot, disk, person, image, folder, fullpath).value.records
    ensures SaveSpec(snapshot, disk, person, image, folder, fullpath).value.records[person] == []
  {
    FirstFacesNone(FacesOf(disk, SaveInputs(disk, image, folder, fullpath), true));
  }

  /** One image of `AddImages`: its first face, if any, is appended after those of the images before it. */
  lemma AddImageStep(store: Store, person: string, disk: Disk, paths: seq<Path>, i: nat, resized: bool)
    requires person in store.records
    requires i < |paths| && paths[i] in disk.images
    ensures var encoding := FacesIn(disk.images[paths[i]], resized);
      var acc := Extend(store, person, FirstFaces(FacesOf(disk, paths[..i], resized)));
      (if encoding != [] then Extend(acc, person, [encoding[0]]) else acc)
      == Extend(store, person, FirstFaces(FacesOf(disk, paths[..i + 1], resized)))
  {
    var done := FirstFaces(FacesOf(disk, paths[..i], resized));
    var encoding := FacesIn(disk.images[paths[i]], resized);
    FirstFacesSnoc(disk, paths, i, resized);
    if encoding != [] {
      ExtendTwice(store, person, done, [encoding[0]]);
    } else {
      assert done + [] == done;
    }
  }

  /**
   * `process_image` over a list of images for an existing key: each image is read
   * in turn and the first face of each image with a face is appended. The first
   * unreadable image raises, and the caller never reaches its write.
   */
  method AddImages(store: Store, person: string, disk: Disk, paths: seq<Path>, resized: bool)
    returns (r: Result<Store>)
    requires person in store.records
    ensures r == if Readable(disk, paths) then Ok(Extend(store, person, FirstFaces(FacesOf(disk, paths, resized))))
                 else Err(UnreadableImage)
  {
    var acc := store;
    var i := 0;
    ExtendNothing(store, person);
    while i < |paths|
      invariant 0 <= i <= |paths|
      invariant Readable(disk, paths[..i])
      invariant acc == Extend(store, person, FirstFaces(FacesOf(disk, paths[..i], resized)))
    {
      ReadableSnoc(disk, paths, i);
      if paths[i] !in disk.images {
        return Err(UnreadableImage);
      }
      var encoding := FacesIn(disk.images[paths[i]], resized);
      AddImageStep(store, person, disk, paths, i, resized);
      if encoding != [] {
        acc := Extend(acc, person, [encoding[0]]);
      }
      i := i + 1;
    }
    assert paths[..i] == paths;
    r := Ok(acc);
  }

  /** `save`: load, make sure the key exists, add the images, write once at the end. */
  method Save(snapshot: Option<Store>, disk: Disk, person: string,
              image: Option<Path>, folder: Option<Path>, fullpath: bool)
    returns (r: Result<Store>)
    requires snapshot.Some? ==> snapshot.value.Valid()
    ensures r == SaveSpec(snapshot, disk, person, image, folder, fullpath)
  {
    var encodings := EnsureKey(Load(snapshot), person);
    var single := if image.Some? then [image.value] else [];
    var listed := if folder.Some? then Glob(disk, ResolveFolder(folder.value, fullpath, disk.root)) else [];
    assert SaveInputs(disk, image, folder, fullpath) == single + listed;
    ReadableAppend(disk, single, listed);
    var afterImage := AddImages(encodings, person, disk, single, true);
    if afterImage.Err? {
      return afterImage;
    }
    var afterFolder := AddImages(afterImage.value, person, disk, listed, true);
    if afterFolder.Err? {
      return afterFolder;
    }
    FacesOfAppend(disk, single, listed, true);
    FirstFacesAppend(FacesOf(disk, single, true), FacesOf(disk, listed, true));
    ExtendTwice(encodings, person, FirstFaces(FacesOf(disk, single, true)), FirstFaces(FacesOf(disk, listed, true)));
    r := afterFolder;
  }

  /** The dataset directory `train` enumerates (DEFAULT_FACES_PATH). */
  function DatasetPath(disk: Disk): (p: Path) {
    Join(disk.root, Config.DatasetFolder)
  }

  /** Every image of every folder can be read. */
  predicate AllReadable(disk: Disk, folders: seq<Path>) {
    forall i :: 0 <= i < |folders| ==> Readable(disk, Glob(disk, folders[i]))
  }

  /** An identity name with the vectors collected for it. */
  type Entry = (string, seq<Vector>)

  /**
   * `d[name] = vectors` for each entry in turn, starting from an empty dictionary:
   * a later entry with an earlier name replaces its record in place.
   */
  function AssignAll(entries: seq<Entry>): (r: Store)
    ensures |r.order| <= |entries|
    decreases |entries|
  {
    if entries == [] then Empty
    else
      var last := entries[|entries| - 1];
      Assign(AssignAll(entries[..|entries| - 1]), last.0, last.1)
  }

  /** Whatever the entries, the dictionary they build is well formed. */
  lemma {:induction false} AssignAllValid(entries: seq<Entry>)
    ensures AssignAll(entries).Valid()
    decreases |entries|
  {
    if entries != [] {
      var n := |entries| - 1;
      AssignAllValid(entries[..n]);
      AssignValid(AssignAll(entries[..n]), entries[n].0, entries[n].1);
    }
  }

  /** The last entry wins: its name holds its vectors, whatever earlier entries assigned to that name. */
  lemma AssignAllLast(entries: seq<Entry>, name: string, vs: seq<Vector>)
    ensures Lookup(AssignAll(entries + [(name, vs)]), name) == vs
  {
    assert (entries + [(name, vs)])[..|entries|] == entries;
  }

  /** Names are distinct, as the entries of one directory are. */
  predicate DistinctNames(entries: seq<Entry>) {
    forall i, j :: 0 <= i < j < |entries| ==> entries[i].0 != entries[j].0
  }

  /** The entries up to `i + 1` build what the entries up to `i` build, then assign entry `i`. */
  lemma AssignAllStep(entries: seq<Entry>, i: nat)
    requires i < |entries|
    ensures AssignAll(entries[..i + 1]) == Assign(AssignAll(entries[..i]), entries[i].0, entries[i].1)
  {
    assert entries[..i + 1][..i] == entries[..i];
  }

  /** A prefix of distinct names has distinct names. */
  lemma DistinctPrefix(entries: seq<Entry>, n: nat)
    requires DistinctNames(entries) && n <= |entries|
    ensures DistinctNames(entries[..n])
  {
    forall i, j | 0 <= i < j < n
      ensures entries[..n][i].0 != entries[..n][j].0
    {
      assert entries[..n][i] == entries[i] && entries[..n][j] == entries[j];
    }
  }

  /** With distinct names, the store lists the names in entry order. */
  lemma {:induction false} AssignAllOrder(entries: seq<Entry>)
    requires DistinctNames(entries)
    ensures |AssignAll(entries).order| == |entries|
    ensures forall i :: 0 <= i < |entries| ==> AssignAll(entries).order[i] == entries[i].0
    decreases |entries|
  {
    if entries != [] {
      var n := |entries| - 1;
      DistinctPrefix(entries, n);
      AssignAllOrder(entries[..n]);
      AssignAllValid(entries[..n]);
      var prev := AssignAll(entries[..n]);
      assert entries[n].0 !in prev.records by {
        forall i | 0 <= i < n
          ensures prev.order[i] != entries[n].0
        {
          assert prev.order[i] == entries[..n][i].0 == entries[i].0;
        }
      }
      AssignAllStep(entries, n);
      assert entries[..n + 1] == entries;
      forall i | 0 <= i < |entries|
        ensures AssignAll(entries).order[i] == entries[i].0
      {
        if i < n {
          assert entries[..n][i] == entries[i];
        }
      }
    }
  }

  /** With distinct names, each name holds exactly the vectors of its own entry. */
  lemma {:induction false} AssignAllRecords(entries: seq<Entry>)
    requires DistinctNames(entries)
    ensures forall i :: 0 <= i < |entries| ==> Lookup(AssignAll(entries), entries[i].0) == entries[i].1
    decreases |entries|
  {
    if entries != [] {
      var n := |entries| - 1;
      DistinctPrefix(entries, n);
      AssignAllRecords(entries[..n]);
      AssignAllStep(entries, n);
      assert entries[..n + 1] == entries;
      forall i | 0 <= i < |entries|
        ensures Lookup(AssignAll(entries), entries[i].0) == entries[i].1
      {
        if i < n {
          assert entries[..n][i] == entries[i];
          assert entries[i].0 != entries[n].0;
        }
      }
    }
  }

  /** One entry per dataset folder: its name and the first face of each of its images. */
  function TrainEntries(disk: Disk, folders: seq<Path>): (e: seq<Entry>)
    ensures |e| == |folders|
    ensures forall i :: 0 <= i < |folders| ==> e[i].0 == Name(folders[i])
  {
    seq(|folders|, i requires 0 <= i < |folders| =>
      (Name(folders[i]), FirstFaces(FacesOf(disk, Glob(disk, folders[i]), false))))
  }

  /**
   * `train` (modules/utils.py:89-110) as the store it writes, or its exception:
   * for each folder in turn `known_faces[folder.name]` is reset to [] and then
   * receives the first face of each of its images. The store that was on disk
   * before plays no part.
   */
  function TrainSpec(disk: Disk): (r: Result<Store>)
    ensures r.Err? <==> !AllReadable(disk, Glob(disk, DatasetPath(disk)))
    ensures r.Ok? ==> r.value.Valid()
  {
    var folders := Glob(disk, DatasetPath(disk));
    if AllReadable(disk, folders) then
      AssignAllValid(TrainEntries(disk, folders));
      Ok(AssignAll(TrainEntries(disk, folders)))
    else Err(UnreadableImage)
  }

  /**
   * With distinct folder names the trained store has one identity per folder, in
   * listing order, holding the first face of each image of that folder.
   */
  lemma TrainRecords(disk: Disk)
    requires TrainSpec(disk).Ok?
    requires DistinctNames(TrainEntries(disk, Glob(disk, DatasetPath(disk))))
    ensures var folders := Glob(disk, DatasetPath(disk));
      |TrainSpec(disk).value.order| == |folders| &&
      forall i :: 0 <= i < |folders| ==>
        TrainSpec(disk).value.order[i] == Name(folders[i]) &&
        Lookup(TrainSpec(disk).value, Name(folders[i])) == FirstFaces(FacesOf(disk, Glob(disk, folders[i]), false))
  {
    var entries := TrainEntries(disk, Glob(disk, DatasetPath(disk)));
    AssignAllOrder(entries);
    AssignAllRecords(entries);
  }

  /** A folder in which no image shows a face becomes an identity with no vectors. */
  lemma TrainFaceLessFolder(disk: Disk, i: nat)
    requires TrainSpec(disk).Ok?
    requires DistinctNames(TrainEntries(disk, Glob(disk, DatasetPath(disk))))
    requires i < |Glob(disk, DatasetPath(disk))|
    requires var f := Glob(disk, DatasetPath(disk))[i];
      forall j :: 0 <= j < |Glob(disk, f)| ==> FacesOf(disk, Glob(disk, f), false)[j] == []
    ensures var f := Glob(disk, DatasetPath(disk))[i];
      Name(f) in TrainSpec(disk).value.records && TrainSpec(disk).value.records[Name(f)] == []
  {
    var f := Glob(disk, DatasetPath(disk))[i];
    TrainRecords(disk);
    FirstFacesNone(FacesOf(disk, Glob(disk, f), false));
  }

  /** The folders up to `i + 1` are all readable when those up to `i` are and folder `i` is; and a folder that is not makes the whole list unreadable. */
  lemma AllReadableSnoc(disk: Disk, folders: seq<Path>, i: nat)
    requires i < |folders|
    ensures AllReadable(disk, folders[..i + 1]) <==> AllReadable(disk, folders[..i]) && Readable(disk, Glob(disk, folders[i]))
    ensures !Readable(disk, Glob(disk, folders[i])) ==> !AllReadable(disk, folders)
  {
    assert folders[..i + 1][i] == folders[i];
    assert forall j :: 0 <= j < i ==> folders[..i + 1][j] == folders[..i][j];
  }

  /** One folder of the training loop: reset its name, then append its images' first faces. */
  lemma TrainStep(disk: Disk, folders: seq<Path>, i: nat)
    requires i < |folders|
    ensures var entries := TrainEntries(disk, folders);
      var prev := AssignAll(entries[..i]);
      Extend(Assign(prev, Name(folders[i]), []), Name(folders[i]), FirstFaces(FacesOf(disk, Glob(disk, folders[i]), false)))
      == AssignAll(entries[..i + 1])
  {
    var entries := TrainEntries(disk, folders);
    AssignAllStep(entries, i);
    ResetThenExtend(AssignAll(entries[..i]), entries[i].0, entries[i].1);
  }

  /** `train`: a fresh dictionary, one reset and one pass of appends per folder, one write. */
  method Train(disk: Disk) returns (r: Result<Store>)
    ensures r == TrainSpec(disk)
  {
    var folders := Glob(disk, DatasetPath(disk));
    ghost var entries := TrainEntries(disk, folders);
    var knownFaces := Empty;
    var i := 0;
    while i < |folders|
      invariant 0 <= i <= |folders|
      invariant AllReadable(disk, folders[..i])
      invariant knownFaces == AssignAll(entries[..i])
    {
      var name := Name(folders[i]);
      knownFaces := Assign(knownFaces, name, []);
      var added := AddImages(knownFaces, name, disk, Glob(disk, folders[i]), false);
      AllReadableSnoc(disk, folders, i);
      if added.Err? {
        return Err(UnreadableImage);
      }
      TrainStep(disk, folders, i);
      knownFaces := added.value;
      i := i + 1;
    }
    assert entries[..i] == entries && folders[..i] == folders;
    r := Ok(knownFaces);
  }

  /** What the encodings of a list of images concatenate to, in image order. */
  function Flatten(images: seq<Faces>): (r: seq<Vector>)
    ensures r == [] <==> forall i :: 0 <= i < |images| ==> images[i] == []
    decreases |images|
  {
    if images == [] then [] else images[0] + Flatten(images[1..])
  }

  lemma {:induction false} FlattenAppend(a: seq<Faces>, b: seq<Faces>)
    ensures Flatten(a + b) == Flatten(a) + Flatten(b)
    decreases |a|
  {
    if a == [] {
      assert a + b == b;
    } else {
      assert (a + b)[1..] == a[1..] + b;
      FlattenAppend(a[1..], b);
    }
  }

  lemma FlattenSnoc(disk: Disk, paths: seq<Path>, i: nat)
    requires i < |paths|
    ensures Flatten(FacesOf(disk, paths[..i + 1], false)) ==
      Flatten(FacesOf(disk, paths[..i], false)) + FacesOf(disk, paths, false)[i]
  {
    var enc := FacesOf(disk, paths, false)[i];
    assert FacesOf(disk, paths[..i + 1], false) == FacesOf(disk, paths[..i], false) + [enc];
    FlattenAppend(FacesOf(disk, paths[..i], false), [enc]);
    assert [enc][1..] == [];
    assert enc + [] == enc;
  }

  /**
   * The folder branch of `recognize` (main.py:46-53): the encodings of every listed
   * image, extended onto one list in listing order; the first unreadable image raises.
   */
  method CollectEncodings(disk: Disk, paths: seq<Path>) returns (r: Result<seq<Vector>>)
    ensures r == if Readable(disk, paths) then Ok(Flatten(FacesOf(disk, paths, false))) else Err(UnreadableImage)
  {
    var unknownEncodings: seq<Vector> := [];
    var i := 0;
    while i < |paths|
      invariant 0 <= i <= |paths|
      invariant Readable(disk, paths[..i])
      invariant unknownEncodings == Flatten(FacesOf(disk, paths[..i], false))
    {
      ReadableSnoc(disk, paths, i);
      if paths[i] !in disk.images {
        return Err(UnreadableImage);
      }
      var encodings := disk.images[paths[i]].faces;
      FlattenSnoc(disk, paths, i);
      unknownEncodings := unknownEncodings + encodings;
      i := i + 1;
    }
    assert paths[..i] == paths;
    r := Ok(unknownEncodings);
  }
}
