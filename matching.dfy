/**
 * The matching engine of modules/utils.py (`recognize_face` and its inner
 * `compare_encodings`): one majority vote per identity over the per-vector
 * "same person" verdicts, then the first identity, in store order, whose vote
 * is true.
 *
 * The distance-threshold comparison of the vision library is the parameter
 * `same(known, unknown)`, about which the model knows nothing.
 */
module Matching {
  import opened Wrappers
  import opened EncodingStore
  import opened Paths

  /** The label given to a face that matches no identity. */
  const Unknown: string := "Unknown"

  /** `face_recognition.compare_faces` for one known and one unknown encoding. */
  type SamePerson = (Vector, Vector) -> bool

  /** How many times `x` occurs in `s` (the count a `Counter` keeps for `x`). */
  function Count<T(==)>(s: seq<T>, x: T): (n: nat)
    ensures n <= |s|
    ensures n > 0 <==> x in s
    decreases |s|
  {
    if s == [] then 0 else (if s[0] == x then 1 else 0) + Count(s[1..], x)
  }

  /** Every boolean is counted as either true or false. */
  lemma {:induction false} CountBoth(s: seq<bool>)
    ensures Count(s, true) + Count(s, false) == |s|
    decreases |s|
  {
    if s != [] {
      CountBoth(s[1..]);
      assert Count(s, s[0]) == 1 + Count(s[1..], s[0]);
      assert Count(s, !s[0]) == Count(s[1..], !s[0]);
    }
  }

  /**
   * The scan behind `most_common(1)`: `best` is the position of the leader so far
   * among `s[..i]`; a later element takes the lead only with a strictly greater
   * count, so among equal counts the earliest inserted value stays in front.
   */
  function LeaderFrom<T(==)>(s: seq<T>, i: nat, best: nat): (k: nat)
    requires best < i <= |s|
    requires forall j :: 0 <= j < i ==> Count(s, s[j]) <= Count(s, s[best])
    requires forall j :: 0 <= j < best ==> Count(s, s[j]) < Count(s, s[best])
    ensures k < |s|
    ensures forall j :: 0 <= j < |s| ==> Count(s, s[j]) <= Count(s, s[k])
    ensures forall j :: 0 <= j < k ==> Count(s, s[j]) < Count(s, s[k])
    decreases |s| - i
  {
    if i == |s| then best
    else if Count(s, s[i]) > Count(s, s[best]) then LeaderFrom(s, i + 1, i)
    else LeaderFrom(s, i + 1, best)
  }

  /**
   * `Counter(s).most_common(1)[0][0]`: nothing for an empty sequence (the index
   * raises); otherwise a value with the highest count and, among the values with
   * that count, the one inserted first.
   */
  function MostCommon<T(==)>(s: seq<T>): (r: Option<T>)
    ensures r.None? <==> s == []
    ensures r.Some? ==> r.value in s && forall x :: x in s ==> Count(s, x) <= Count(s, r.value)
    ensures r.Some? ==> exists k :: 0 <= k < |s| && s[k] == r.value &&
                          forall j :: 0 <= j < k ==> Count(s, s[j]) < Count(s, s[k])
  {
    if s == [] then None
    else
      var k := LeaderFrom(s, 1, 0);
      Some(s[k])
  }

  /** The verdicts of `compare_faces(known, unknown)`, one per stored vector, in order. */
  function Verdicts(same: SamePerson, known: seq<Vector>, unknown: Vector): (vs: seq<bool>)
    ensures |vs| == |known|
  {
    seq(|known|, i requires 0 <= i < |known| => same(known[i], unknown))
  }

  /**
   * `compare_encodings` (modules/utils.py:197-200): the identity's aggregate verdict,
   * the most common of its per-vector verdicts. It fails on an identity with no
   * vectors, since `most_common(1)` is then empty.
   */
  function CompareEncodings(same: SamePerson, known: seq<Vector>, unknown: Vector): (r: Result<bool>)
    ensures r.Err? <==> known == []
    ensures r.Err? ==> r.error == EmptyRecord
    ensures r.Ok? ==> r.value in Verdicts(same, known, unknown)
  {
    match MostCommon(Verdicts(same, known, unknown))
    case None => Err(EmptyRecord)
    case Some(b) => Ok(b)
  }

  /**
   * The aggregate verdict is a majority verdict; when the votes are split evenly
   * it is the verdict of the first stored vector.
   */
  lemma CompareEncodingsIsMajority(same: SamePerson, known: seq<Vector>, unknown: Vector)
    requires known != []
    ensures var vs := Verdicts(same, known, unknown);
      var b := CompareEncodings(same, known, unknown).value;
      Count(vs, b) >= Count(vs, !b) && (Count(vs, true) == Count(vs, false) ==> b == vs[0])
  {
    var vs := Verdicts(same, known, unknown);
    var b := CompareEncodings(same, known, unknown).value;
    assert MostCommon(vs) == Some(b);
    if !b in vs {
      assert Count(vs, !b) <= Count(vs, b);
    }
    if Count(vs, true) == Count(vs, false) {
      var k :| 0 <= k < |vs| && vs[k] == b && forall j :: 0 <= j < k ==> Count(vs, vs[j]) < Count(vs, vs[k]);
      assert k == 0;
    }
  }

  /** A strict majority decides the aggregate verdict, whatever the order of the vectors. */
  lemma MajorityDecides(same: SamePerson, known: seq<Vector>, unknown: Vector, b: bool)
    requires Count(Verdicts(same, known, unknown), b) > Count(Verdicts(same, known, unknown), !b)
    ensures CompareEncodings(same, known, unknown) == Ok(b)
  {
    CompareEncodingsIsMajority(same, known, unknown);
  }

  /** Two vectors, one match and one non-match: the first vector's verdict wins the tie. */
  lemma TieTakesFirstVerdict(same: SamePerson, v1: Vector, v2: Vector, unknown: Vector)
    requires same(v1, unknown) != same(v2, unknown)
    ensures CompareEncodings(same, [v1, v2], unknown) == Ok(same(v1, unknown))
  {
    var vs := Verdicts(same, [v1, v2], unknown);
    assert vs == [same(v1, unknown), same(v2, unknown)];
    CountBoth(vs);
    CompareEncodingsIsMajority(same, [v1, v2], unknown);
    assert Count(vs, true) == 1 by {
      assert vs[1..][1..] == [];
    }
  }

  /** The record of `name` votes "same person" (never for a name without vectors, nor one not in the store). */
  predicate Matches(same: SamePerson, store: Store, name: string, unknown: Vector) {
    CompareEncodings(same, Lookup(store, name), unknown) == Ok(true)
  }

  /** Some identity of the store has no vectors, so its vote raises. */
  predicate HasEmptyRecord(store: Store) {
    exists i :: 0 <= i < |store.order| && Lookup(store, store.order[i]) == []
  }

  /** The scan of modules/utils.py:211-215 over `names`: the first name that matches, or Unknown. */
  function FirstMatch(same: SamePerson, store: Store, names: seq<string>, unknown: Vector): (found: string)
    ensures found == Unknown || found in names
    decreases |names|
  {
    if names == [] then Unknown
    else if Matches(same, store, names[0], unknown) then names[0]
    else FirstMatch(same, store, names[1..], unknown)
  }

  /**
   * `recognize_face` (modules/utils.py:190-215). Every identity is voted on before
   * the scan starts, so one identity with no vectors makes the whole call raise,
   * whichever identity would have matched; otherwise the label is one store
   * identity or Unknown.
   */
  function Recognize(same: SamePerson, store: Store, unknown: Vector): (r: Result<string>)
    ensures r.Err? <==> HasEmptyRecord(store)
    ensures r.Ok? ==> r.value == Unknown || r.value in store.order
  {
    if HasEmptyRecord(store) then Err(EmptyRecord) else Ok(FirstMatch(same, store, store.order, unknown))
  }

  /**
   * The label is the first name, in order, whose vote is true; when no vote is
   * true the label is Unknown.
   */
  lemma {:induction false} FirstMatchIsFirst(same: SamePerson, store: Store, names: seq<string>, unknown: Vector)
    ensures (forall i :: 0 <= i < |names| ==> !Matches(same, store, names[i], unknown)) ==>
              FirstMatch(same, store, names, unknown) == Unknown
    ensures forall i | 0 <= i < |names| && Matches(same, store, names[i], unknown) &&
                       (forall j :: 0 <= j < i ==> !Matches(same, store, names[j], unknown)) ::
              FirstMatch(same, store, names, unknown) == names[i]
    decreases |names|
  {
    if names != [] {
      FirstMatchIsFirst(same, store, names[1..], unknown);
      forall i | 0 <= i < |names| && Matches(same, store, names[i], unknown) &&
                 (forall j :: 0 <= j < i ==> !Matches(same, store, names[j], unknown))
        ensures FirstMatch(same, store, names, unknown) == names[i]
      {
        if i > 0 {
          assert !Matches(same, store, names[0], unknown);
          assert forall j :: 0 <= j < i - 1 ==> names[1..][j] == names[j + 1];
        }
      }
    }
  }

  /** The label is the first identity in store order whose vote is true, else Unknown. */
  lemma RecognizeFirstIdentity(same: SamePerson, store: Store, unknown: Vector, i: nat)
    requires !HasEmptyRecord(store)
    requires i < |store.order| && Matches(same, store, store.order[i], unknown)
    requires forall j :: 0 <= j < i ==> !Matches(same, store, store.order[j], unknown)
    ensures Recognize(same, store, unknown) == Ok(store.order[i])
  {
    FirstMatchIsFirst(same, store, store.order, unknown);
  }

  /** With no identity voting true (including an empty store) the label is Unknown. */
  lemma RecognizeNoMatch(same: SamePerson, store: Store, unknown: Vector)
    requires !HasEmptyRecord(store)
    requires forall j :: 0 <= j < |store.order| ==> !Matches(same, store, store.order[j], unknown)
    ensures Recognize(same, store, unknown) == Ok(Unknown)
  {
    FirstMatchIsFirst(same, store, store.order, unknown);
  }

  /**
   * The result names a matching identity: a returned identity's vote was true, and
   * so was no earlier identity's.
   */
  lemma {:induction false} FirstMatchFound(same: SamePerson, store: Store, names: seq<string>, unknown: Vector)
    requires FirstMatch(same, store, names, unknown) != Unknown
    ensures exists i :: 0 <= i < |names| && names[i] == FirstMatch(same, store, names, unknown) &&
              Matches(same, store, names[i], unknown) &&
              forall j :: 0 <= j < i ==> !Matches(same, store, names[j], unknown)
    decreases |names|
  {
    var found := FirstMatch(same, store, names, unknown);
    if Matches(same, store, names[0], unknown) {
      assert names[0] == found;
    } else {
      var tail := names[1..];
      assert found == FirstMatch(same, store, tail, unknown);
      FirstMatchFound(same, store, tail, unknown);
      var i :| 0 <= i < |tail| && tail[i] == found && Matches(same, store, tail[i], unknown) &&
                forall j :: 0 <= j < i ==> !Matches(same, store, tail[j], unknown);
      forall j | 0 <= j < i + 1
        ensures !Matches(same, store, names[j], unknown)
      {
        if j > 0 {
          assert names[j] == tail[j - 1];
        }
      }
      assert names[i + 1] == tail[i];
    }
  }

  /**
   * A store holding an identity with no vectors (from `train` on a folder without
   * faces, or from `save` on images without faces) makes every recognition fail.
   */
  lemma EmptyRecordBreaksRecognition(same: SamePerson, store: Store, name: string, unknown: Vector)
    requires store.Valid() && name in store.records && store.records[name] == []
    ensures Recognize(same, store, unknown) == Err(EmptyRecord)
  {
    var i :| 0 <= i < |store.order| && store.order[i] == name;
  }

  /**
   * `save` of a new person from images in which no face is found leaves a store
   * in which every recognition fails.
   */
  lemma FaceLessSaveBreaksRecognition(same: SamePerson, snapshot: Option<Store>, disk: Disk, person: string,
                                      image: Option<Path>, folder: Option<Path>, fullpath: bool, unknown: Vector)
    requires snapshot.Some? ==> snapshot.value.Valid()
    requires person !in Load(snapshot).records
    requires Readable(disk, SaveInputs(disk, image, folder, fullpath))
    requires forall i :: 0 <= i < |FacesOf(disk, SaveInputs(disk, image, folder, fullpath), true)| ==>
               FacesOf(disk, SaveInputs(disk, image, folder, fullpath), true)[i] == []
    ensures SaveSpec(snapshot, disk, person, image, folder, fullpath).Ok?
    ensures Recognize(same, SaveSpec(snapshot, disk, person, image, folder, fullpath).value, unknown) == Err(EmptyRecord)
  {
    SaveWithoutFacesCreatesEmptyRecord(snapshot, disk, person, image, folder, fullpath);
    EmptyRecordBreaksRecognition(same, SaveSpec(snapshot, disk, person, image, folder, fullpath).value, person, unknown);
  }

  /**
   * The gathered tasks of `recognize_face` (modules/utils.py:203-209): one vote per
   * identity, in store order; the first identity without vectors raises.
   */
  method GatherVotes(same: SamePerson, store: Store, unknown: Vector) returns (r: Result<seq<bool>>)
    ensures r.Err? <==> HasEmptyRecord(store)
    ensures r.Err? ==> r.error == EmptyRecord
    ensures r.Ok? ==> |r.value| == |store.order|
    ensures r.Ok? ==> forall j :: 0 <= j < |store.order| ==> r.value[j] == Matches(same, store, store.order[j], unknown)
  {
    var results: seq<bool> := [];
    var i := 0;
    while i < |store.order|
      invariant 0 <= i <= |store.order| && |results| == i
      invariant forall j :: 0 <= j < i ==> Lookup(store, store.order[j]) != []
      invariant forall j :: 0 <= j < i ==> results[j] == Matches(same, store, store.order[j], unknown)
    {
      var vote := CompareEncodings(same, Lookup(store, store.order[i]), unknown);
      if vote.Err? {
        return Err(vote.error);
      }
      results := results + [vote.value];
      i := i + 1;
    }
    r := Ok(results);
  }

  /**
   * `recognize_face` step by step: the gathered votes, then the scan that returns
   * the first identity whose vote is true (modules/utils.py:211-215).
   */
  method RecognizeFace(same: SamePerson, store: Store, unknown: Vector) returns (r: Result<string>)
    ensures r == Recognize(same, store, unknown)
  {
    var votes := GatherVotes(same, store, unknown);
    if votes.Err? {
      return Err(votes.error);
    }
    var results := votes.value;
    var i := 0;
    while i < |results|
      invariant 0 <= i <= |results|
      invariant FirstMatch(same, store, store.order, unknown) == FirstMatch(same, store, store.order[i..], unknown)
    {
      if results[i] {
        return Ok(store.order[i]);
      }
      assert store.order[i..][1..] == store.order[i + 1..];
      i := i + 1;
    }
    r := Ok(Unknown);
  }
}
