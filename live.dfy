/**
 * The real-time loop `process_video_stream` (modules/utils.py:18-76): every face
 * of every frame is labelled by `recognize_face`, and an alert (a photo sent to
 * the chat) is raised for an unknown face unless one was already raised and the
 * state has not re-armed since.
 *
 * The clock is the minute of the hour read when a face is handled, so it is
 * part of each face here. Camera frames, the key press and the face detector's
 * output are inputs; drawing, the window and the chat transport are not modelled.
 */
module LiveLoop {
  import opened Wrappers
  import opened EncodingStore
  import opened Matching
  import Config

  /**
   * The two variables of the loop: `target` (armed: the next unknown face raises
   * an alert) and `recent_time` (the minute of the last re-arm, or of the start).
   */
  datatype Dedup = Dedup(armed: bool, recentTime: int)

  /** A face found in a frame, with the minute of the hour at which it is handled. */
  datatype Face = Face(encoding: Vector, minute: int)

  /** One camera frame: its faces in detector order, and whether `q` was pressed after it. */
  datatype Frame = Frame(faces: seq<Face>, quit: bool)

  /** The state is disarmed and stays so at `now`, because the window has not yet passed. */
  predicate WithinWindow(s: Dedup, now: int, timeout: int) {
    !s.armed && now - s.recentTime <= timeout
  }

  /**
   * The handling of one labelled face (modules/utils.py:44-53): first the re-arm
   * check (disarmed and strictly more than `timeout` minutes since `recent_time`,
   * which then becomes `now`), then the alert for an unknown face while armed,
   * which disarms but leaves `recent_time` alone. The second component is
   * whether an alert is sent.
   */
  function Step(s: Dedup, name: string, now: int, timeout: int): (r: (Dedup, bool))
    ensures r.1 ==> name == Unknown && !r.0.armed
    ensures name == Unknown && !WithinWindow(s, now, timeout) ==> r.1
    ensures WithinWindow(s, now, timeout) ==> r == (s, false)
    ensures name != Unknown ==> !r.1 && r.0.armed == !WithinWindow(s, now, timeout)
    ensures r.0.recentTime == if !s.armed && now - s.recentTime > timeout then now else s.recentTime
  {
    var rearm := !s.armed && now - s.recentTime > timeout;
    var s1 := if rearm then Dedup(true, now) else s;
    if name == Unknown && s1.armed then (s1.(armed := false), true) else (s1, false)
  }

  /** What one frame's faces do: the labels, the alerts, the new state, and the failure if one occurred. */
  datatype FrameOutcome = FrameOutcome(state: Dedup, names: seq<string>, alerts: seq<bool>, error: Option<Error>)

  /** The outcome of the faces before `o`, followed by `o`. */
  function After(names: seq<string>, alerts: seq<bool>, o: FrameOutcome): (r: FrameOutcome) {
    o.(names := names + o.names, alerts := alerts + o.alerts)
  }

  /**
   * The inner loop over one frame's faces (modules/utils.py:41-55), face by face
   * in detector order. `recognize_face` fails exactly when the store holds an
   * identity without vectors, so a frame with faces then fails at its first face
   * and leaves the state alone; a frame without faces never consults the store.
   */
  function FrameSpec(same: SamePerson, store: Store, timeout: int, s: Dedup, faces: seq<Face>): (o: FrameOutcome)
    ensures |o.names| == |o.alerts|
    ensures o.error.Some? <==> faces != [] && HasEmptyRecord(store)
    ensures o.error.Some? ==> o == FrameOutcome(s, [], [], Some(EmptyRecord))
    ensures o.error.None? ==> |o.names| == |faces|
    ensures o.error.None? ==> forall i :: 0 <= i < |faces| ==>
              Recognize(same, store, faces[i].encoding) == Ok(o.names[i])
    ensures forall i :: 0 <= i < |o.alerts| && o.alerts[i] ==> o.names[i] == Unknown
    decreases |faces|
  {
    if faces == [] then FrameOutcome(s, [], [], None)
    else match Recognize(same, store, faces[0].encoding)
      case Err(e) => FrameOutcome(s, [], [], Some(e))
      case Ok(name) =>
        var step := Step(s, name, faces[0].minute, timeout);
        After([name], [step.1], FrameSpec(same, store, timeout, step.0, faces[1..]))
  }

  /** The first face of a frame, once recognised as `name`, is handled before the rest. */
  lemma FrameSpecStep(same: SamePerson, store: Store, timeout: int, s: Dedup, faces: seq<Face>, name: string)
    requires faces != [] && Recognize(same, store, faces[0].encoding) == Ok(name)
    ensures FrameSpec(same, store, timeout, s, faces)
         == After([name], [Step(s, name, faces[0].minute, timeout).1],
                  FrameSpec(same, store, timeout, Step(s, name, faces[0].minute, timeout).0, faces[1..]))
  {
  }

  /** The loop's step over face `i`: its label and alert move from the remaining faces to the handled ones. */
  lemma AdvanceFace(same: SamePerson, store: Store, timeout: int, s: Dedup, faces: seq<Face>, i: nat,
                    names: seq<string>, alerts: seq<bool>, name: string)
    requires i < |faces| && Recognize(same, store, faces[i].encoding) == Ok(name)
    ensures var step := Step(s, name, faces[i].minute, timeout);
      After(names, alerts, FrameSpec(same, store, timeout, s, faces[i..]))
      == After(names + [name], alerts + [step.1], FrameSpec(same, store, timeout, step.0, faces[i + 1..]))
  {
    var step := Step(s, name, faces[i].minute, timeout);
    FrameSpecStep(same, store, timeout, s, faces[i..], name);
    assert faces[i..][1..] == faces[i + 1..];
    AfterAfter(names, alerts, name, step.1, FrameSpec(same, store, timeout, step.0, faces[i + 1..]));
  }

  /** A face whose recognition fails ends the frame there, with the state as it was. */
  lemma FailAtFace(same: SamePerson, store: Store, timeout: int, s: Dedup, faces: seq<Face>, i: nat,
                   names: seq<string>, alerts: seq<bool>)
    requires i < |faces| && Recognize(same, store, faces[i].encoding).Err?
    ensures After(names, alerts, FrameSpec(same, store, timeout, s, faces[i..]))
            == FrameOutcome(s, names, alerts, Some(Recognize(same, store, faces[i].encoding).error))
  {
    assert names + [] == names && alerts + [] == alerts;
  }

  /** Prefixing the outcome of some faces twice is prefixing it once with both. */
  lemma AfterAfter(names: seq<string>, alerts: seq<bool>, name: string, alert: bool, o: FrameOutcome)
    ensures After(names, alerts, After([name], [alert], o)) == After(names + [name], alerts + [alert], o)
  {
    assert names + ([name] + o.names) == names + [name] + o.names;
    assert alerts + ([alert] + o.alerts) == alerts + [alert] + o.alerts;
  }

  /** How the loop ends: the camera stops delivering frames, `q` is pressed, or a face's recognition raises. */
  datatype Ending = CameraEnded | QuitPressed | Crashed(error: Error)

  /** The alerts sent over the whole loop, in order, the final state and how the loop ended. */
  datatype StreamOutcome = StreamOutcome(state: Dedup, alerts: seq<bool>, ending: Ending)

  /**
   * The outer loop (modules/utils.py:27-69): frame after frame until the camera
   * ends, a face fails to be recognised (the exception leaves the loop), or `q`
   * is pressed after a frame has been handled.
   */
  function StreamSpec(same: SamePerson, store: Store, timeout: int, s: Dedup, frames: seq<Frame>): (o: StreamOutcome)
    ensures o.ending.Crashed? ==> o.ending.error == EmptyRecord && HasEmptyRecord(store)
    ensures o.ending == CameraEnded ==> forall i :: 0 <= i < |frames| ==> !frames[i].quit
    ensures !HasEmptyRecord(store) && (forall i :: 0 <= i < |frames| ==> !frames[i].quit) ==> o.ending == CameraEnded
    decreases |frames|
  {
    if frames == [] then StreamOutcome(s, [], CameraEnded)
    else
      var f := FrameSpec(same, store, timeout, s, frames[0].faces);
      if f.error.Some? then StreamOutcome(f.state, f.alerts, Crashed(f.error.value))
      else if frames[0].quit then StreamOutcome(f.state, f.alerts, QuitPressed)
      else
        var rest := StreamSpec(same, store, timeout, f.state, frames[1..]);
        rest.(alerts := f.alerts + rest.alerts)
  }

  /** The outcome of the frames after some alerts were already sent. */
  function Resume(alerts: seq<bool>, o: StreamOutcome): (r: StreamOutcome) {
    o.(alerts := alerts + o.alerts)
  }

  /** The first frame is handled before the rest, and the rest only when it neither failed nor quit. */
  lemma StreamSpecStep(same: SamePerson, store: Store, timeout: int, s: Dedup, frames: seq<Frame>)
    requires frames != []
    ensures var f := FrameSpec(same, store, timeout, s, frames[0].faces);
      StreamSpec(same, store, timeout, s, frames)
      == if f.error.Some? then StreamOutcome(f.state, f.alerts, Crashed(f.error.value))
         else if frames[0].quit then StreamOutcome(f.state, f.alerts, QuitPressed)
         else Resume(f.alerts, StreamSpec(same, store, timeout, f.state, frames[1..]))
  {
  }

  /** Resuming twice is resuming once after both runs of alerts. */
  lemma ResumeResume(a: seq<bool>, b: seq<bool>, o: StreamOutcome)
    ensures Resume(a, Resume(b, o)) == Resume(a + b, o)
  {
    assert a + (b + o.alerts) == a + b + o.alerts;
  }

  /** Frames in which no face is found change nothing and send nothing. */
  lemma {:induction false} FaceLessFramesChangeNothing(same: SamePerson, store: Store, timeout: int, s: Dedup, frames: seq<Frame>)
    requires forall i :: 0 <= i < |frames| ==> frames[i].faces == []
    ensures StreamSpec(same, store, timeout, s, frames).state == s
    ensures StreamSpec(same, store, timeout, s, frames).alerts == []
    decreases |frames|
  {
    if frames != [] && !frames[0].quit {
      FaceLessFramesChangeNothing(same, store, timeout, s, frames[1..]);
    }
  }

  /**
   * With an identity that has no vectors, the loop crashes at the first frame
   * with a face, provided no earlier frame was quit.
   */
  lemma {:induction false} CrashAtFirstFace(same: SamePerson, store: Store, timeout: int, s: Dedup, frames: seq<Frame>, k: nat)
    requires HasEmptyRecord(store)
    requires k < |frames| && frames[k].faces != []
    requires forall j :: 0 <= j < k ==> frames[j].faces == [] && !frames[j].quit
    ensures StreamSpec(same, store, timeout, s, frames).ending == Crashed(EmptyRecord)
    decreases k
  {
    if k > 0 {
      assert frames[0].faces == [] && !frames[0].quit;
      CrashAtFirstFace(same, store, timeout, s, frames[1..], k - 1);
    }
  }

  /** Every face of `frames` is handled no later than `minute`. */
  predicate HandledBy(frames: seq<Frame>, minute: int) {
    forall i, j :: 0 <= i < |frames| && 0 <= j < |frames[i].faces| ==> frames[i].faces[j].minute <= minute
  }

  /** Once disarmed, no face before the window has passed changes the state, and none raises an alert. */
  lemma {:induction false} QuietFrame(same: SamePerson, store: Store, timeout: int, s: Dedup, faces: seq<Face>)
    requires !s.armed
    requires forall j :: 0 <= j < |faces| ==> faces[j].minute <= s.recentTime + timeout
    ensures FrameSpec(same, store, timeout, s, faces).state == s
    ensures forall a :: a in FrameSpec(same, store, timeout, s, faces).alerts ==> !a
    decreases |faces|
  {
    if faces != [] && !HasEmptyRecord(store) {
      QuietFrame(same, store, timeout, s, faces[1..]);
    }
  }

  /**
   * At most one alert per disarmed window: from a disarmed state, no alert is sent
   * and the state stays as it is while every face is handled within `timeout`
   * minutes of the last re-arm.
   */
  lemma {:induction false} QuietWindow(same: SamePerson, store: Store, timeout: int, s: Dedup, frames: seq<Frame>)
    requires !s.armed && HandledBy(frames, s.recentTime + timeout)
    ensures StreamSpec(same, store, timeout, s, frames).state == s
    ensures forall a :: a in StreamSpec(same, store, timeout, s, frames).alerts ==> !a
    decreases |frames|
  {
    if frames != [] {
      QuietFrame(same, store, timeout, s, frames[0].faces);
      if FrameSpec(same, store, timeout, s, frames[0].faces).error.None? && !frames[0].quit {
        QuietWindow(same, store, timeout, s, frames[1..]);
      }
    }
  }

  /** Every face is handled at a minute of the hour, as `datetime.now().minute` reads it. */
  predicate MinutesOfHour(frames: seq<Frame>) {
    forall i, j :: 0 <= i < |frames| && 0 <= j < |frames[i].faces| ==> 0 <= frames[i].faces[j].minute <= 59
  }

  /**
   * The clock is the minute of the hour, so a state disarmed when the last re-arm
   * was at minute 59 - timeout or later never re-arms again: the loop sends no
   * further alert however long it runs.
   */
  lemma LateDisarmNeverRearms(same: SamePerson, store: Store, s: Dedup, frames: seq<Frame>)
    requires !s.armed && s.recentTime >= 59 - Config.UnknownTimeout && MinutesOfHour(frames)
    ensures StreamSpec(same, store, Config.UnknownTimeout, s, frames).state == s
    ensures forall a :: a in StreamSpec(same, store, Config.UnknownTimeout, s, frames).alerts ==> !a
  {
    QuietWindow(same, store, Config.UnknownTimeout, s, frames);
  }

  /**
   * With an empty store every face is unknown. Started at minute 10, unknown faces
   * at minutes 10, 10 and 12: the first raises an alert, the second is within the
   * window, and the third comes after the re-arm.
   */
  lemma AlertOncePerWindow(same: SamePerson, u: Vector)
    ensures StreamSpec(same, Empty, Config.UnknownTimeout, Dedup(true, 10),
              [Frame([Face(u, 10)], false), Frame([Face(u, 10)], false), Frame([Face(u, 12)], false)])
            == StreamOutcome(Dedup(false, 12), [true, false, true], CameraEnded)
  {
    var frames := [Frame([Face(u, 10)], false), Frame([Face(u, 10)], false), Frame([Face(u, 12)], false)];
    assert Recognize(same, Empty, u) == Ok(Unknown);
    var s1, s2, s3 := Dedup(false, 10), Dedup(false, 10), Dedup(false, 12);
    assert FrameSpec(same, Empty, Config.UnknownTimeout, Dedup(true, 10), frames[0].faces)
        == FrameOutcome(s1, [Unknown], [true], None);
    assert FrameSpec(same, Empty, Config.UnknownTimeout, s1, frames[1].faces)
        == FrameOutcome(s2, [Unknown], [false], None);
    assert FrameSpec(same, Empty, Config.UnknownTimeout, s2, frames[2].faces)
        == FrameOutcome(s3, [Unknown], [true], None);
    assert frames[1..][1..][1..] == [];
    assert StreamSpec(same, Empty, Config.UnknownTimeout, s3, frames[1..][1..][1..]) == StreamOutcome(s3, [], CameraEnded);
    assert StreamSpec(same, Empty, Config.UnknownTimeout, s2, frames[1..][1..]) == StreamOutcome(s3, [true], CameraEnded);
    assert StreamSpec(same, Empty, Config.UnknownTimeout, s1, frames[1..]) == StreamOutcome(s3, [false, true], CameraEnded);
  }

  /**
   * `recent_time` is not moved when an alert is sent, so the window is measured
   * from the start or the last re-arm. Started at minute 5, two unknown faces at
   * minute 10 raise two alerts in the same minute.
   */
  lemma AlertWindowStartsAtRearm(same: SamePerson, u: Vector)
    ensures StreamSpec(same, Empty, Config.UnknownTimeout, Dedup(true, 5),
              [Frame([Face(u, 10), Face(u, 10)], false)])
            == StreamOutcome(Dedup(false, 10), [true, true], CameraEnded)
  {
    var faces := [Face(u, 10), Face(u, 10)];
    assert Recognize(same, Empty, u) == Ok(Unknown);
    assert faces[1..][1..] == [];
    assert FrameSpec(same, Empty, Config.UnknownTimeout, Dedup(false, 5), faces[1..])
        == FrameOutcome(Dedup(false, 10), [Unknown], [true], None);
    assert FrameSpec(same, Empty, Config.UnknownTimeout, Dedup(true, 5), faces)
        == FrameOutcome(Dedup(false, 10), [Unknown, Unknown], [true, true], None);
  }

  /**
   * The loop's own state (modules/utils.py:20-21): `target` and `recent_time`,
   * updated in place face by face.
   */
  class VideoStream {
    var target: bool
    var recentTime: int
    const timeout: int

    function State(): (d: Dedup)
      reads this
    {
      Dedup(target, recentTime)
    }

    /** The loop starts armed, with the current minute as `recent_time`. */
    constructor(startMinute: int)
      ensures State() == Dedup(true, startMinute)
      ensures timeout == Config.UnknownTimeout
    {
      target := true;
      recentTime := startMinute;
      timeout := Config.UnknownTimeout;
    }

    /** The handling of one labelled face at minute `now`; the result says whether an alert is sent. */
    method OnFace(name: string, now: int) returns (alert: bool)
      modifies this
      ensures (State(), alert) == Step(old(State()), name, now, timeout)
    {
      if !target && now - recentTime > timeout {
        target := true;
        recentTime := now;
      }
      alert := false;
      if name == Unknown && target {
        target := false;
        alert := true;
      }
    }

    /** One frame's faces, each recognised against `store` and then handled in order. */
    method ProcessFrame(same: SamePerson, store: Store, faces: seq<Face>)
      returns (names: seq<string>, alerts: seq<bool>, error: Option<Error>)
      modifies this
      ensures FrameSpec(same, store, timeout, old(State()), faces) == FrameOutcome(State(), names, alerts, error)
    {
      names, alerts := [], [];
      var i := 0;
      while i < |faces|
        invariant 0 <= i <= |faces|
        invariant FrameSpec(same, store, timeout, old(State()), faces)
               == After(names, alerts, FrameSpec(same, store, timeout, State(), faces[i..]))
      {
        var name := RecognizeFace(same, store, faces[i].encoding);
        if name.Err? {
          FailAtFace(same, store, timeout, State(), faces, i, names, alerts);
          return names, alerts, Some(name.error);
        }
        AdvanceFace(same, store, timeout, State(), faces, i, names, alerts, name.value);
        var alert := OnFace(name.value, faces[i].minute);
        names, alerts := names + [name.value], alerts + [alert];
        i := i + 1;
      }
      error := None;
    }

    /** The whole loop over the camera's frames. */
    method Run(same: SamePerson, store: Store, frames: seq<Frame>) returns (alerts: seq<bool>, ending: Ending)
      modifies this
      ensures StreamSpec(same, store, timeout, old(State()), frames) == StreamOutcome(State(), alerts, ending)
    {
      alerts := [];
      var i := 0;
      while i < |frames|
        invariant 0 <= i <= |frames|
        invariant StreamSpec(same, store, timeout, old(State()), frames)
               == Resume(alerts, StreamSpec(same, store, timeout, State(), frames[i..]))
      {
        ghost var before := State();
        StreamSpecStep(same, store, timeout, before, frames[i..]);
        var _, frameAlerts, error := ProcessFrame(same, store, frames[i].faces);
        if error.Some? {
          return alerts + frameAlerts, Crashed(error.value);
        }
        if frames[i].quit {
          return alerts + frameAlerts, QuitPressed;
        }
        assert frames[i..][1..] == frames[i + 1..];
        ResumeResume(alerts, frameAlerts, StreamSpec(same, store, timeout, State(), frames[i + 1..]));
        alerts := alerts + frameAlerts;
        i := i + 1;
      }
      assert alerts + [] == alerts;
      ending := CameraEnded;
    }
  }
}
