/** The recognition session of recognize_faces.py: per detected face, accept a confident
    match, look up the name, skip people already marked, run the eyebrow-movement liveness
    check and, after a gesture, append one row to the day's attendance file.

    The camera, the Haar cascade, the LBPH recogniser, the MediaPipe face mesh and the clock
    are inputs: each detected face arrives as a `DetectedFace` carrying what they reported. */
module Recognition {
  import opened Common
  import opened Text

  /** A recogniser distance below this is a confident match (recognize_faces.py:120). */
  const ConfidenceThreshold: real := 50.0

  /** An eyebrow-to-eye distance change above this many pixels is a gesture (recognize_faces.py:85). */
  const MovementThreshold: real := 5.0

  /** The name used for an id the identity directory does not know (recognize_faces.py:117). */
  const UnknownName: string := "Unknown"

  /** A face bounding box from the cascade detector, in pixels. */
  datatype FaceBox = FaceBox(x: int, y: int, w: int, h: int)

  /** The face mesh's normalised y coordinates of point 105 (left eyebrow) and point 33 (left eye). */
  datatype Landmarks = Landmarks(eyebrowY: real, eyeY: real)

  /** One detected face: its box, the recogniser's predicted id and distance, the face mesh's
      landmarks (absent when the mesh finds none), and the clock reading HH:MM:SS at that moment. */
  datatype DetectedFace = DetectedFace(box: FaceBox, id: int, conf: real, mesh: Option<Landmarks>, clock: string)

  /** The faces the detector found in one camera frame, in detection order. */
  type Frame = seq<DetectedFace>

  datatype Color = Blue | Green

  /** What is drawn for a face: nothing for an unconfident match; otherwise the name, and the
      landmark points in blue (not yet marked) or green (marked) when a mesh was found. */
  datatype FaceView = Unlabelled | Labelled(name: string, mesh: Option<Color>)

  /** The state a FaceRecognizer carries across faces and frames: one eyebrow baseline shared by
      every face, the per-name "marked" dictionary, and today's attendance file. */
  datatype Session = Session(baseline: Option<real>, status: map<string, bool>, ledger: CsvFile)

  /** The result of handling one face. */
  datatype Outcome = Outcome(session: Session, view: FaceView)

  /** The result of one liveness check: whether a gesture was seen, and the baseline afterwards. */
  datatype Check = Check(moved: bool, baseline: Option<real>)

  function Abs(x: real): (r: real)
    ensures r >= 0.0 && (r == x || r == -x)
  {
    if x < 0.0 then -x else x
  }

  /** A normalised landmark y projected into the frame through the face box. */
  function ProjectY(norm: real, box: FaceBox): real
  {
    norm * box.h as real + box.y as real
  }

  /** The vertical pixel distance between the left eyebrow and the left eye. */
  function EyebrowToEyeDistance(lm: Landmarks, box: FaceBox): real
  {
    Abs(ProjectY(lm.eyebrowY, box) - ProjectY(lm.eyeY, box))
  }

  /** The distance depends on the box height only, not on where the box is. */
  lemma DistanceScalesWithHeight(lm: Landmarks, box: FaceBox)
    requires box.h >= 0
    ensures EyebrowToEyeDistance(lm, box) == Abs(lm.eyebrowY - lm.eyeY) * box.h as real
  {
    var h := box.h as real;
    var e := lm.eyebrowY - lm.eyeY;
    assert ProjectY(lm.eyebrowY, box) - ProjectY(lm.eyeY, box) == e * h;
    if e < 0.0 {
      NonNegativeProduct(-e, h);
      assert e * h == -((-e) * h);
    } else {
      NonNegativeProduct(e, h);
    }
  }

  lemma NonNegativeProduct(a: real, b: real)
    requires a >= 0.0 && b >= 0.0
    ensures a * b >= 0.0
  {
  }

  /** calculate_eyebrow_movement's decision: a gesture needs a baseline and a change strictly
      above the threshold; a gesture returns before the baseline is refreshed, every other call
      stores the current distance. */
  function EyebrowCheck(baseline: Option<real>, d: real): Check
  {
    if baseline.Some? && Abs(baseline.value - d) > MovementThreshold then Check(true, baseline)
    else Check(false, Some(d))
  }

  /** self.names.get(id_, "Unknown"). */
  function LookupName(names: map<int, string>, id: int): string
  {
    if id in names then names[id] else UnknownName
  }

  /** name in attendance_status and attendance_status[name]. */
  predicate IsMarked(status: map<string, bool>, name: string)
  {
    name in status && status[name]
  }

  /** The scan of attendance_already_marked over the file's rows. A row with fewer than two
      fields raises IndexError inside the try, which is reported and answered with False. */
  function ScanForName(rows: seq<Row>, name: string): bool
    decreases |rows|
  {
    if rows == [] then false
    else if |rows[0]| < 2 then false
    else if rows[0][1] == name then true
    else ScanForName(rows[1..], name)
  }

  /** attendance_already_marked: false when the file does not exist. */
  predicate AlreadyMarked(ledger: CsvFile, name: string)
  {
    ledger.Some? && ScanForName(ledger.value, name)
  }

  /** Some row's second column is `name`. */
  predicate Lists(rows: seq<Row>, name: string)
  {
    exists i :: 0 <= i < |rows| && |rows[i]| >= 2 && rows[i][1] == name
  }

  /** No name appears in two rows. */
  predicate NamesUnique(rows: seq<Row>)
    requires WellFormed(rows)
  {
    forall i, j :: 0 <= i < j < |rows| ==> rows[i][1] != rows[j][1]
  }

  /** On a file whose rows all have a name column, the check answers exactly "is the name listed". */
  lemma {:induction false} ScanFindsListed(rows: seq<Row>, name: string)
    requires WellFormed(rows)
    ensures ScanForName(rows, name) <==> Lists(rows, name)
    decreases |rows|
  {
    if rows != [] {
      ScanFindsListed(rows[1..], name);
      if Lists(rows[1..], name) {
        var i :| 0 <= i < |rows[1..]| && |rows[1..][i]| >= 2 && rows[1..][i][1] == name;
        assert rows[i + 1] == rows[1..][i];
      }
      if Lists(rows, name) && rows[0][1] != name {
        var i :| 0 <= i < |rows| && |rows[i]| >= 2 && rows[i][1] == name;
        assert rows[1..][i - 1] == rows[i];
      }
    }
  }

  /** attendance_already_marked is false when the file is absent and otherwise, on a file whose
      rows all have a name column, true exactly when some row's second column is the name. */
  lemma AlreadyMarkedIffListed(ledger: CsvFile, name: string)
    requires WellFormed(Rows(ledger))
    ensures AlreadyMarked(ledger, name) <==> Lists(Rows(ledger), name)
  {
    if ledger.Some? {
      ScanFindsListed(ledger.value, name);
    }
  }

  /** The exception path: a short row ahead of a matching row hides the match. */
  lemma ShortRowHidesEntry()
    ensures !AlreadyMarked(Some([[], ["7", "Ada", "09:00:00"]]), "Ada")
    ensures Lists([[], ["7", "Ada", "09:00:00"]], "Ada")
  {
    var rows: seq<Row> := [[], ["7", "Ada", "09:00:00"]];
    assert |rows[1]| >= 2 && rows[1][1] == "Ada";
  }

  /** The row mark_attendance writes: str(id_), the name, and the time HH:MM:SS. */
  function AttendanceRow(id: int, name: string, clock: string): Row
  {
    [Decimal(id), name, clock]
  }

  /** mark_attendance: append one row and set the name's flag, unless the file already has it,
      in which case neither the file nor the flags change. */
  function Mark(s: Session, id: int, name: string, clock: string): Session
  {
    if AlreadyMarked(s.ledger, name) then s
    else s.(ledger := Appended(s.ledger, AttendanceRow(id, name, clock)), status := s.status[name := true])
  }

  /** On a file whose rows all have two fields, an appended row's name is found; a short row
      before it would hide it (ShortRowHidesEntry). */
  lemma AppendedIsFound(rows: seq<Row>, row: Row)
    requires WellFormed(rows) && |row| >= 2
    ensures AlreadyMarked(Some(rows + [row]), row[1])
  {
    var all := rows + [row];
    assert all[|rows|] == row;
    ScanFindsListed(all, row[1]);
  }

  /** On a file whose rows all have two fields, marking the same name twice writes one row: the
      second call finds the first one's row. */
  lemma MarkIdempotent(s: Session, id: int, id': int, name: string, clock: string, clock': string)
    requires WellFormed(Rows(s.ledger))
    ensures Mark(Mark(s, id, name, clock), id', name, clock') == Mark(s, id, name, clock)
  {
    if !AlreadyMarked(s.ledger, name) {
      AppendedIsFound(Rows(s.ledger), AttendanceRow(id, name, clock));
    }
  }

  /** The per-face decision block of recognize_faces (recognize_faces.py:114-140). */
  function FaceStep(s: Session, names: map<int, string>, f: DetectedFace): Outcome
  {
    if f.conf >= ConfidenceThreshold then Outcome(s, Unlabelled)
    else
      var name := LookupName(names, f.id);
      if f.mesh.None? then Outcome(s, Labelled(name, None))
      else if IsMarked(s.status, name) then Outcome(s, Labelled(name, Some(Green)))
      else
        var c := EyebrowCheck(s.baseline, EyebrowToEyeDistance(f.mesh.value, f.box));
        var s' := s.(baseline := c.baseline);
        if c.moved && !AlreadyMarked(s'.ledger, name) then
          Outcome(Mark(s', f.id, name, f.clock), Labelled(name, Some(Green)))
        else
          Outcome(s', Labelled(name, Some(Blue)))
  }

  /** The session after a stream of faces, handled one after another. */
  function Steps(s: Session, names: map<int, string>, faces: seq<DetectedFace>): Session
    decreases |faces|
  {
    if faces == [] then s
    else FaceStep(Steps(s, names, faces[..|faces| - 1]), names, faces[|faces| - 1]).session
  }

  /** What is drawn for each face of a stream. */
  function Views(s: Session, names: map<int, string>, faces: seq<DetectedFace>): seq<FaceView>
    decreases |faces|
  {
    if faces == [] then []
    else
      var n := |faces| - 1;
      Views(s, names, faces[..n]) + [FaceStep(Steps(s, names, faces[..n]), names, faces[n]).view]
  }

  /** The session after a sequence of frames. */
  function Run(s: Session, names: map<int, string>, frames: seq<Frame>): Session
    decreases |frames|
  {
    if frames == [] then s
    else Steps(Run(s, names, frames[..|frames| - 1]), names, frames[|frames| - 1])
  }

  /** All faces of a sequence of frames, in order. */
  function Flatten(frames: seq<Frame>): seq<DetectedFace>
    decreases |frames|
  {
    if frames == [] then [] else Flatten(frames[..|frames| - 1]) + frames[|frames| - 1]
  }

  lemma {:induction false} StepsAppend(s: Session, names: map<int, string>, a: seq<DetectedFace>, b: seq<DetectedFace>)
    ensures Steps(s, names, a + b) == Steps(Steps(s, names, a), names, b)
    decreases |b|
  {
    if b == [] {
      assert a + b == a;
    } else {
      var n := |b| - 1;
      assert (a + b)[..|a + b| - 1] == a + b[..n];
      StepsAppend(s, names, a, b[..n]);
    }
  }

  /** Frame boundaries do not matter: a run is the stream of all its faces. */
  lemma {:induction false} RunIsSteps(s: Session, names: map<int, string>, frames: seq<Frame>)
    ensures Run(s, names, frames) == Steps(s, names, Flatten(frames))
    decreases |frames|
  {
    if frames != [] {
      var n := |frames| - 1;
      RunIsSteps(s, names, frames[..n]);
      StepsAppend(s, names, Flatten(frames[..n]), frames[n]);
    }
  }

  class FaceRecognizer {
    /** The identity directory: id to display name. */
    const names: map<int, string>
    var previousEyebrowDistance: Option<real>
    var attendanceStatus: map<string, bool>
    /** attendance/<today>.csv. */
    var attendanceFile: CsvFile

    function State(): Session
      reads this
    {
      Session(previousEyebrowDistance, attendanceStatus, attendanceFile)
    }

    constructor (names: map<int, string>, todaysFile: CsvFile)
      ensures this.names == names
      ensures State() == Session(None, map[], todaysFile)
    {
      this.names := names;
      previousEyebrowDistance := None;
      attendanceStatus := map[];
      attendanceFile := todaysFile;
    }

    /** attendance_already_marked: read the file row by row and stop at the first row naming `name`. */
    method AttendanceAlreadyMarked(name: string) returns (marked: bool)
      ensures marked == AlreadyMarked(attendanceFile, name)
    {
      if attendanceFile.None? {
        return false;
      }
      var rows := attendanceFile.value;
      var i := 0;
      while i < |rows|
        invariant 0 <= i <= |rows|
        invariant ScanForName(rows, name) == ScanForName(rows[i..], name)
      {
        assert rows[i..][1..] == rows[i + 1..];
        if |rows[i]| < 2 {
          return false;
        }
        if rows[i][1] == name {
          return true;
        }
        i := i + 1;
      }
      return false;
    }

    /** mark_attendance. */
    method MarkAttendance(id: int, name: string, clock: string)
      modifies this`attendanceFile, this`attendanceStatus
      ensures State() == Mark(old(State()), id, name, clock)
    {
      var marked := AttendanceAlreadyMarked(name);
      if !marked {
        attendanceFile := Appended(attendanceFile, AttendanceRow(id, name, clock));
        attendanceStatus := attendanceStatus[name := true];
      }
    }

    /** calculate_eyebrow_movement: touches the shared baseline and nothing else. */
    method CalculateEyebrowMovement(lm: Landmarks, box: FaceBox) returns (moved: bool)
      modifies this`previousEyebrowDistance
      ensures Check(moved, previousEyebrowDistance)
           == EyebrowCheck(old(previousEyebrowDistance), EyebrowToEyeDistance(lm, box))
    {
      var eyebrowY := ProjectY(lm.eyebrowY, box);
      var eyeY := ProjectY(lm.eyeY, box);
      var distance := Abs(eyebrowY - eyeY);
      if previousEyebrowDistance.Some? {
        if Abs(previousEyebrowDistance.value - distance) > MovementThreshold {
          return true;
        }
      }
      previousEyebrowDistance := Some(distance);
      return false;
    }

    /** The body of the `for (x, y, w, h) in faces` loop. */
    method ProcessFace(f: DetectedFace) returns (view: FaceView)
      modifies this`previousEyebrowDistance, this`attendanceStatus, this`attendanceFile
      ensures FaceStep(old(State()), names, f) == Outcome(State(), view)
    {
      view := Unlabelled;
      if f.conf < ConfidenceThreshold {
        var name := LookupName(names, f.id);
        view := Labelled(name, None);
        if f.mesh.Some? {
          if name in attendanceStatus && attendanceStatus[name] {
            view := Labelled(name, Some(Green));
          } else {
            var color := Blue;
            var moved := CalculateEyebrowMovement(f.mesh.value, f.box);
            if moved {
              var marked := AttendanceAlreadyMarked(name);
              if !marked {
                MarkAttendance(f.id, name, f.clock);
                color := Green;
              }
            }
            view := Labelled(name, Some(color));
          }
        }
      }
    }

    /** One frame: every detected face in order. */
    method ProcessFrame(faces: Frame) returns (views: seq<FaceView>)
      modifies this`previousEyebrowDistance, this`attendanceStatus, this`attendanceFile
      ensures State() == Steps(old(State()), names, faces)
      ensures views == Views(old(State()), names, faces)
    {
      views := [];
      var i := 0;
      while i < |faces|
        invariant 0 <= i <= |faces|
        invariant State() == Steps(old(State()), names, faces[..i])
        invariant views == Views(old(State()), names, faces[..i])
      {
        assert faces[..i + 1][..i] == faces[..i];
        var view := ProcessFace(faces[i]);
        views := views + [view];
        i := i + 1;
      }
      assert faces[..i] == faces;
    }

    /** recognize_faces: the frame loop, over the frames read before the camera failed or 'q' was pressed. */
    method RecognizeFaces(frames: seq<Frame>)
      modifies this`previousEyebrowDistance, this`attendanceStatus, this`attendanceFile
      ensures State() == Run(old(State()), names, frames)
    {
      var k := 0;
      while k < |frames|
        invariant 0 <= k <= |frames|
        invariant State() == Run(old(State()), names, frames[..k])
      {
        assert frames[..k + 1][..k] == frames[..k];
        var _ := ProcessFrame(frames[k]);
        k := k + 1;
      }
      assert frames[..k] == frames;
    }
  }
}
