/** What the recognition session guarantees over whole streams of faces and frames. */
module RecognitionProperties {
  import opened Common
  import opened Text
  import opened Recognition

  // ---- The liveness detector on its own -------------------------------------------------

  /** The gesture reports for a series of eyebrow-to-eye distances fed to one detector. */
  function Gestures(b: Option<real>, ds: seq<real>): (r: seq<bool>)
    ensures |r| == |ds|
    decreases |ds|
  {
    if ds == [] then []
    else
      var c := EyebrowCheck(b, ds[0]);
      [c.moved] + Gestures(c.baseline, ds[1..])
  }

  /** The first call of a session never reports a gesture and stores the distance as baseline. */
  lemma FirstCallStoresBaseline(d: real)
    ensures EyebrowCheck(None, d) == Check(false, Some(d))
  {
  }

  /** A gesture does not refresh the baseline, so holding the raised eyebrow keeps reporting. */
  lemma HeldRaiseKeepsReporting(b: Option<real>, d: real)
    requires EyebrowCheck(b, d).moved
    ensures EyebrowCheck(b, d).baseline == b
    ensures EyebrowCheck(EyebrowCheck(b, d).baseline, d).moved
  {
  }

  /** Distances 10, 10, 10, 20, 20 report no, no, no, yes, yes. */
  lemma GestureExample()
    ensures Gestures(None, [10.0, 10.0, 10.0, 20.0, 20.0]) == [false, false, false, true, true]
  {
  }

  /** `x` lies in the band [lo, lo + threshold]. */
  predicate InBand(x: real, lo: real)
  {
    lo <= x <= lo + MovementThreshold
  }

  /** A face whose distances stay within one threshold-wide band (a held photograph) never
      produces a gesture, whatever the series' length. */
  lemma {:induction false} StaticSignalNeverGestures(b: Option<real>, ds: seq<real>, lo: real)
    requires b.None? || InBand(b.value, lo)
    requires forall i :: 0 <= i < |ds| ==> InBand(ds[i], lo)
    ensures forall i :: 0 <= i < |ds| ==> !Gestures(b, ds)[i]
    decreases |ds|
  {
    if ds != [] {
      var c := EyebrowCheck(b, ds[0]);
      assert !c.moved && c.baseline == Some(ds[0]);
      StaticSignalNeverGestures(c.baseline, ds[1..], lo);
      forall i | 0 <= i < |ds|
        ensures !Gestures(b, ds)[i]
      {
        if i > 0 {
          assert Gestures(b, ds)[i] == Gestures(c.baseline, ds[1..])[i - 1];
        }
      }
    }
  }

  // ---- The session over a stream of faces -------------------------------------------------

  /** The ledger is only appended to: its old rows stay a prefix, and an existing file stays. */
  lemma {:induction false} LedgerOnlyGrows(s: Session, names: map<int, string>, faces: seq<DetectedFace>)
    ensures Rows(s.ledger) <= Rows(Steps(s, names, faces).ledger)
    ensures s.ledger.Some? ==> Steps(s, names, faces).ledger.Some?
    decreases |faces|
  {
    if faces != [] {
      LedgerOnlyGrows(s, names, faces[..|faces| - 1]);
    }
  }

  /** A name's flag, once set, is never cleared. */
  lemma {:induction false} MarkedStaysMarked(s: Session, names: map<int, string>, faces: seq<DetectedFace>, n: string)
    requires IsMarked(s.status, n)
    ensures IsMarked(Steps(s, names, faces).status, n)
    decreases |faces|
  {
    if faces != [] {
      MarkedStaysMarked(s, names, faces[..|faces| - 1], n);
    }
  }

  /** A face that can change nothing: an unconfident match, no landmarks, or a name already marked. */
  predicate Inert(s: Session, names: map<int, string>, f: DetectedFace)
  {
    f.conf >= ConfidenceThreshold || f.mesh.None? || IsMarked(s.status, LookupName(names, f.id))
  }

  /** Faces that are unconfident, meshless or already marked touch neither the baseline, the
      flags nor the file: for marked names neither the liveness check nor the ledger runs. */
  lemma {:induction false} InertFacesChangeNothing(s: Session, names: map<int, string>, faces: seq<DetectedFace>)
    requires forall i :: 0 <= i < |faces| ==> Inert(s, names, faces[i])
    ensures Steps(s, names, faces) == s
    decreases |faces|
  {
    if faces != [] {
      InertFacesChangeNothing(s, names, faces[..|faces| - 1]);
    }
  }

  /** A name no confident face resolves to keeps its flag (absent stays absent). */
  lemma {:induction false} UnsightedStaysUnmarked(s: Session, names: map<int, string>, faces: seq<DetectedFace>, n: string)
    requires forall i :: 0 <= i < |faces| && faces[i].conf < ConfidenceThreshold ==> LookupName(names, faces[i].id) != n
    ensures n in Steps(s, names, faces).status <==> n in s.status
    ensures n in s.status ==> Steps(s, names, faces).status[n] == s.status[n]
    decreases |faces|
  {
    if faces != [] {
      UnsightedStaysUnmarked(s, names, faces[..|faces| - 1], n);
    }
  }

  /** One face writes only after a confident match, landmarks, an unmarked name, a gesture and a
      negative file check, and then writes exactly its own row and sets its own flag. */
  lemma WriteNeedsGesture(s: Session, names: map<int, string>, f: DetectedFace)
    requires FaceStep(s, names, f).session.ledger != s.ledger
    ensures var name := LookupName(names, f.id);
      && f.conf < ConfidenceThreshold && f.mesh.Some? && !IsMarked(s.status, name)
      && EyebrowCheck(s.baseline, EyebrowToEyeDistance(f.mesh.value, f.box)).moved
      && !AlreadyMarked(s.ledger, name)
      && FaceStep(s, names, f).session.ledger == Appended(s.ledger, AttendanceRow(f.id, name, f.clock))
      && FaceStep(s, names, f).session.status == s.status[name := true]
  {
  }

  /** The session's invariant: every row has a name column, no name has two rows, and every
      name flagged as marked has its row in the file. */
  ghost predicate Consistent(s: Session)
  {
    && WellFormed(Rows(s.ledger))
    && NamesUnique(Rows(s.ledger))
    && forall n :: IsMarked(s.status, n) ==> Lists(Rows(s.ledger), n)
  }

  lemma FaceStepKeepsConsistent(s: Session, names: map<int, string>, f: DetectedFace)
    requires Consistent(s)
    ensures Consistent(FaceStep(s, names, f).session)
  {
    var s' := FaceStep(s, names, f).session;
    if s'.ledger != s.ledger {
      var name := LookupName(names, f.id);
      var rows := Rows(s.ledger);
      var row := AttendanceRow(f.id, name, f.clock);
      var rows' := rows + [row];
      WriteNeedsGesture(s, names, f);
      assert Rows(s'.ledger) == rows';
      AlreadyMarkedIffListed(s.ledger, name);
      assert !Lists(rows, name);
      assert rows'[|rows|] == row;
      forall i, j | 0 <= i < j < |rows'|
        ensures rows'[i][1] != rows'[j][1]
      {
        if j == |rows| {
          assert rows'[i] == rows[i];
        }
      }
      forall n | IsMarked(s'.status, n)
        ensures Lists(rows', n)
      {
        if n != name {
          assert IsMarked(s.status, n);
          assert Lists(rows, n);
          var i :| 0 <= i < |rows| && |rows[i]| >= 2 && rows[i][1] == n;
          assert rows'[i] == rows[i];
        }
      }
    }
  }

  /** Across any stream of faces the invariant holds: in particular, through mark_attendance
      each name appears at most once in the day's file. */
  lemma {:induction false} StepsKeepConsistent(s: Session, names: map<int, string>, faces: seq<DetectedFace>)
    requires Consistent(s)
    ensures Consistent(Steps(s, names, faces))
    decreases |faces|
  {
    if faces != [] {
      StepsKeepConsistent(s, names, faces[..|faces| - 1]);
      FaceStepKeepsConsistent(Steps(s, names, faces[..|faces| - 1]), names, faces[|faces| - 1]);
    }
  }

  /** A session started on a well-formed file without duplicate names keeps it so, frame after frame. */
  lemma RunKeepsConsistent(todaysFile: CsvFile, names: map<int, string>, frames: seq<Frame>)
    requires WellFormed(Rows(todaysFile)) && NamesUnique(Rows(todaysFile))
    ensures Consistent(Run(Session(None, map[], todaysFile), names, frames))
  {
    RunIsSteps(Session(None, map[], todaysFile), names, frames);
    StepsKeepConsistent(Session(None, map[], todaysFile), names, Flatten(frames));
  }

  /** Every face whose landmarks, if any, keep the distance within one band. */
  predicate StaticFaces(faces: seq<DetectedFace>, lo: real)
  {
    forall i :: 0 <= i < |faces| && faces[i].mesh.Some? ==> InBand(EyebrowToEyeDistance(faces[i].mesh.value, faces[i].box), lo)
  }

  /** Liveness gating: if every face's distance, and the starting baseline if any, lie in one
      common band of width 5 (a held photograph), nobody is marked. Each person holding still is
      not enough, since the baseline is shared: see SharedBaselineLeaksAcrossPeople. */
  lemma {:induction false} StaticFacesMarkNobody(s: Session, names: map<int, string>, faces: seq<DetectedFace>, lo: real)
    requires s.baseline.None? || InBand(s.baseline.value, lo)
    requires StaticFaces(faces, lo)
    ensures Steps(s, names, faces).ledger == s.ledger
    ensures Steps(s, names, faces).status == s.status
    ensures Steps(s, names, faces).baseline.None? || InBand(Steps(s, names, faces).baseline.value, lo)
    decreases |faces|
  {
    if faces != [] {
      StaticFacesMarkNobody(s, names, faces[..|faces| - 1], lo);
    }
  }

  // ---- Worked examples ------------------------------------------------------------------

  const AdaNames: map<int, string> := map[7 := "Ada"]
  const AdaBox: FaceBox := FaceBox(0, 0, 100, 100)

  function AdaFace(eyeY: real, clock: string): DetectedFace
  {
    DetectedFace(AdaBox, 7, 40.0, Some(Landmarks(0.30, eyeY)), clock)
  }

  /** The first two sightings of Ada only set and keep the 12.0 baseline. */
  lemma AdaWarmUp()
    ensures Steps(Session(None, map[], None), AdaNames,
                  [AdaFace(0.42, "09:00:01"), AdaFace(0.42, "09:00:02")]) == Session(Some(12.0), map[], None)
  {
    var f1, f2 := AdaFace(0.42, "09:00:01"), AdaFace(0.42, "09:00:02");
    var s0 := Session(None, map[], None);
    assert EyebrowToEyeDistance(f1.mesh.value, AdaBox) == 12.0;
    assert [f1][..0] == [];
    assert Steps(s0, AdaNames, [f1]) == Session(Some(12.0), map[], None);
    assert [f1, f2][..1] == [f1];
  }

  /** The third sighting, 25 against the 12.0 baseline, writes Ada's row. */
  lemma AdaGesture()
    ensures FaceStep(Session(Some(12.0), map[], None), AdaNames, AdaFace(0.55, "09:00:03")).session
            == Session(Some(12.0), map["Ada" := true], Some([["7", "Ada", "09:00:03"]]))
  {
    var f3 := AdaFace(0.55, "09:00:03");
    assert EyebrowToEyeDistance(f3.mesh.value, AdaBox) == 25.0;
    assert Decimal(7) == "7";
    assert AttendanceRow(7, "Ada", "09:00:03") == ["7", "Ada", "09:00:03"];
    var row: Row := ["7", "Ada", "09:00:03"];
    var none: CsvFile := None;
    assert Rows(none) + [row] == [row];
  }

  /** Identity 7 enrolled as "Ada", distances 12, 12, 25: exactly one row, written at the third
      face, and the flag set; any later faces of identity 7 change nothing. */
  lemma AdaEndToEnd(later: seq<DetectedFace>)
    requires forall i :: 0 <= i < |later| ==> later[i].id == 7
    ensures var s := Steps(Session(None, map[], None), AdaNames,
                           [AdaFace(0.42, "09:00:01"), AdaFace(0.42, "09:00:02"), AdaFace(0.55, "09:00:03")]);
      && s.ledger == Some([["7", "Ada", "09:00:03"]])
      && IsMarked(s.status, "Ada")
      && Steps(s, AdaNames, later) == s
  {
    var f1, f2, f3 := AdaFace(0.42, "09:00:01"), AdaFace(0.42, "09:00:02"), AdaFace(0.55, "09:00:03");
    var faces := [f1, f2, f3];
    AdaWarmUp();
    AdaGesture();
    assert faces[..2] == [f1, f2];
    var s3 := Session(Some(12.0), map["Ada" := true], Some([["7", "Ada", "09:00:03"]]));
    assert Steps(Session(None, map[], None), AdaNames, faces) == s3;
    InertFacesChangeNothing(s3, AdaNames, later);
  }

  /** The baseline is one value for the whole session, not one per person: a first sighting of
      Bob is compared with Ann's eyebrows and marks Bob although Bob has not moved. */
  lemma SharedBaselineLeaksAcrossPeople()
    ensures var names := map[1 := "Ann", 2 := "Bob"];
      var ann := DetectedFace(AdaBox, 1, 40.0, Some(Landmarks(0.30, 0.40)), "10:00:00");
      var bob := DetectedFace(AdaBox, 2, 40.0, Some(Landmarks(0.30, 0.50)), "10:00:01");
      Steps(Session(None, map[], None), names, [ann, bob]).ledger == Some([["2", "Bob", "10:00:01"]])
  {
    var names := map[1 := "Ann", 2 := "Bob"];
    var ann := DetectedFace(AdaBox, 1, 40.0, Some(Landmarks(0.30, 0.40)), "10:00:00");
    var bob := DetectedFace(AdaBox, 2, 40.0, Some(Landmarks(0.30, 0.50)), "10:00:01");
    var s0 := Session(None, map[], None);
    assert EyebrowToEyeDistance(ann.mesh.value, AdaBox) == 10.0;
    assert EyebrowToEyeDistance(bob.mesh.value, AdaBox) == 20.0;
    assert [ann, bob][..1] == [ann] && [ann][..0] == [];
    assert Steps(s0, names, [ann]) == Session(Some(10.0), map[], None);
    assert AttendanceRow(2, "Bob", "10:00:01") == ["2", "Bob", "10:00:01"];
    var row: Row := ["2", "Bob", "10:00:01"];
    var none: CsvFile := None;
    assert Rows(none) + [row] == [row];
    assert FaceStep(Session(Some(10.0), map[], None), names, bob).session.ledger == Some([["2", "Bob", "10:00:01"]]);
  }
}
