/** Enrolment: the names directory file and the face-capture counter of the FaceCapture class. */
module AddFaces {
  import opened Common
  import opened Text
  import AttendanceWindow

  /** The header ensure_names_file writes into a new names.csv. */
  const NamesHeader: Row := ["ID", "Name"]
  /** capture_faces stops once this many face images have been saved. */
  const TargetImages: nat := 100

  // ---- ensure_names_file ------------------------------------------------------------------

  /** names.csv after ensure_names_file: a missing file is created holding only the header,
      an existing one is left exactly as it was. */
  function EnsuredNames(f: CsvFile): (g: CsvFile)
    ensures g.Some?
    ensures f.Some? ==> g == f
    ensures f.None? ==> Rows(g) == [NamesHeader]
  {
    if f.None? then Some([NamesHeader]) else f
  }

  /** Running ensure_names_file a second time changes nothing. */
  lemma EnsuredNamesIdempotent(f: CsvFile)
    ensures EnsuredNames(EnsuredNames(f)) == EnsuredNames(f)
  {
  }

  // ---- delete_user_from_csv ---------------------------------------------------------------

  /** The comprehension's test: a row survives when its first field is not the ID. */
  function KeepsUser(userId: string): Row -> bool
  {
    row => |row| > 0 && row[0] != userId
  }

  /** No blank rows: csv.reader yields an empty list for a blank line, and `row[0]` on it raises. */
  predicate NoBlankRows(rows: seq<Row>)
  {
    forall i :: 0 <= i < |rows| ==> |rows[i]| > 0
  }

  /** delete_user_from_csv's rows to write back: a missing file or a blank row raises inside the
      `try`, so nothing is written; otherwise every row, header included, goes through the same
      test. */
  function DeleteUser(f: CsvFile, userId: string): Result<seq<Row>>
  {
    if f.None? then Fail(FileNotFound)
    else if !NoBlankRows(f.value) then Fail(ShortRow)
    else Ok(Filter(f.value, KeepsUser(userId)))
  }

  /** names.csv after delete_user_from_csv: the filtered rows, or the untouched file when an
      exception was caught before the write. */
  function AfterDelete(f: CsvFile, userId: string): CsvFile
  {
    match DeleteUser(f, userId)
    case Ok(rows) => Some(rows)
    case Fail(_) => f
  }

  /** The result holds exactly the rows whose first field differs from the ID, and is no longer
      than the file. */
  lemma DeleteUserKeepsOthers(rows: seq<Row>, userId: string, row: Row)
    requires NoBlankRows(rows)
    ensures DeleteUser(Some(rows), userId).Ok?
    ensures row in DeleteUser(Some(rows), userId).value <==> row in rows && row[0] != userId
    ensures |DeleteUser(Some(rows), userId).value| <= |rows|
  {
    FilterMembership(rows, KeepsUser(userId), row);
    if row in rows {
      assert |row| > 0;
    }
  }

  /** Deletion works row by row: deleting from two halves of a file and joining them gives the
      same rows, so the survivors keep their original order. */
  lemma DeleteUserInOrder(a: seq<Row>, b: seq<Row>, userId: string)
    requires NoBlankRows(a) && NoBlankRows(b)
    ensures DeleteUser(Some(a + b), userId)
         == Ok(DeleteUser(Some(a), userId).value + DeleteUser(Some(b), userId).value)
  {
    assert NoBlankRows(a + b) by {
      forall i | 0 <= i < |a + b|
        ensures |(a + b)[i]| > 0
      {
        if i >= |a| {
          assert (a + b)[i] == b[i - |a|];
        }
      }
    }
    FilterAppend(a, b, KeepsUser(userId));
  }

  /** A file without the ID is written back unchanged. */
  lemma DeleteAbsentUser(rows: seq<Row>, userId: string)
    requires NoBlankRows(rows)
    requires forall i :: 0 <= i < |rows| ==> rows[i][0] != userId
    ensures AfterDelete(Some(rows), userId) == Some(rows)
  {
    FilterKeepsAll(rows, KeepsUser(userId));
  }

  /** Deleting the same ID twice leaves the file as deleting it once. */
  lemma DeleteUserIdempotent(f: CsvFile, userId: string)
    ensures AfterDelete(AfterDelete(f, userId), userId) == AfterDelete(f, userId)
  {
    if f.Some? && NoBlankRows(f.value) {
      var rows := Filter(f.value, KeepsUser(userId));
      FilterAccepted(f.value, KeepsUser(userId));
      assert NoBlankRows(rows);
      FilterIdempotent(f.value, KeepsUser(userId));
    }
  }

  /** The header is not treated specially: deleting the ID "ID" removes the header row, and
      deleting any other ID keeps it in first place. */
  lemma DeleteUserFiltersHeader(data: seq<Row>, userId: string)
    requires NoBlankRows(data)
    ensures userId == "ID" ==>
              (DeleteUser(Some([NamesHeader] + data), userId) == DeleteUser(Some(data), userId))
    ensures userId != "ID" ==>
              (DeleteUser(Some([NamesHeader] + data), userId)
               == Ok([NamesHeader] + DeleteUser(Some(data), userId).value))
  {
    var header: seq<Row> := [NamesHeader];
    assert NoBlankRows(header);
    DeleteUserInOrder(header, data, userId);
    assert header[..0] == [];
    assert Filter(header, KeepsUser(userId)) == if userId == "ID" then [] else header;
    var none: seq<Row> := [];
    assert none + Filter(data, KeepsUser(userId)) == Filter(data, KeepsUser(userId));
  }

  // ---- capture_faces counter --------------------------------------------------------------

  /** What the capture loop sees of one camera frame: how many faces the detector found, and
      whether 'q' was pressed during the wait that follows it. */
  datatype CameraFrame = CameraFrame(faces: nat, quitKey: bool)

  /** The state of capture_faces's loop: images saved so far, frames read, whether it broke. */
  datatype Capture = Capture(count: nat, used: nat, stopped: bool)

  /** The number of faces in the first `i` frames. */
  function FacesBefore(frames: seq<CameraFrame>, i: nat): nat
    requires i <= |frames|
    decreases i
  {
    if i == 0 then 0 else FacesBefore(frames, i - 1) + frames[i - 1].faces
  }

  /** The state of capture_faces's loop once the first `i` frames of the stream have been
      offered: every face of a frame adds one to the count, then the loop breaks when the count
      has reached 100 or 'q' was pressed; frames offered after the break are never read. */
  function CaptureAfter(frames: seq<CameraFrame>, i: nat): (r: Capture)
    requires i <= |frames|
    ensures r.used <= i
    ensures i > 0 ==> r.used > 0
    decreases i
  {
    if i == 0 then Capture(0, 0, false)
    else
      var c := CaptureAfter(frames, i - 1);
      if c.stopped then c
      else
        var count := c.count + frames[i - 1].faces;
        Capture(count, c.used + 1, count >= TargetImages || frames[i - 1].quitKey)
  }

  /** The loop over a whole finite camera stream (its end stands for a failed read). */
  function CaptureRun(frames: seq<CameraFrame>): Capture
  {
    CaptureAfter(frames, |frames|)
  }

  /** None of the first k frames ended the loop. */
  ghost predicate KeptGoing(frames: seq<CameraFrame>, k: nat)
    requires k <= |frames|
  {
    forall j :: 1 <= j <= k ==> FacesBefore(frames, j) < TargetImages && !frames[j - 1].quitKey
  }

  /** The count is the number of faces in the frames read, and a loop that has not broken has
      read every frame offered. */
  lemma {:induction false} CaptureAfterCount(frames: seq<CameraFrame>, i: nat)
    requires i <= |frames|
    ensures CaptureAfter(frames, i).count == FacesBefore(frames, CaptureAfter(frames, i).used)
    ensures !CaptureAfter(frames, i).stopped ==> CaptureAfter(frames, i).used == i
    decreases i
  {
    if i > 0 {
      CaptureAfterCount(frames, i - 1);
    }
  }

  /** The loop breaks exactly at the first frame that brings the count to 100 or carries 'q';
      while it has not broken, no frame offered did either. */
  lemma {:induction false} CaptureAfterStops(frames: seq<CameraFrame>, i: nat)
    requires i <= |frames|
    ensures !CaptureAfter(frames, i).stopped ==> KeptGoing(frames, i)
    ensures CaptureAfter(frames, i).stopped ==>
              (0 < CaptureAfter(frames, i).used
               && KeptGoing(frames, CaptureAfter(frames, i).used - 1)
               && (CaptureAfter(frames, i).count >= TargetImages
                   || frames[CaptureAfter(frames, i).used - 1].quitKey))
    decreases i
  {
    if i > 0 {
      CaptureAfterStops(frames, i - 1);
      CaptureAfterCount(frames, i - 1);
    }
  }

  /** Once the loop has broken, later frames change nothing. */
  lemma {:induction false} StoppedStaysStopped(frames: seq<CameraFrame>, k: nat, m: nat)
    requires k <= m <= |frames|
    requires CaptureAfter(frames, k).stopped
    ensures CaptureAfter(frames, m) == CaptureAfter(frames, k)
    decreases m
  {
    if m > k {
      StoppedStaysStopped(frames, k, m - 1);
    }
  }

  /** The count can pass 100: the stop test runs once per frame, so the last frame read may add
      up to its own number of faces, minus one, beyond 99. */
  lemma CaptureOvershootBound(frames: seq<CameraFrame>)
    requires frames != []
    ensures CaptureRun(frames).count <= TargetImages - 1 + frames[CaptureRun(frames).used - 1].faces
  {
    var c := CaptureRun(frames);
    var n := c.used;
    CaptureAfterCount(frames, |frames|);
    CaptureAfterStops(frames, |frames|);
    assert c.count == FacesBefore(frames, n - 1) + frames[n - 1].faces;
    if n > 1 {
      assert FacesBefore(frames, n - 1) < TargetImages;
    }
  }

  /** 99 faces, then a frame with 3 faces: the loop stops at 102 images and never reads the
      third frame, whatever it holds. */
  lemma CaptureOvershootExample(frames: seq<CameraFrame>)
    requires |frames| == 3 && frames[0] == CameraFrame(99, false) && frames[1] == CameraFrame(3, false)
    ensures CaptureRun(frames) == Capture(102, 2, true)
  {
    assert CaptureAfter(frames, 1) == Capture(99, 1, false);
    assert CaptureAfter(frames, 2) == Capture(102, 2, true);
  }

  // ---- the FaceCapture object -------------------------------------------------------------

  /** FaceCapture for one user; the camera, the cascade and the face mesh are not modelled. */
  class FaceCapture {
    const userId: string
    const userName: string
    /** names.csv. */
    var namesFile: CsvFile

    /** __init__ ends by ensuring the names file exists. */
    constructor (userId: string, userName: string, namesFile: CsvFile)
      ensures this.userId == userId && this.userName == userName
      ensures this.namesFile == EnsuredNames(namesFile)
    {
      this.userId := userId;
      this.userName := userName;
      this.namesFile := namesFile;
      new;
      EnsureNamesFile();
    }

    /** ensure_names_file. */
    method EnsureNamesFile()
      modifies this`namesFile
      ensures namesFile == EnsuredNames(old(namesFile))
    {
      if namesFile.None? {
        namesFile := Some([NamesHeader]);
      }
    }

    /** capture_faces: append the user's row to names.csv, then read frames, saving one image
        per detected face as 1.jpg, 2.jpg, ... until the count reaches 100, 'q' is pressed or
        the camera stops delivering frames. Returns the image numbers saved and the number of
        frames read. */
    method CaptureFaces(frames: seq<CameraFrame>) returns (saved: seq<nat>, used: nat)
      modifies this`namesFile
      ensures namesFile == Appended(old(namesFile), [userId, userName])
      ensures used == CaptureRun(frames).used
      ensures |saved| == CaptureRun(frames).count
      ensures forall k :: 0 <= k < |saved| ==> saved[k] == k + 1
    {
      namesFile := Appended(namesFile, [userId, userName]);
      var count: nat := 0;
      saved := [];
      var i := 0;
      while i < |frames|
        invariant 0 <= i <= |frames|
        invariant CaptureAfter(frames, i) == Capture(count, i, false)
        invariant |saved| == count
        invariant forall k :: 0 <= k < |saved| ==> saved[k] == k + 1
      {
        var f := frames[i];
        for j := 0 to f.faces
          invariant |saved| == count + j
          invariant forall k :: 0 <= k < |saved| ==> saved[k] == k + 1
        {
          saved := saved + [|saved| + 1];
        }
        count := count + f.faces;
        if count >= TargetImages || f.quitKey {
          StoppedStaysStopped(frames, i + 1, |frames|);
          return saved, i + 1;
        }
        i := i + 1;
      }
      return saved, i;
    }

    /** delete_user_from_csv. */
    method DeleteUserFromCsv(id: string)
      modifies this`namesFile
      ensures namesFile == AfterDelete(old(namesFile), id)
    {
      var r := DeleteUser(namesFile, id);
      if r.Ok? {
        namesFile := Some(r.value);
      }
    }
  }

  // ---- enrolment seen from the main window ------------------------------------------------

  /** After FaceCapture enrols a digit-string ID (the only kind the ID field accepts), the main
      window's duplicate check finds it, when names.csv was missing or held at least a first row and
      no blank row after it. */
  lemma EnrolledIdIsFound(f: CsvFile, id: string, name: string)
    requires IsDigits(id)
    requires f.Some? ==> f.value != [] && forall i :: 1 <= i < |f.value| ==> |f.value[i]| > 0
    ensures AttendanceWindow.IdExists(Appended(EnsuredNames(f), [id, name]), id) == Ok(true)
  {
    var before := Rows(EnsuredNames(f));
    var rows := Rows(Appended(EnsuredNames(f), [id, name]));
    assert rows == before + [[id, name]];
    assert forall i :: 1 <= i < |rows| ==> |rows[i]| > 0 by {
      forall i | 1 <= i < |rows|
        ensures |rows[i]| > 0
      {
        if i < |before| {
          assert rows[i] == before[i];
        }
      }
    }
    StripDigits(id);
    AttendanceWindow.IdExistsIffListed(rows, id);
    assert Strip(rows[|rows| - 1][0]) == id;
  }

  /** An existing but empty names.csv gets no header from ensure_names_file, so the enrolled
      `[id, name]` becomes the first row, which check_id_exists skips: the ID is not found, and
      the same ID can be enrolled again. */
  lemma EmptyNamesFileHidesEnrolledId(id: string, name: string)
    ensures EnsuredNames(Some([])) == Some([])
    ensures AttendanceWindow.IdExists(Appended(EnsuredNames(Some([])), [id, name]), id) == Ok(false)
  {
    var rows: seq<Row> := [];
    assert Rows(Some(rows)) + [[id, name]] == [[id, name]];
  }
}
