# Attendance system: a Dafny model of its decision logic

The system is a webcam attendance register. It enrols people by photographing their faces
into `Faces/<id>_<name>/` and listing them in `names.csv`. It recognises them later with a
trained recogniser. Before marking someone present it asks for a liveness gesture: a raise of
the eyebrows, measured as a change in the eyebrow-to-eye distance. Each present name gets one
row in `attendance/<date>.csv`. A Tk window holds the enrolment form, browses the files,
deletes people and prints a listing.

This project models the logic around the camera and the window:

- `recognize_faces.dfy` (module `Recognition`): the `FaceRecognizer` class of
  `recognize_faces.py`. Its fields are the shared eyebrow baseline, the per-name "marked"
  dictionary and today's attendance file.
  - Its methods are `attendance_already_marked`, `mark_attendance`,
    `calculate_eyebrow_movement`, the per-face block of `recognize_faces`, and the frame and
    face loops.
  - Each method is proved against a pure function of the session state (`Mark`, `EyebrowCheck`,
    `FaceStep`, `Steps`, `Run`).
- `recognition_properties.dfy`: what that session guarantees over whole streams of faces.
  - The liveness detector on its own: the first call, held raises, the `[10,10,10,20,20]` series,
    and static signals.
  - The ledger is append-only, and flags are never cleared.
  - Inert faces change nothing, and a write needs a gesture.
  - The invariant "well formed, one row per name, every flagged name has its row".
  - Worked examples.
- `attendance_window.dfy` (module `AttendanceWindow`): the `SmartAttendanceSystem` window of
  `main.py`, reduced to the values its widgets hold.
  - Key-stroke validators and the Capture rule.
  - `check_id_exists`, `remove_record_from_csv`, `get_attendance_dates`/`refresh_combobox`,
    `load_csv_data` and its callers, `on_treeview_select`, `print_data`'s empty check, and the
    coordinates of `create_image_from_records`.
- `add_faces.dfy` (module `AddFaces`): the `FaceCapture` class of `add_faces.py`.
  - `ensure_names_file`, and the names-row append and per-face counter of `capture_faces`.
  - `delete_user_from_csv`.
- `common.dfy` and `text.dfy`: CSV files as optional row sequences (`None` is a missing file),
  a left-to-right list filter, and the Python string operations the code relies on:
  `isdigit`, `isalpha`, `strip`, `endswith`, `replace`, `str(int)` and `int(str)`.

The foreign components are inputs:
- the camera, the Haar cascade, the LBPH recogniser and the MediaPipe face mesh;
- the clock and the directory listing.

Each detected face arrives as a `DetectedFace` (box, predicted id, distance, optional landmark
pair, clock reading). Each capture frame arrives as a `CameraFrame` (number of faces, whether
'q' was pressed). A finite sequence of frames stands for a camera stream that ends by a failed
read or by 'q'.

Two behaviours of the code differ from what a per-person liveness check would do; the model follows the
code as written:
- The eyebrow baseline is one field shared by every face and every identity, not one per
  identity. A first sighting of one person is compared against another person's eyebrows
  (`SharedBaselineLeaksAcrossPeople`).
- A reported gesture returns before the baseline is refreshed. For distances 10, 10, 10, 20, 20
  the fifth call therefore reports a gesture again (`GestureExample`), not "no gesture
  against a refreshed baseline of 20".

## Model

| member | source | states |
|---|---|---|
| Text.StripSpec | main.py:312-313 | `strip()` removes exactly the leading and trailing whitespace: the result is a slice whose removed ends are all whitespace and whose own ends are not |
| Text.Decimal | recognize_faces.py:64 | `str(id_)` is non-empty, and it is a pure digit string exactly when the id is non-negative |
| Text.ParseDigitString | recognize_faces.py:40 | a fact about Python's `int()` as `load_names` applies it, which the model does not use since `load_names` is left out: a digit string reads as its decimal value, so "007" becomes 7 |
| Text.DecimalRoundTrip | recognize_faces.py:64 | the ID column `str(id_)` of an attendance row denotes the recognised id itself: `int()` of it gives the id back, sign included |
| Text.RemoveCsvSuffix | main.py:210 | removing every ".csv" from `d + ".csv"` gives back `d` when `d` contains no '.' |
| Recognition.DistanceScalesWithHeight | recognize_faces.py:74-81 | the eyebrow-to-eye pixel distance is the landmarks' normalised gap times the box height, whatever the box position |
| Recognition.ScanFindsListed | recognize_faces.py:51-53 | on rows that all have a name column, the scan answers true exactly when some row's second column is the name |
| Recognition.AlreadyMarkedIffListed | recognize_faces.py:45-56 | `attendance_already_marked` is false for a missing file, and for a file whose rows all have at least two fields it is true exactly when some row's second column is the name (a short row raises instead, see `ShortRowHidesEntry`) |
| Recognition.ShortRowHidesEntry | recognize_faces.py:51-56 | a short row ahead of a matching row raises inside the `try`, so the check answers false although the name is listed |
| Recognition.AppendedIsFound | recognize_faces.py:61-64 | on a file whose rows all have two fields, after a row is appended the check finds its name (a short row before it hides it, see `ShortRowHidesEntry`) |
| Recognition.MarkIdempotent | recognize_faces.py:58-70 | on a file whose rows all have two fields, marking a name a second time changes neither the file nor the flags |
| Recognition.StepsAppend | recognize_faces.py:114-140 | handling faces `a + b` is handling `a`, then `b` from the resulting state |
| Recognition.RunIsSteps | recognize_faces.py:103-145 | frame boundaries do not matter: a run over frames equals the face-by-face run over all their faces |
| Recognition.FaceRecognizer.constructor | recognize_faces.py:17-30 | a new recogniser has no baseline, an empty status dictionary and today's file as found |
| Recognition.FaceRecognizer.AttendanceAlreadyMarked | recognize_faces.py:45-56 | the loop with early return computes `AlreadyMarked` (absent file → false; first short row → false; first row naming the person → true) |
| Recognition.FaceRecognizer.MarkAttendance | recognize_faces.py:58-70 | the new state is `Mark` of the old: when `AttendanceAlreadyMarked` answers false, `[str(id), name, time]` is appended and the flag set; otherwise nothing changes. On a file whose rows all have two fields that answer is "the name is not listed" |
| Recognition.FaceRecognizer.CalculateEyebrowMovement | recognize_faces.py:72-90 | reports a gesture exactly when a baseline exists and differs from the distance by more than 5; the baseline stays on a gesture and becomes the distance otherwise; nothing else changes |
| Recognition.FaceRecognizer.ProcessFace | recognize_faces.py:114-140 | one face moves the state and colour as `FaceStep` says: an unconfident face changes nothing; a marked name is drawn green without a check; otherwise it is marked only after a gesture and a negative file check |
| Recognition.FaceRecognizer.ProcessFrame | recognize_faces.py:114-140 | the faces of a frame are handled in detection order (`Steps`, `Views`) |
| Recognition.FaceRecognizer.RecognizeFaces | recognize_faces.py:103-148 | the frame loop leaves the state `Run` computes over the frames read |
| RecognitionProperties.FirstCallStoresBaseline | recognize_faces.py:83-90 | the first check of a session reports no gesture and stores the distance |
| RecognitionProperties.HeldRaiseKeepsReporting | recognize_faces.py:85-89 | a gesture leaves the baseline unchanged, so the same distance reports a gesture again |
| RecognitionProperties.GestureExample | recognize_faces.py:83-90 | distances 10, 10, 10, 20, 20 report no, no, no, yes, yes |
| RecognitionProperties.StaticSignalNeverGestures | recognize_faces.py:81-90 | distances that stay inside one band of width 5 never report a gesture, however long the series |
| RecognitionProperties.LedgerOnlyGrows | recognize_faces.py:61-64 | across any faces the old rows stay a prefix of the file, and an existing file is never removed |
| RecognitionProperties.MarkedStaysMarked | recognize_faces.py:66 | a name's flag, once set, stays set |
| RecognitionProperties.InertFacesChangeNothing | recognize_faces.py:120-131 | faces that are unconfident, have no landmarks or name someone already marked leave baseline, flags and file untouched |
| RecognitionProperties.UnsightedStaysUnmarked | recognize_faces.py:117-137 | a name no confident face resolves to keeps its flag exactly as it was |
| RecognitionProperties.WriteNeedsGesture | recognize_faces.py:130-137 | a face changes the file only after a confident match, landmarks, an unmarked name, a gesture and a negative file check; it then appends its own row and sets its own flag |
| RecognitionProperties.FaceStepKeepsConsistent | recognize_faces.py:114-140 | one face preserves the invariant: rows well formed, no name twice, every flagged name listed |
| RecognitionProperties.StepsKeepConsistent | recognize_faces.py:114-140 | the invariant holds across any stream of faces, so each name appears at most once in the day's file |
| RecognitionProperties.RunKeepsConsistent | recognize_faces.py:103-145 | a session started on a well-formed file without duplicate names keeps the invariant frame after frame |
| RecognitionProperties.StaticFacesMarkNobody | recognize_faces.py:130-138 | if every face's distance and the starting baseline stay in one common band of width 5, nobody is marked and the file is unchanged; each person holding still is not enough, since the baseline is shared (see `SharedBaselineLeaksAcrossPeople`) |
| RecognitionProperties.AdaEndToEnd | recognize_faces.py:114-140 | distances 12, 12, 25 for one enrolled person write exactly the row `["7","Ada","09:00:03"]` at the third face; later faces of that person change nothing |
| RecognitionProperties.SharedBaselineLeaksAcrossPeople | recognize_faces.py:27 | Ann at distance 10 then Bob at 20 marks Bob, because the baseline is shared |
| AttendanceWindow.IdAccepted | main.py:183-188 | `validate_id` accepts exactly the texts whose every character is a digit (the empty text included) |
| AttendanceWindow.NameAccepted | main.py:190-195 | `validate_name` accepts exactly the texts whose every character is a letter (the empty text included) |
| AttendanceWindow.CaptureAllowed | main.py:197-204 | Capture is enabled exactly when both texts pass their validator and neither is empty |
| AttendanceWindow.IdScanFinds | main.py:134-137 | with no blank rows, the scan is true exactly when some row's stripped first field is the entered ID |
| AttendanceWindow.IdExistsIffListed | main.py:128-140 | with no blank row after the first, `check_id_exists` is true exactly when a later row's stripped first field is the entered ID; the first row is never read and may be anything |
| AttendanceWindow.CheckIdExists | main.py:128-140 | the loop with early return computes `IdExists`: missing or empty file → false, blank row → error, first match → true |
| AttendanceWindow.RemoveRecordKeeps | main.py:295-324 | when the removal succeeds (every data row has two fields), the header stays first; a data row survives exactly when its stripped ID and name do not both match; survivors keep their order |
| AttendanceWindow.RemoveRecordIdempotent | main.py:295-324 | removing the same record twice gives the same file as removing it once |
| AttendanceWindow.RemoveAbsentRecord | main.py:310-319 | a file without the record is written back unchanged |
| AttendanceWindow.KeptBeforeIsFilter | main.py:310-319 | collecting the rows one at a time, skipping those whose stripped ID and name both match, gives exactly the filtered data rows, in order |
| AttendanceWindow.RemoveRecordFromCsv | main.py:295-324 | the loop builds `RemoveRecord`: a missing file, a file without a header and a short data row fail; otherwise header plus kept rows |
| AttendanceWindow.AttendanceDatesMembership | main.py:206-210 | a date is offered exactly when some ".csv" file in the listing yields it with ".csv" removed |
| AttendanceWindow.AttendanceDatesAppend | main.py:210 | dates keep the listing's order: the dates of a joined listing are the joined dates |
| AttendanceWindow.DatedFileOffersDate | main.py:210 | the file `<date>.csv` offers exactly `<date>` |
| AttendanceWindow.RecordItemsLength | main.py:387-390 | one text item is drawn per value of every record |
| AttendanceWindow.RecordItemAt | main.py:386-390 | value `i` of record `k` is drawn at (10 + 130·i, y0 + 30·k), after every value of the earlier records |
| AttendanceWindow.RecordItemsBetween | main.py:386-390 | every record item lies between the first and the last record line |
| AttendanceWindow.PrintLayout | main.py:365-393 | the image is 50 + 30·n high; record k's value i is at (10 + 130·i, 40 + 30·k); every item lies inside the image's height |
| AttendanceWindow.CreateImageFromRecords | main.py:365-393 | the nested drawing loops produce exactly `ImageOf(records)` |
| AttendanceWindow.SmartAttendanceSystem.constructor | main.py:13-113 | empty entries; Capture and Delete disabled; today's attendance shown when its file exists; combobox reset to "Select Day" |
| AttendanceWindow.SmartAttendanceSystem.RefreshCombobox | main.py:116-120 | the values become "Select Day" followed by the dates, and "Select Day" is selected |
| AttendanceWindow.SmartAttendanceSystem.CheckFields | main.py:197-204 | afterwards Capture's state is `CaptureAllowed` of the two entries |
| AttendanceWindow.SmartAttendanceSystem.ValidateId | main.py:183-188 | accepts exactly `IdAccepted`; on acceptance Capture follows the entries as they were before the keystroke |
| AttendanceWindow.SmartAttendanceSystem.ValidateName | main.py:190-195 | accepts exactly `NameAccepted`; on acceptance Capture follows the entries as they were before the keystroke |
| AttendanceWindow.SmartAttendanceSystem.EditId | main.py:183-188 | an accepted ID edit changes the entry after Capture was computed from the old ID |
| AttendanceWindow.SmartAttendanceSystem.EditName | main.py:190-195 | an accepted name edit changes the entry after Capture was computed from the old name |
| AttendanceWindow.SmartAttendanceSystem.ValidateIdProposed | main.py:183-188 | the corrected validator computes Capture from the proposed ID |
| AttendanceWindow.SmartAttendanceSystem.ValidateNameProposed | main.py:190-195 | the corrected validator computes Capture from the proposed name |
| AttendanceWindow.SmartAttendanceSystem.EditIdProposed | main.py:183-188 | with the corrected validator, Capture matches the entries after every ID edit |
| AttendanceWindow.SmartAttendanceSystem.EditNameProposed | main.py:190-195 | with the corrected validator, Capture matches the entries after every name edit |
| AttendanceWindow.SmartAttendanceSystem.LoadCsvData | main.py:236-250 | a missing file leaves the view; otherwise the view shows the file's rows, without the first when asked |
| AttendanceWindow.SmartAttendanceSystem.ShowAllData | main.py:222-226 | resets the combobox to "Select Day" and shows names.csv without its header; Delete is guarded afterwards when it was before or when names.csv exists, since the view then shows names.csv |
| AttendanceWindow.SmartAttendanceSystem.LoadAttendanceData | main.py:212-220 | a chosen day other than "Select Day" is shown and Delete is disabled, which guards Delete; "Select Day" changes nothing, so an enabled Delete stays enabled |
| AttendanceWindow.SmartAttendanceSystem.OnTreeviewSelect | main.py:257-266 | an empty selection disables Delete; a non-empty one enables it when the combobox reads "Select Day" and otherwise leaves it |
| AttendanceWindow.SmartAttendanceSystem.OnTreeviewSelectFromNames | main.py:257-266 | corrected: Delete is enabled exactly when the selection is non-empty and the view shows names.csv |
| AttendanceWindow.SmartAttendanceSystem.PrintData | main.py:343-363 | no image is made exactly when the view is empty; otherwise the image is `ImageOf` the shown rows |
| AttendanceWindow.StartupSelectionEnablesDelete | main.py:257-266 | at start-up with today's attendance shown, selecting one of its rows enables Delete |
| AttendanceWindow.FilledFormLeavesCaptureDisabled | main.py:183-204 | with "Ada" entered as the name, typing the ID "7" leaves Capture disabled although both fields are filled |
| AddFaces.EnsuredNamesIdempotent | add_faces.py:25-30 | ensuring the names file twice is ensuring it once |
| AddFaces.DeleteUserKeepsOthers | add_faces.py:100-102 | with no blank rows, a row survives exactly when it was in the file and its first field is not the ID; the result is never longer |
| AddFaces.DeleteUserInOrder | add_faces.py:102 | deletion is row by row: deleting from `a + b` is deleting from `a` then from `b`, joined, so order is kept |
| AddFaces.DeleteAbsentUser | add_faces.py:100-107 | a file without the ID is written back unchanged |
| AddFaces.DeleteUserIdempotent | add_faces.py:95-109 | deleting an ID twice leaves the file as deleting it once, on every path including the error paths |
| AddFaces.DeleteUserFiltersHeader | add_faces.py:102 | the header is filtered like any row: deleting the ID "ID" removes it, and any other ID keeps it first |
| AddFaces.CaptureAfter | add_faces.py:42-84 | after `i` frames are offered, the capture loop has read at most `i` of them, and at least one when `i > 0` |
| AddFaces.CaptureAfterCount | add_faces.py:42-84 | the count is the number of faces in the frames read, and a loop that never broke read every frame |
| AddFaces.CaptureAfterStops | add_faces.py:80-84 | the loop breaks exactly at the first frame that brings the count to 100 or carries 'q'; if it never breaks, no frame did either |
| AddFaces.CaptureOvershootBound | add_faces.py:52-81 | the final count is at most 99 plus the faces of the last frame read |
| AddFaces.CaptureOvershootExample | add_faces.py:52-81 | frames with 99 and 3 faces, then any third frame, stop after the second frame with 102 images |
| AddFaces.StoppedStaysStopped | add_faces.py:80-84 | frames after the break change nothing |
| AddFaces.FaceCapture.constructor | add_faces.py:9-19 | a new capture object holds the user's ID and name, and the names file has been ensured |
| AddFaces.FaceCapture.EnsureNamesFile | add_faces.py:25-30 | the names file becomes `EnsuredNames` of what it was: a missing file is created holding only the header `["ID","Name"]`, and an existing one, even an empty one, is left as it was |
| AddFaces.FaceCapture.CaptureFaces | add_faces.py:32-93 | appends exactly `[user_id, user_name]` to the names file; saves images numbered 1, 2, …, count with one per detected face; reads exactly the frames `CaptureRun` reads |
| AddFaces.FaceCapture.DeleteUserFromCsv | add_faces.py:95-109 | the names file becomes the filtered rows, or stays as it was when the file is missing or has a blank row |
| AddFaces.EnrolledIdIsFound | add_faces.py:25-40 | after a digit ID is enrolled, the main window's duplicate check finds it when names.csv was missing or was non-empty with no blank data row |
| AddFaces.EmptyNamesFileHidesEnrolledId | add_faces.py:25-40 | an existing empty names.csv gets no header, so the enrolled `[id, name]` is the first row, which `check_id_exists` (main.py:133) skips: the ID is not found and can be enrolled again |

## Left out

- Camera capture, Haar cascade detection, LBPH prediction and MediaPipe face mesh: foreign libraries whose results are inputs (`DetectedFace`, `CameraFrame`).
- Drawing (`imshow`, `putText`, `circle`, `draw_landmark_points`, the pixel projection at recognize_faces.py:97-98): presentation only.
- The 'q' key and failed camera reads: the frame loops run over a finite sequence of frames. In `capture_faces` the 'q' flag is part of `CameraFrame`.
- Tk widget construction, message boxes, the five-second `after` timer (its effect is `RefreshCombobox`), confirmation dialogs and the `win32api` print call: UI and OS plumbing.
- PIL image creation, fonts and saving: only the size and the text positions are modelled.
- File opening, reading and writing, `os.makedirs`, `shutil.rmtree` and `os.listdir`: files are optional row sequences and the listing is a sequence of names in the order the OS returns it.
- `datetime.now()`: the date and the clock reading are inputs.
- `load_names` (recognize_faces.py:32-43) and train_model.py: the identity directory is an input map from id to name.
- `delete_record` (main.py:268-293): only its parts `remove_record_from_csv` and `show_all_data` are modelled.
- `capture_data` (main.py:142-181): only its parts `check_id_exists` (`IdExists`) and `FaceCapture` are modelled. `EnrolledIdIsFound` connects the two.
- Tk's conversion of tree-view values (an ID "007" comes back as the integer 7) is not modelled; IDs are strings throughout.
- Text.IsDigitChar, Text.IsAlphaChar, Text.IsSpace: ASCII only; Python's `isdigit`, `isalpha` and `strip` also accept other Unicode digits, letters and spaces.
- Text.ParseInt: does not accept the underscores between digits that Python's `int()` allows.
- Recognition.FaceRecognizer.MarkAttendance: the exception paths of the file write (recognize_faces.py:69-70) are not modelled; a write always succeeds.
- Recognition.FaceRecognizer.AttendanceAlreadyMarked: only the short-row exception is modelled; an unreadable file is not.
- AddFaces.FaceCapture.CaptureFaces: a failed `imwrite` and errors outside the loop are not modelled; every image save succeeds. Directory creation is left out.
- AttendanceWindow.RemoveRecordFromCsv: an error leaves the file as it was, since the write happens only after the whole read; the uncaught exception reaching Tk is not modelled further.
- Real numbers replace the floating-point landmark coordinates and distances.

## Findings

| source | as written | input that shows it | evidently intended | confidence | as-written member | corrected member |
|---|---|---|---|---|---|---|
| main.py:257-266 | Delete is enabled for any non-empty selection while the combobox reads "Select Day". That is also its state at start-up, when today's attendance is shown, and after every five-second refresh. | Start with today's attendance file present and select one of its rows. Delete is enabled, and `delete_record` removes that person from names.csv. | Delete is enabled only when the selection comes from names.csv, as the handler's docstring says. | medium, not executed | AttendanceWindow.StartupSelectionEnablesDelete | AttendanceWindow.SmartAttendanceSystem.OnTreeviewSelectFromNames |
| main.py:183-204 | With `validate='key'`, the validator runs before Tk applies the proposed text, and `check_fields` reads the entries, so it judges the text before the keystroke. | Name "Ada" entered, then the ID "7" typed: both fields are filled, yet Capture stays disabled. | Capture reflects the texts after the keystroke. | medium, not executed | AttendanceWindow.FilledFormLeavesCaptureDisabled | AttendanceWindow.SmartAttendanceSystem.EditIdProposed |
