/** main.py: the SmartAttendanceSystem window. Its widgets are reduced to the values they hold
    (entry texts, button states, combobox values, the rows shown in the tree view); files are
    row sequences and the attendance directory listing is a sequence of file names. */
module AttendanceWindow {
  import opened Common
  import opened Text

  /** The combobox's first entry, shown when no day is selected (main.py:118). */
  const SelectDay: string := "Select Day"

  // ---- Entry validation and the Capture button -------------------------------------------

  /** validate_id's test on the proposed entry text: digits or empty. */
  function IdAccepted(v: string): (ok: bool)
    ensures ok <==> forall i :: 0 <= i < |v| ==> IsDigitChar(v[i])
  {
    IsDigits(v) || v == ""
  }

  /** validate_name's test on the proposed entry text: letters or empty. */
  function NameAccepted(v: string): (ok: bool)
    ensures ok <==> forall i :: 0 <= i < |v| ==> IsAlphaChar(v[i])
  {
    IsAlphas(v) || v == ""
  }

  /** check_fields' rule for enabling Capture: a non-empty digit ID and a non-empty letter name. */
  function CaptureAllowed(id: string, name: string): (ok: bool)
    ensures ok <==> IdAccepted(id) && NameAccepted(name) && id != "" && name != ""
  {
    IsDigits(id) && |id| > 0 && IsAlphas(name) && |name| > 0
  }

  // ---- check_id_exists --------------------------------------------------------------------

  /** The loop of check_id_exists over the rows after the header. An empty row raises
      IndexError, which check_id_exists does not catch. */
  function IdScan(rows: seq<Row>, entered: string): Result<bool>
    decreases |rows|
  {
    if rows == [] then Ok(false)
    else if |rows[0]| == 0 then Fail(ShortRow)
    else if Strip(rows[0][0]) == entered then Ok(true)
    else IdScan(rows[1..], entered)
  }

  /** check_id_exists: a missing names.csv is reported and answered with False; the first row is
      skipped; the answer is whether some later row's stripped first field is the entered ID. */
  function IdExists(namesFile: CsvFile, entered: string): Result<bool>
  {
    if namesFile.None? || namesFile.value == [] then Ok(false)
    else IdScan(namesFile.value[1..], entered)
  }

  lemma {:induction false} IdScanFinds(rows: seq<Row>, entered: string)
    requires forall i :: 0 <= i < |rows| ==> |rows[i]| > 0
    ensures IdScan(rows, entered) == Ok(exists i :: 0 <= i < |rows| && Strip(rows[i][0]) == entered)
    decreases |rows|
  {
    if rows != [] {
      IdScanFinds(rows[1..], entered);
      if exists i :: 0 <= i < |rows| && Strip(rows[i][0]) == entered {
        var i :| 0 <= i < |rows| && Strip(rows[i][0]) == entered;
        if i > 0 {
          assert rows[1..][i - 1] == rows[i];
        }
      }
      if exists i :: 0 <= i < |rows[1..]| && Strip(rows[1..][i][0]) == entered {
        var i :| 0 <= i < |rows[1..]| && Strip(rows[1..][i][0]) == entered;
        assert rows[i + 1] == rows[1..][i];
      }
    }
  }

  /** With no blank row after the first, check_id_exists is true exactly when a row other than
      the first has the entered ID as its stripped first field; the first row is never read, so it
      may be anything, even blank. */
  lemma IdExistsIffListed(rows: seq<Row>, entered: string)
    requires forall i :: 1 <= i < |rows| ==> |rows[i]| > 0
    ensures IdExists(Some(rows), entered) == Ok(exists i :: 1 <= i < |rows| && Strip(rows[i][0]) == entered)
  {
    if rows != [] {
      assert forall j :: 0 <= j < |rows[1..]| ==> |rows[1..][j]| > 0 by {
        forall j | 0 <= j < |rows[1..]|
          ensures |rows[1..][j]| > 0
        {
          assert rows[1..][j] == rows[j + 1];
        }
      }
      IdScanFinds(rows[1..], entered);
      if exists i :: 1 <= i < |rows| && Strip(rows[i][0]) == entered {
        var i :| 1 <= i < |rows| && Strip(rows[i][0]) == entered;
        assert rows[1..][i - 1] == rows[i];
      }
    }
  }

  /** check_id_exists as the loop with an early return. */
  method CheckIdExists(namesFile: CsvFile, enteredId: string) returns (r: Result<bool>)
    ensures r == IdExists(namesFile, enteredId)
  {
    if namesFile.None? || namesFile.value == [] {
      return Ok(false);
    }
    var rows := namesFile.value;
    var i := 1;
    while i < |rows|
      invariant 1 <= i <= |rows|
      invariant IdScan(rows[1..], enteredId) == IdScan(rows[i..], enteredId)
    {
      assert rows[i..][1..] == rows[i + 1..];
      if |rows[i]| == 0 {
        return Fail(ShortRow);
      }
      if Strip(rows[i][0]) == enteredId {
        return Ok(true);
      }
      i := i + 1;
    }
    return Ok(false);
  }

  // ---- remove_record_from_csv -------------------------------------------------------------

  /** A row's stripped ID and name equal the (already stripped) targets. */
  predicate MatchesRecord(row: Row, id: string, name: string)
    requires |row| >= 2
  {
    Strip(row[0]) == id && Strip(row[1]) == name
  }

  /** A data row survives unless its stripped ID and name both equal the stripped targets. */
  function KeepsRecord(id: string, name: string): Row -> bool
  {
    row => !(|row| >= 2 && MatchesRecord(row, Strip(id), Strip(name)))
  }

  /** remove_record_from_csv's new file content. It fails, leaving the file as it was, when the
      file is missing (FileNotFoundError), empty (next(reader) raises StopIteration) or has a
      data row with fewer than two fields (IndexError). */
  function RemoveRecord(file: CsvFile, id: string, name: string): Result<seq<Row>>
  {
    if file.None? then Fail(FileNotFound)
    else if file.value == [] then Fail(NoHeader)
    else if !WellFormed(file.value[1..]) then Fail(ShortRow)
    else Ok([file.value[0]] + Filter(file.value[1..], KeepsRecord(id, name)))
  }

  /** When the removal succeeds (no short data row), the header stays first, and a data row is in
      the result exactly when it was in the file and does not match both targets; rows keep their
      relative order. */
  lemma RemoveRecordKeeps(rows: seq<Row>, id: string, name: string, row: Row, before: seq<Row>, after: seq<Row>)
    requires RemoveRecord(Some(rows), id, name).Ok?
    ensures RemoveRecord(Some(rows), id, name).value[0] == rows[0]
    ensures row in RemoveRecord(Some(rows), id, name).value[1..]
        <==> row in rows[1..] && !(Strip(row[0]) == Strip(id) && Strip(row[1]) == Strip(name))
    ensures rows[1..] == before + after ==>
      RemoveRecord(Some(rows), id, name).value[1..] == Filter(before, KeepsRecord(id, name)) + Filter(after, KeepsRecord(id, name))
  {
    var kept := RemoveRecord(Some(rows), id, name).value;
    assert kept[1..] == Filter(rows[1..], KeepsRecord(id, name));
    FilterMembership(rows[1..], KeepsRecord(id, name), row);
    if row in rows[1..] {
      var i :| 0 <= i < |rows[1..]| && rows[1..][i] == row;
      assert |rows[1..][i]| >= 2;
    }
    if rows[1..] == before + after {
      FilterAppend(before, after, KeepsRecord(id, name));
    }
  }

  /** Removing the same record twice is removing it once. */
  lemma RemoveRecordIdempotent(file: CsvFile, id: string, name: string)
    requires RemoveRecord(file, id, name).Ok?
    ensures RemoveRecord(Some(RemoveRecord(file, id, name).value), id, name) == RemoveRecord(file, id, name)
  {
    var rows := file.value;
    var keep := KeepsRecord(id, name);
    var kept := RemoveRecord(file, id, name).value;
    assert kept[1..] == Filter(rows[1..], keep);
    FilterIdempotent(rows[1..], keep);
    forall i | 0 <= i < |kept[1..]|
      ensures |kept[1..][i]| >= 2
    {
      FilterMembership(rows[1..], keep, kept[1..][i]);
    }
    assert [kept[0]] + kept[1..] == kept;
  }

  /** A file without the record is written back unchanged. */
  lemma RemoveAbsentRecord(rows: seq<Row>, id: string, name: string)
    requires rows != [] && WellFormed(rows[1..])
    requires forall i :: 1 <= i < |rows| ==> !(Strip(rows[i][0]) == Strip(id) && Strip(rows[i][1]) == Strip(name))
    ensures RemoveRecord(Some(rows), id, name) == Ok(rows)
  {
    forall i | 0 <= i < |rows[1..]|
      ensures KeepsRecord(id, name)(rows[1..][i])
    {
      assert rows[1..][i] == rows[i + 1];
    }
    FilterKeepsAll(rows[1..], KeepsRecord(id, name));
    assert [rows[0]] + rows[1..] == rows;
  }

  /** The data rows among the first i that survive, collected one row at a time as the loop of
      remove_record_from_csv does. */
  ghost function KeptBefore(data: seq<Row>, i: nat, id: string, name: string): seq<Row>
    requires i <= |data|
  {
    if i == 0 then []
    else KeptBefore(data, i - 1, id, name)
         + (if |data[i - 1]| >= 2 && MatchesRecord(data[i - 1], Strip(id), Strip(name)) then [] else [data[i - 1]])
  }

  /** Collecting row by row is filtering the prefix with KeepsRecord. */
  lemma {:induction false} KeptBeforeIsFilter(data: seq<Row>, i: nat, id: string, name: string)
    requires i <= |data|
    ensures KeptBefore(data, i, id, name) == Filter(data[..i], KeepsRecord(id, name))
  {
    if i > 0 {
      KeptBeforeIsFilter(data, i - 1, id, name);
      assert data[..i][..i - 1] == data[..i - 1];
    }
  }

  /** remove_record_from_csv: build updated_rows with a loop, header first. */
  method RemoveRecordFromCsv(file: CsvFile, idToDelete: string, nameToDelete: string) returns (r: Result<seq<Row>>)
    ensures r == RemoveRecord(file, idToDelete, nameToDelete)
  {
    if file.None? {
      return Fail(FileNotFound);
    }
    var rows := file.value;
    if rows == [] {
      return Fail(NoHeader);
    }
    var id := Strip(idToDelete);
    var name := Strip(nameToDelete);
    var data := rows[1..];
    var updated := [rows[0]];
    var i := 0;
    while i < |data|
      invariant 0 <= i <= |data|
      invariant forall j :: 0 <= j < i ==> |data[j]| >= 2
      invariant updated == [rows[0]] + KeptBefore(data, i, idToDelete, nameToDelete)
    {
      var row := data[i];
      if |row| < 2 {
        return Fail(ShortRow);
      }
      if !MatchesRecord(row, id, name) {
        updated := updated + [row];
      }
      i := i + 1;
    }
    KeptBeforeIsFilter(data, i, idToDelete, nameToDelete);
    assert data[..i] == data;
    assert WellFormed(data);
    return Ok(updated);
  }

  // ---- The combobox of attendance days ------------------------------------------------------

  /** get_attendance_dates: the listing's ".csv" files, in listing order, each with every
      ".csv" occurrence removed. */
  function AttendanceDates(listing: seq<string>): seq<string>
  {
    var files := Filter(listing, (f: string) => EndsWith(f, ".csv"));
    seq(|files|, i requires 0 <= i < |files| => RemoveAll(files[i], ".csv"))
  }

  /** The combobox values refresh_combobox installs. */
  function ComboboxValues(listing: seq<string>): seq<string>
  {
    [SelectDay] + AttendanceDates(listing)
  }

  /** A date is offered exactly when some ".csv" file of the listing yields it. */
  lemma AttendanceDatesMembership(listing: seq<string>, date: string)
    ensures date in AttendanceDates(listing)
        <==> exists f :: f in listing && EndsWith(f, ".csv") && RemoveAll(f, ".csv") == date
  {
    var isCsv := (f: string) => EndsWith(f, ".csv");
    var files := Filter(listing, isCsv);
    if date in AttendanceDates(listing) {
      var i :| 0 <= i < |files| && AttendanceDates(listing)[i] == date;
      FilterMembership(listing, isCsv, files[i]);
    }
    if exists f :: f in listing && EndsWith(f, ".csv") && RemoveAll(f, ".csv") == date {
      var f :| f in listing && EndsWith(f, ".csv") && RemoveAll(f, ".csv") == date;
      FilterMembership(listing, isCsv, f);
      var i :| 0 <= i < |files| && files[i] == f;
      assert AttendanceDates(listing)[i] == date;
    }
  }

  /** Dates keep the listing's order: the dates of a concatenated listing are the concatenation. */
  lemma AttendanceDatesAppend(a: seq<string>, b: seq<string>)
    ensures AttendanceDates(a + b) == AttendanceDates(a) + AttendanceDates(b)
  {
    FilterAppend(a, b, (f: string) => EndsWith(f, ".csv"));
  }

  /** A file named after a date (no '.' in it) followed by ".csv" offers that date. */
  lemma DatedFileOffersDate(d: string)
    requires forall i :: 0 <= i < |d| ==> d[i] != '.'
    ensures AttendanceDates([d + ".csv"]) == [d]
  {
    var isCsv := (f: string) => EndsWith(f, ".csv");
    assert [d + ".csv"][..0] == [];
    assert isCsv(d + ".csv");
    assert Filter([d + ".csv"], isCsv) == [d + ".csv"];
    RemoveCsvSuffix(d);
  }

  // ---- The print image --------------------------------------------------------------------

  /** One draw.text call: its position and text. */
  datatype TextItem = TextItem(x: int, y: int, text: string)

  /** The image create_image_from_records draws: its size and its text items in drawing order. */
  datatype PrintImage = PrintImage(width: int, height: int, items: seq<TextItem>)

  const ImageWidth: int := 400
  const HeaderY: int := 10
  const LineHeight: int := 30
  const ColumnWidth: int := 130
  const Headers: seq<string> := ["ID", "Name", "Time"]

  /** The x coordinate of column `i`. */
  function ColumnX(i: nat): int
  {
    10 + i * ColumnWidth
  }

  /** The items of one line: value `i` at column `i`, all at height `y`. */
  function LineItems(values: seq<string>, y: int): (r: seq<TextItem>)
    ensures |r| == |values|
    ensures forall i :: 0 <= i < |r| ==> r[i] == TextItem(ColumnX(i), y, values[i])
  {
    seq(|values|, i requires 0 <= i < |values| => TextItem(ColumnX(i), y, values[i]))
  }

  /** The items of the records, one line each, the first at `y0` and each next one 30 lower. */
  function RecordItems(records: seq<Row>, y0: int): seq<TextItem>
    decreases |records|
  {
    if records == [] then []
    else
      var n := |records| - 1;
      RecordItems(records[..n], y0) + LineItems(records[n], y0 + LineHeight * n)
  }

  /** The number of values in all the records. */
  function ValueCount(records: seq<Row>): nat
    decreases |records|
  {
    if records == [] then 0 else ValueCount(records[..|records| - 1]) + |records[|records| - 1]|
  }

  /** The image for some records: a header line, one line per record, a blank item after them. */
  function ImageOf(records: seq<Row>): PrintImage
  {
    PrintImage(ImageWidth, 20 + |records| * LineHeight + 30,
      LineItems(Headers, HeaderY) + RecordItems(records, HeaderY + LineHeight)
      + [TextItem(10, HeaderY + LineHeight + LineHeight * |records|, " ")])
  }

  lemma {:induction false} RecordItemsLength(records: seq<Row>, y0: int)
    ensures |RecordItems(records, y0)| == ValueCount(records)
    decreases |records|
  {
    if records != [] {
      RecordItemsLength(records[..|records| - 1], y0);
    }
  }

  /** Value `i` of record `k` is drawn at x = 10 + 130i, y = y0 + 30k, after all values of the
      records before it. */
  lemma {:induction false} RecordItemAt(records: seq<Row>, y0: int, k: nat, i: nat)
    requires k < |records| && i < |records[k]|
    ensures ValueCount(records[..k]) + i < |RecordItems(records, y0)|
    ensures RecordItems(records, y0)[ValueCount(records[..k]) + i] == TextItem(10 + 130 * i, y0 + 30 * k, records[k][i])
    decreases |records|
  {
    var n := |records| - 1;
    RecordItemsLength(records[..n], y0);
    RecordItemsLength(records, y0);
    if k == n {
      assert records[..k] == records[..n];
    } else {
      assert records[..n][..k] == records[..k];
      assert records[..n][k] == records[k];
      RecordItemAt(records[..n], y0, k, i);
    }
  }

  /** Every record line lies between y0 and the last line's height. */
  lemma {:induction false} RecordItemsBetween(records: seq<Row>, y0: int)
    ensures forall t :: t in RecordItems(records, y0) ==> y0 <= t.y <= y0 + LineHeight * (|records| - 1)
    decreases |records|
  {
    if records != [] {
      RecordItemsBetween(records[..|records| - 1], y0);
    }
  }

  /** The image is 50 + 30n high, record k's line is at 40 + 30k, and every item is drawn inside
      the image's height. */
  lemma PrintLayout(records: seq<Row>, k: nat, i: nat)
    requires k < |records| && i < |records[k]|
    ensures ImageOf(records).height == 50 + 30 * |records|
    ensures TextItem(10 + 130 * i, 40 + 30 * k, records[k][i]) in ImageOf(records).items
    ensures forall t :: t in ImageOf(records).items ==> 0 <= t.y < ImageOf(records).height
  {
    var img := ImageOf(records);
    var head := LineItems(Headers, HeaderY);
    var body := RecordItems(records, 40);
    RecordItemAt(records, 40, k, i);
    assert body[ValueCount(records[..k]) + i] in body;
    RecordItemsBetween(records, 40);
    assert img.items == head + body + [TextItem(10, 40 + 30 * |records|, " ")];
    forall t | t in img.items
      ensures 0 <= t.y < img.height
    {
      if t in head {
        var j :| 0 <= j < |head| && head[j] == t;
      }
    }
  }

  /** Drawing one more value of a line. */
  lemma LineItemsStep(values: seq<string>, i: nat, y: int)
    requires i < |values|
    ensures LineItems(values[..i + 1], y) == LineItems(values[..i], y) + [TextItem(10 + i * 130, y, values[i])]
  {
  }

  /** Drawing one more record line. */
  lemma RecordItemsStep(records: seq<Row>, k: nat, y0: int)
    requires k < |records|
    ensures RecordItems(records[..k + 1], y0) == RecordItems(records[..k], y0) + LineItems(records[k], y0 + LineHeight * k)
  {
    assert records[..k + 1][..k] == records[..k];
  }

  /** create_image_from_records: the header loop, the record loop with record_y += 30, and the
      blank padding item. */
  method CreateImageFromRecords(records: seq<Row>) returns (img: PrintImage)
    ensures img == ImageOf(records)
  {
    var height := 20 + |records| * 30 + 30;
    var items: seq<TextItem> := [];
    var h := 0;
    while h < |Headers|
      invariant 0 <= h <= |Headers|
      invariant items == LineItems(Headers[..h], HeaderY)
    {
      LineItemsStep(Headers, h, HeaderY);
      items := items + [TextItem(10 + h * 130, HeaderY, Headers[h])];
      h := h + 1;
    }
    assert Headers[..h] == Headers;
    var header := items;
    var recordY := HeaderY + 30;
    var k := 0;
    while k < |records|
      invariant 0 <= k <= |records|
      invariant recordY == HeaderY + LineHeight + LineHeight * k
      invariant items == header + RecordItems(records[..k], HeaderY + LineHeight)
    {
      var record := records[k];
      var line: seq<TextItem> := [];
      var i := 0;
      while i < |record|
        invariant 0 <= i <= |record|
        invariant line == LineItems(record[..i], recordY)
      {
        LineItemsStep(record, i, recordY);
        line := line + [TextItem(10 + i * 130, recordY, record[i])];
        i := i + 1;
      }
      assert record[..i] == record;
      RecordItemsStep(records, k, HeaderY + LineHeight);
      items := items + line;
      recordY := recordY + 30;
      k := k + 1;
    }
    assert records[..k] == records;
    items := items + [TextItem(10, recordY, " ")];
    img := PrintImage(ImageWidth, height, items);
  }

  // ---- The window -------------------------------------------------------------------------

  /** Where the tree view's rows came from. */
  datatype TreeSource = NoData | NamesList | AttendanceDay(date: string)

  class SmartAttendanceSystem {
    var idText: string
    var nameText: string
    var captureEnabled: bool
    var deleteEnabled: bool
    var attendanceDates: seq<string>
    var comboValue: string
    var treeRows: seq<Row>
    var treeSource: TreeSource

    /** Delete is enabled only while the tree view shows names.csv. */
    predicate DeleteGuarded()
      reads this
    {
      deleteEnabled ==> treeSource == NamesList
    }

    /** The Capture button reflects the entries' current texts. */
    predicate CaptureMatchesFields()
      reads this
    {
      captureEnabled == CaptureAllowed(idText, nameText)
    }

    /** __init__: empty entries, Capture and Delete disabled, today's attendance loaded when its
        file exists (load_today_attendance), then refresh_combobox. */
    constructor (today: string, todaysFile: CsvFile, listing: seq<string>)
      ensures idText == "" && nameText == "" && !captureEnabled && !deleteEnabled
      ensures treeRows == Rows(todaysFile)
      ensures treeSource == if todaysFile.Some? then AttendanceDay(today) else NoData
      ensures attendanceDates == ComboboxValues(listing) && comboValue == SelectDay
      ensures DeleteGuarded() && CaptureMatchesFields()
    {
      idText, nameText := "", "";
      captureEnabled, deleteEnabled := false, false;
      treeRows, treeSource := [], NoData;
      if todaysFile.Some? {
        treeRows, treeSource := todaysFile.value, AttendanceDay(today);
      }
      attendanceDates := ComboboxValues(listing);
      comboValue := SelectDay;
    }

    /** refresh_combobox (also what the five-second timer runs): new values, first one selected. */
    method RefreshCombobox(listing: seq<string>)
      modifies this`attendanceDates, this`comboValue
      ensures attendanceDates == ComboboxValues(listing) && comboValue == SelectDay
    {
      attendanceDates := ComboboxValues(listing);
      comboValue := attendanceDates[0];
    }

    /** check_fields. */
    method CheckFields()
      modifies this`captureEnabled
      ensures CaptureMatchesFields()
    {
      var idFilled := IsDigits(idText) && |idText| > 0;
      var nameFilled := IsAlphas(nameText) && |nameText| > 0;
      captureEnabled := idFilled && nameFilled;
    }

    /** validate_id(%P): accepts digits or empty and then runs check_fields, which reads the
        entry as it is before the keystroke is applied. */
    method ValidateId(newValue: string) returns (ok: bool)
      modifies this`captureEnabled
      ensures ok == IdAccepted(newValue)
      ensures captureEnabled == if ok then CaptureAllowed(idText, nameText) else old(captureEnabled)
    {
      if IsDigits(newValue) || newValue == "" {
        CheckFields();
        return true;
      }
      return false;
    }

    /** validate_name(%P), likewise. */
    method ValidateName(newValue: string) returns (ok: bool)
      modifies this`captureEnabled
      ensures ok == NameAccepted(newValue)
      ensures captureEnabled == if ok then CaptureAllowed(idText, nameText) else old(captureEnabled)
    {
      if IsAlphas(newValue) || newValue == "" {
        CheckFields();
        return true;
      }
      return false;
    }

    /** An edit of the ID entry under validate='key': the entry takes the proposed text only if
        the validator accepts it, after the validator has run. */
    method EditId(newValue: string) returns (ok: bool)
      modifies this`captureEnabled, this`idText
      ensures ok == IdAccepted(newValue)
      ensures idText == if ok then newValue else old(idText)
      ensures captureEnabled == if ok then CaptureAllowed(old(idText), nameText) else old(captureEnabled)
    {
      ok := ValidateId(newValue);
      if ok {
        idText := newValue;
      }
    }

    /** An edit of the name entry under validate='key'. */
    method EditName(newValue: string) returns (ok: bool)
      modifies this`captureEnabled, this`nameText
      ensures ok == NameAccepted(newValue)
      ensures nameText == if ok then newValue else old(nameText)
      ensures captureEnabled == if ok then CaptureAllowed(idText, old(nameText)) else old(captureEnabled)
    {
      ok := ValidateName(newValue);
      if ok {
        nameText := newValue;
      }
    }

    /** validate_id with the Capture rule applied to the proposed text. */
    method ValidateIdProposed(newValue: string) returns (ok: bool)
      modifies this`captureEnabled
      ensures ok == IdAccepted(newValue)
      ensures captureEnabled == if ok then CaptureAllowed(newValue, nameText) else old(captureEnabled)
    {
      ok := IsDigits(newValue) || newValue == "";
      if ok {
        captureEnabled := CaptureAllowed(newValue, nameText);
      }
    }

    /** validate_name with the Capture rule applied to the proposed text. */
    method ValidateNameProposed(newValue: string) returns (ok: bool)
      modifies this`captureEnabled
      ensures ok == NameAccepted(newValue)
      ensures captureEnabled == if ok then CaptureAllowed(idText, newValue) else old(captureEnabled)
    {
      ok := IsAlphas(newValue) || newValue == "";
      if ok {
        captureEnabled := CaptureAllowed(idText, newValue);
      }
    }

    /** An ID edit through the corrected validator: Capture always reflects the entries. */
    method EditIdProposed(newValue: string) returns (ok: bool)
      requires CaptureMatchesFields()
      modifies this`captureEnabled, this`idText
      ensures ok == IdAccepted(newValue)
      ensures idText == if ok then newValue else old(idText)
      ensures CaptureMatchesFields()
    {
      ok := ValidateIdProposed(newValue);
      if ok {
        idText := newValue;
      }
    }

    /** A name edit through the corrected validator: Capture always reflects the entries. */
    method EditNameProposed(newValue: string) returns (ok: bool)
      requires CaptureMatchesFields()
      modifies this`captureEnabled, this`nameText
      ensures ok == NameAccepted(newValue)
      ensures nameText == if ok then newValue else old(nameText)
      ensures CaptureMatchesFields()
    {
      ok := ValidateNameProposed(newValue);
      if ok {
        nameText := newValue;
      }
    }

    /** load_csv_data: a missing file is reported and the tree view keeps its rows; otherwise the
        view is cleared and filled, without the first row when asked. */
    method LoadCsvData(file: CsvFile, source: TreeSource, skipFirstRow: bool)
      modifies this`treeRows, this`treeSource
      ensures file.None? ==> treeRows == old(treeRows) && treeSource == old(treeSource)
      ensures file.Some? ==> (treeSource == source
        && treeRows == if skipFirstRow && file.value != [] then file.value[1..] else file.value)
    {
      if file.None? {
        return;
      }
      var rows := file.value;
      if skipFirstRow && rows != [] {
        rows := rows[1..];
      }
      treeRows, treeSource := rows, source;
    }

    /** show_all_data: reset the combobox and show names.csv without its header. */
    method ShowAllData(namesFile: CsvFile)
      modifies this`comboValue, this`treeRows, this`treeSource
      ensures comboValue == SelectDay
      ensures namesFile.None? ==> treeRows == old(treeRows) && treeSource == old(treeSource)
      ensures namesFile.Some? ==> (treeSource == NamesList
        && treeRows == if namesFile.value != [] then namesFile.value[1..] else [])
      ensures (old(DeleteGuarded()) || namesFile.Some?) ==> DeleteGuarded()
    {
      comboValue := SelectDay;
      LoadCsvData(namesFile, NamesList, true);
    }

    /** The user picks `date` in the combobox and load_attendance_data runs: any day other than
        "Select Day" is loaded and Delete is disabled. */
    method LoadAttendanceData(date: string, file: CsvFile)
      modifies this`comboValue, this`treeRows, this`treeSource, this`deleteEnabled
      ensures comboValue == date
      ensures date == SelectDay ==> (treeRows == old(treeRows) && treeSource == old(treeSource)
        && deleteEnabled == old(deleteEnabled))
      ensures date != SelectDay ==> (!deleteEnabled
        && (file.None? ==> treeRows == old(treeRows) && treeSource == old(treeSource))
        && (file.Some? ==> treeRows == file.value && treeSource == AttendanceDay(date)))
      ensures (old(DeleteGuarded()) || date != SelectDay) ==> DeleteGuarded()
    {
      comboValue := date;
      if date != SelectDay {
        LoadCsvData(file, AttendanceDay(date), false);
        deleteEnabled := false;
      }
    }

    /** on_treeview_select: a non-empty selection enables Delete when the combobox shows
        "Select Day" and otherwise leaves it as it was; an empty selection disables it. */
    method OnTreeviewSelect(selection: seq<Row>)
      modifies this`deleteEnabled
      ensures deleteEnabled == if selection == [] then false
                               else if comboValue == SelectDay then true
                               else old(deleteEnabled)
    {
      if selection != [] {
        if comboValue == SelectDay {
          deleteEnabled := true;
        }
      } else {
        deleteEnabled := false;
      }
    }

    /** on_treeview_select deciding "is the data from names.csv" by where the rows came from. */
    method OnTreeviewSelectFromNames(selection: seq<Row>)
      modifies this`deleteEnabled
      ensures deleteEnabled == (selection != [] && treeSource == NamesList)
      ensures DeleteGuarded()
    {
      deleteEnabled := selection != [] && treeSource == NamesList;
    }

    /** print_data: nothing is drawn or printed when the tree view is empty. */
    method PrintData() returns (job: Option<PrintImage>)
      ensures job.None? <==> treeRows == []
      ensures job.Some? ==> job.value == ImageOf(treeRows)
    {
      var records := treeRows;
      if records == [] {
        return None;
      }
      var img := CreateImageFromRecords(records);
      return Some(img);
    }
  }

  /** At start-up with today's attendance shown, the combobox already reads "Select Day", so
      selecting an attendance row enables Delete, whose handler removes that person from names.csv. */
  method StartupSelectionEnablesDelete() returns (deleteEnabled: bool, shown: TreeSource)
    ensures deleteEnabled && shown == AttendanceDay("2024-05-01")
  {
    var row: Row := ["7", "Ada", "09:00:00"];
    var w := new SmartAttendanceSystem("2024-05-01", Some([row]), ["2024-05-01.csv"]);
    w.OnTreeviewSelect([row]);
    return w.deleteEnabled, w.treeSource;
  }

  /** With the name "Ada" entered, typing the ID "7" leaves Capture disabled although both
      fields are now filled: check_fields saw the ID entry before the keystroke. */
  method FilledFormLeavesCaptureDisabled() returns (captureEnabled: bool, id: string, name: string)
    ensures !captureEnabled && CaptureAllowed(id, name) && id == "7" && name == "Ada"
  {
    var w := new SmartAttendanceSystem("2024-05-01", None, []);
    var _ := w.EditName("Ada");
    var _ := w.EditId("7");
    return w.captureEnabled, w.idText, w.nameText;
  }
}
