/** Small shared vocabulary: optional values, CSV rows and files that may be absent. */
module Common {

  datatype Option<+T> = None | Some(value: T)

  /** One line of a CSV file as Python's csv.reader yields it: a list of fields. */
  type Row = seq<string>

  /** A CSV file on disk: `None` when the file does not exist, otherwise its rows in order. */
  type CsvFile = Option<seq<Row>>

  /** Every row has at least two fields (an ID or name column at index 0 and 1). */
  predicate WellFormed(rows: seq<Row>)
  {
    forall i :: 0 <= i < |rows| ==> |rows[i]| >= 2
  }

  /** The exceptions the CSV-handling code can raise on a file. */
  datatype CsvError = FileNotFound | NoHeader | ShortRow

  datatype Result<+T> = Ok(value: T) | Fail(error: CsvError)

  /** The rows of a file; a missing file reads as no rows. */
  function Rows(f: CsvFile): seq<Row>
  {
    if f.Some? then f.value else []
  }

  /** The file after `row` is appended in mode 'a' (which creates a missing file). */
  function Appended(f: CsvFile, row: Row): (g: CsvFile)
    ensures g.Some? && Rows(g) == Rows(f) + [row]
  {
    Some(Rows(f) + [row])
  }

  /** The elements of `s` that `keep` accepts, in their original order (a Python list comprehension with an `if`). */
  function Filter<T>(s: seq<T>, keep: T -> bool): (r: seq<T>)
    ensures |r| <= |s|
    decreases |s|
  {
    if s == [] then []
    else Filter(s[..|s| - 1], keep) + (if keep(s[|s| - 1]) then [s[|s| - 1]] else [])
  }

  /** Filtering distributes over concatenation, so the kept elements keep their relative order. */
  lemma {:induction false} FilterAppend<T>(a: seq<T>, b: seq<T>, keep: T -> bool)
    ensures Filter(a + b, keep) == Filter(a, keep) + Filter(b, keep)
    decreases |b|
  {
    if b == [] {
      assert a + b == a;
    } else {
      var n := |b| - 1;
      assert (a + b)[..|a + b| - 1] == a + b[..n];
      assert (a + b)[|a + b| - 1] == b[n];
      FilterAppend(a, b[..n], keep);
    }
  }

  /** An element survives exactly when it was there and is accepted. */
  lemma {:induction false} FilterMembership<T>(s: seq<T>, keep: T -> bool, x: T)
    ensures x in Filter(s, keep) <==> x in s && keep(x)
    decreases |s|
  {
    if s != [] {
      var n := |s| - 1;
      FilterMembership(s[..n], keep, x);
      assert s == s[..n] + [s[n]];
    }
  }

  /** Nothing is dropped when everything is accepted. */
  lemma {:induction false} FilterKeepsAll<T>(s: seq<T>, keep: T -> bool)
    requires forall i :: 0 <= i < |s| ==> keep(s[i])
    ensures Filter(s, keep) == s
    decreases |s|
  {
    if s != [] {
      FilterKeepsAll(s[..|s| - 1], keep);
    }
  }

  /** Everything that survives is accepted. */
  lemma FilterAccepted<T>(s: seq<T>, keep: T -> bool)
    ensures forall i :: 0 <= i < |Filter(s, keep)| ==> keep(Filter(s, keep)[i])
  {
    forall i | 0 <= i < |Filter(s, keep)|
      ensures keep(Filter(s, keep)[i])
    {
      FilterMembership(s, keep, Filter(s, keep)[i]);
    }
  }

  /** Filtering twice with the same test is filtering once. */
  lemma FilterIdempotent<T>(s: seq<T>, keep: T -> bool)
    ensures Filter(Filter(s, keep), keep) == Filter(s, keep)
  {
    FilterAccepted(s, keep);
    FilterKeepsAll(Filter(s, keep), keep);
  }
}
