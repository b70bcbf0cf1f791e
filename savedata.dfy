/** Exporting a user's data as CSV (SaveDataActivity): the header, one line per
    session/pot row with NULL for missing values, the file name built from the
    user id, the e-mail and a timestamp, and the guard that stops an export when
    no user is signed in. */
module SaveData {
  import opened Common

  /** The seven columns of the export, in order. */
  const COLUMNS: seq<string> := ["user_id", "email", "session_number", "pot_id", "wheat_spikes", "start_time", "end_time"]

  /** A row of the export query; None is SQL NULL. user_id and session_number are
      never NULL in the sessions table. */
  datatype ExportRow = ExportRow(
    userId: int,
    email: Option<string>,
    sessionNumber: int,
    potId: Option<string>,
    wheatSpikes: Option<int>,
    startTime: Option<string>,
    endTime: Option<string>)

  /** The parts joined with sep between each neighbour. */
  function Join(parts: seq<string>, sep: char): string
    requires |parts| >= 1
  {
    if |parts| == 1 then parts[0] else parts[0] + [sep] + Join(parts[1..], sep)
  }

  /** The pieces of s between occurrences of sep, empty pieces included. */
  function Split(s: string, sep: char): (pieces: seq<string>)
    ensures |pieces| >= 1
  {
    if s == [] then [""]
    else if s[0] == sep then [""] + Split(s[1..], sep)
    else
      var rest := Split(s[1..], sep);
      [[s[0]] + rest[0]] + rest[1..]
  }

  /** A piece without separators splits to itself. */
  lemma {:induction false} SplitPlain(p: string, sep: char)
    requires sep !in p
    ensures Split(p, sep) == [p]
  {
    if p != [] {
      assert sep !in p[1..] && p[0] != sep;
      SplitPlain(p[1..], sep);
      assert [p[0]] + p[1..] == p;
    }
  }

  /** A separator-free piece in front splits off as the first piece. */
  lemma {:induction false} SplitFirstPiece(p: string, sep: char, rest: string)
    requires sep !in p
    ensures Split(p + [sep] + rest, sep) == [p] + Split(rest, sep)
  {
    if p == [] {
      assert p + [sep] + rest == [sep] + rest;
      assert ([sep] + rest)[1..] == rest;
    } else {
      assert sep !in p[1..];
      SplitFirstPiece(p[1..], sep, rest);
      assert (p + [sep] + rest)[1..] == p[1..] + [sep] + rest;
      assert [p[0]] + p[1..] == p;
    }
  }

  /** Splitting undoes joining when no part holds the separator. */
  lemma {:induction false} SplitInvertsJoin(parts: seq<string>, sep: char)
    requires |parts| >= 1
    requires forall i :: 0 <= i < |parts| ==> sep !in parts[i]
    ensures Split(Join(parts, sep), sep) == parts
  {
    if |parts| == 1 {
      SplitPlain(parts[0], sep);
    } else {
      SplitInvertsJoin(parts[1..], sep);
      SplitFirstPiece(parts[0], sep, Join(parts[1..], sep));
      assert [parts[0]] + parts[1..] == parts;
    }
  }

  /** Joining from position i on: the part there, then the rest. */
  lemma JoinFrom(f: seq<string>, sep: char, i: nat)
    requires i + 1 < |f|
    ensures Join(f[i..], sep) == f[i] + [sep] + Join(f[i + 1..], sep)
  {
    assert f[i..][1..] == f[i + 1..];
  }

  /** Seven parts joined, written out. */
  lemma JoinSeven(f: seq<string>, sep: char)
    requires |f| == 7
    ensures Join(f, sep) == f[0] + [sep] + f[1] + [sep] + f[2] + [sep] + f[3] + [sep] + f[4] + [sep] + f[5] + [sep] + f[6]
  {
    var s6 := Join(f[6..], sep);
    assert s6 == f[6];
    JoinFrom(f, sep, 5);
    JoinFrom(f, sep, 4);
    JoinFrom(f, sep, 3);
    JoinFrom(f, sep, 2);
    JoinFrom(f, sep, 1);
    JoinFrom(f, sep, 0);
    assert f[0..] == f;
  }

  /** Line 115: the header line, the column names joined by commas and ended by a
      newline. */
  const CSV_HEADER: string := Join(COLUMNS, ',') + "\n"

  /** The column names are made of lowercase letters and '_' only. */
  lemma ColumnsAvoid(c: char)
    requires !('a' <= c <= 'z') && c != '_'
    ensures forall i :: 0 <= i < |COLUMNS| ==> c !in COLUMNS[i]
  {
    assert c !in COLUMNS[0];
    assert c !in COLUMNS[1];
    assert c !in COLUMNS[2];
    assert c !in COLUMNS[3];
    assert c !in COLUMNS[4];
    assert c !in COLUMNS[5];
    assert c !in COLUMNS[6];
  }

  /** The header splits back into exactly the seven column names. */
  lemma HeaderHasSevenColumns()
    ensures |CSV_HEADER| >= 1 && CSV_HEADER[|CSV_HEADER| - 1] == '\n'
    ensures Split(CSV_HEADER[..|CSV_HEADER| - 1], ',') == COLUMNS
    ensures |COLUMNS| == 7
  {
    assert CSV_HEADER[..|CSV_HEADER| - 1] == Join(COLUMNS, ',');
    ColumnsAvoid(',');
    SplitInvertsJoin(COLUMNS, ',');
  }

  /** A nullable text column: its value, or NULL. */
  function TextOrNull(value: Option<string>): string
  {
    if value.Some? then value.value else "NULL"
  }

  /** The wheat_spikes column: the count, or NULL when cursor.isNull says so. */
  function CountOrNull(value: Option<int>): string
  {
    if value.Some? then IntToString(value.value) else "NULL"
  }

  /** The seven column texts of a row, in header order. */
  function Fields(r: ExportRow): (fields: seq<string>)
    ensures |fields| == |COLUMNS|
  {
    [IntToString(r.userId), TextOrNull(r.email), IntToString(r.sessionNumber), TextOrNull(r.potId),
     CountOrNull(r.wheatSpikes), TextOrNull(r.startTime), TextOrNull(r.endTime)]
  }

  /** Lines 128-134: the line written for one row; each nullable column is its
      value or NULL, followed by the comma (the newline after end_time). */
  function FormatRow(r: ExportRow): string
  {
    IntToString(r.userId) + "," +
    TextOrNull(r.email) + "," +
    IntToString(r.sessionNumber) + "," +
    TextOrNull(r.potId) + "," +
    CountOrNull(r.wheatSpikes) + "," +
    TextOrNull(r.startTime) + "," +
    TextOrNull(r.endTime) + "\n"
  }

  /** Each line is the row's seven column texts joined by commas, ending in one
      newline; a missing value reads NULL. */
  lemma FormatRowIsJoinedFields(r: ExportRow)
    ensures FormatRow(r) == Join(Fields(r), ',') + "\n"
  {
    JoinSeven(Fields(r), ',');
  }

  /** None of the text values of a row holds the character c. */
  predicate TextsAvoid(r: ExportRow, c: char)
  {
    && (r.email.Some? ==> c !in r.email.value)
    && (r.potId.Some? ==> c !in r.potId.value)
    && (r.startTime.Some? ==> c !in r.startTime.value)
    && (r.endTime.Some? ==> c !in r.endTime.value)
  }

  /** A column text holds no c when c is neither a digit, '-' nor a letter of NULL
      and the row's own texts avoid it. */
  lemma FieldsAvoid(r: ExportRow, c: char)
    requires TextsAvoid(r, c)
    requires !IsDigit(c) && c != '-' && c !in "NULL"
    ensures forall i :: 0 <= i < |Fields(r)| ==> c !in Fields(r)[i]
  {
    forall i | 0 <= i < |Fields(r)|
      ensures c !in Fields(r)[i]
    {
      if i == 0 || i == 2 || (i == 4 && r.wheatSpikes.Some?) {
        var s := if i == 0 then IntToString(r.userId)
                 else if i == 2 then IntToString(r.sessionNumber)
                 else IntToString(r.wheatSpikes.value);
        assert Fields(r)[i] == s;
        assert forall k :: 0 <= k < |s| ==> s[k] != c;
      }
    }
  }

  /** When no value holds a comma, a line splits back into exactly its seven
      column texts. */
  lemma RowSplitsIntoSevenFields(r: ExportRow)
    requires TextsAvoid(r, ',')
    ensures |FormatRow(r)| >= 1 && FormatRow(r)[|FormatRow(r)| - 1] == '\n'
    ensures Split(FormatRow(r)[..|FormatRow(r)| - 1], ',') == Fields(r)
    ensures |Split(FormatRow(r)[..|FormatRow(r)| - 1], ',')| == 7
  {
    FormatRowIsJoinedFields(r);
    assert FormatRow(r)[..|FormatRow(r)| - 1] == Join(Fields(r), ',');
    FieldsAvoid(r, ',');
    SplitInvertsJoin(Fields(r), ',');
  }

  /** Lines written for a sequence of rows, in cursor order. */
  function Lines(rows: seq<ExportRow>): string
  {
    if rows == [] then "" else Lines(rows[..|rows| - 1]) + FormatRow(rows[|rows| - 1])
  }

  /** The whole file: the header, then one line per row. */
  function CsvText(rows: seq<ExportRow>): string
  {
    CSV_HEADER + Lines(rows)
  }

  lemma AppendAssociative(a: string, b: string, c: string)
    ensures (a + b) + c == a + (b + c)
  {
  }

  lemma LinesStep(rows: seq<ExportRow>, i: nat)
    requires i < |rows|
    ensures Lines(rows[..i + 1]) == Lines(rows[..i]) + FormatRow(rows[i])
  {
    assert rows[..i + 1][..i] == rows[..i];
  }

  /** writeCsvData (lines 101-141): the header, then each cursor row's line. */
  method WriteCsvData(rows: seq<ExportRow>) returns (written: string)
    ensures written == CsvText(rows)
  {
    written := CSV_HEADER;
    assert Lines(rows[..0]) == [];
    for i := 0 to |rows|
      invariant written == CSV_HEADER + Lines(rows[..i])
    {
      var line := FormatRow(rows[i]);
      LinesStep(rows, i);
      AppendAssociative(CSV_HEADER, Lines(rows[..i]), line);
      written := written + line;
    }
    assert rows[..|rows|] == rows;
  }

  function NewlineCount(s: string): nat
  {
    if s == [] then 0 else NewlineCount(s[..|s| - 1]) + (if s[|s| - 1] == '\n' then 1 else 0)
  }

  lemma {:induction false} NewlineCountAppend(a: string, b: string)
    ensures NewlineCount(a + b) == NewlineCount(a) + NewlineCount(b)
  {
    if b != [] {
      assert (a + b)[..|a + b| - 1] == a + b[..|b| - 1];
      NewlineCountAppend(a, b[..|b| - 1]);
    } else {
      assert a + b == a;
    }
  }

  /** A string without newlines has none to count. */
  lemma {:induction false} NoNewlines(s: string)
    requires '\n' !in s
    ensures NewlineCount(s) == 0
  {
    if s != [] {
      assert '\n' !in s[..|s| - 1];
      NoNewlines(s[..|s| - 1]);
    }
  }

  /** A row whose texts hold no newline is exactly one line. */
  lemma OneLinePerRow(r: ExportRow)
    requires TextsAvoid(r, '\n')
    ensures NewlineCount(FormatRow(r)) == 1
  {
    FormatRowIsJoinedFields(r);
    var joined := Join(Fields(r), ',');
    FieldsAvoid(r, '\n');
    JoinAvoids(Fields(r), ',', '\n');
    NoNewlines(joined);
    NewlineCountAppend(joined, "\n");
  }

  /** Joining parts that avoid c with a separator other than c avoids c. */
  lemma {:induction false} JoinAvoids(parts: seq<string>, sep: char, c: char)
    requires |parts| >= 1 && sep != c
    requires forall i :: 0 <= i < |parts| ==> c !in parts[i]
    ensures c !in Join(parts, sep)
  {
    if |parts| > 1 {
      JoinAvoids(parts[1..], sep, c);
    }
  }

  lemma HeaderIsOneLine()
    ensures NewlineCount(CSV_HEADER) == 1
  {
    var line := Join(COLUMNS, ',');
    ColumnsAvoid('\n');
    JoinAvoids(COLUMNS, ',', '\n');
    NoNewlines(line);
    NewlineCountAppend(line, "\n");
  }

  /** When no value holds a newline, the file has one line for the header and one
      per row. */
  lemma {:induction false} CsvLineCount(rows: seq<ExportRow>)
    requires forall i :: 0 <= i < |rows| ==> TextsAvoid(rows[i], '\n')
    ensures NewlineCount(CsvText(rows)) == |rows| + 1
  {
    if rows == [] {
      HeaderIsOneLine();
      assert CsvText(rows) == CSV_HEADER;
    } else {
      var init := rows[..|rows| - 1];
      CsvLineCount(init);
      OneLinePerRow(rows[|rows| - 1]);
      LinesStep(rows, |rows| - 1);
      assert rows[..|rows| - 1] == init;
      NewlineCountAppend(CSV_HEADER, Lines(init));
      NewlineCountAppend(Lines(init), FormatRow(rows[|rows| - 1]));
      NewlineCountAppend(CSV_HEADER, Lines(rows));
    }
  }

  /** Line 66: email.replace(".", "_"). */
  function FormattedEmail(email: string): (formatted: string)
    ensures |formatted| == |email|
    ensures '.' !in formatted
    ensures forall i :: 0 <= i < |email| && email[i] != '.' ==> formatted[i] == email[i]
    ensures forall i :: 0 <= i < |email| && email[i] == '.' ==> formatted[i] == '_'
  {
    if email == [] then []
    else [if email[0] == '.' then '_' else email[0]] + FormattedEmail(email[1..])
  }

  /** Formatting an already formatted address changes nothing. */
  lemma FormattedEmailIdempotent(email: string)
    ensures FormattedEmail(FormattedEmail(email)) == FormattedEmail(email)
  {
  }

  /** Line 67: "%d_%s_%s.csv" of the user id, the formatted e-mail and the time. */
  function FileName(userId: int, email: string, timestamp: string): (name: string)
    ensures |name| >= 4 && name[|name| - 4..] == ".csv"
  {
    IntToString(userId) + "_" + FormattedEmail(email) + "_" + timestamp + ".csv"
  }

  /** The user id is what comes before the first '_', so two users never share a
      file name. */
  lemma FileNameIdentifiesUser(u1: int, e1: string, t1: string, u2: int, e2: string, t2: string)
    ensures FileName(u1, e1, t1) == FileName(u2, e2, t2) ==> u1 == u2
  {
    var s1 := IntToString(u1);
    var s2 := IntToString(u2);
    var n1 := FileName(u1, e1, t1);
    var n2 := FileName(u2, e2, t2);
    if n1 == n2 {
      assert n1[|s1|] == '_' && n2[|s2|] == '_';
      assert forall k :: 0 <= k < |s1| ==> n1[k] == s1[k] && n1[k] != '_';
      assert forall k :: 0 <= k < |s2| ==> n2[k] == s2[k] && n2[k] != '_';
      assert |s1| == |s2|;
      assert s1 == n1[..|s1|] && s2 == n2[..|s2|];
      IntToStringInjective(u1, u2);
    }
  }

  /** What exportDataInternal ends in. */
  datatype ExportOutcome =
    | UserDataNotFound
    | FileNotCreated
    | Exported(fileName: string, contents: string)

  /** exportDataInternal (lines 53-99). The stored user id (-1 when absent) and
      e-mail, the time, whether the media store handed back a file, and the
      query's rows are parameters. */
  method ExportDataInternal(userId: int, email: Option<string>, timestamp: string, fileCreated: bool,
                            rows: seq<ExportRow>)
    returns (outcome: ExportOutcome)
    ensures outcome.UserDataNotFound? <==> userId == -1 || email.None?
    ensures outcome.FileNotCreated? <==> userId != -1 && email.Some? && !fileCreated
    ensures outcome.Exported? ==> outcome.fileName == FileName(userId, email.value, timestamp)
    ensures outcome.Exported? ==> outcome.contents == CsvText(rows)
  {
    if userId == -1 || email.None? {
      return UserDataNotFound;
    }
    var fileName := FileName(userId, email.value, timestamp);
    if !fileCreated {
      return FileNotCreated;
    }
    var contents := WriteCsvData(rows);
    outcome := Exported(fileName, contents);
  }
}
