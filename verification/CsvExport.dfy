/** The CSV export of the browser's results table (exportCsv in
    app/static/js/log_search.js) and how its file reads back. */
module CsvExport {
  import opened Prelude
  import opened Text

  function Escape(s: string): string {
    if s == "" then ""
    else (if s[0] == '"' then "\"\"" else [s[0]]) + Escape(s[1..])
  }

  /** A cell as exported; a missing value is written as an empty field. */
  function Field(cell: Option<string>): string {
    "\"" + Escape(CellText(cell)) + "\""
  }

  function CellText(cell: Option<string>): string {
    if cell.None? then "" else cell.value
  }

  function Fields(row: seq<Option<string>>): (r: seq<string>)
    ensures |r| == |row| && forall i :: 0 <= i < |r| ==> r[i] == Field(row[i])
  {
    seq(|row|, i requires 0 <= i < |row| => Field(row[i]))
  }

  function Texts(row: seq<Option<string>>): (r: seq<string>)
    ensures |r| == |row| && forall i :: 0 <= i < |r| ==> r[i] == CellText(row[i])
  {
    seq(|row|, i requires 0 <= i < |row| => CellText(row[i]))
  }

  function Line(row: seq<Option<string>>): string {
    JoinWith(",", Fields(row))
  }

  function Lines(rows: seq<seq<Option<string>>>): (r: seq<string>)
    ensures |r| == |rows| && forall i :: 0 <= i < |r| ==> r[i] == Line(rows[i])
  {
    seq(|rows|, i requires 0 <= i < |rows| => Line(rows[i]))
  }

  function Body(rows: seq<seq<Option<string>>>): string {
    JoinWith("\n", Lines(rows))
  }

  /** The exported file: the labels, unquoted, then one line per visible row. */
  function ExportCsv(labels: seq<string>, rows: seq<seq<Option<string>>>): string {
    JoinWith("\n", [JoinWith(",", labels)] + Lines(rows))
  }

  // Reading quoted fields back (section 2 of RFC 4180, with a line feed as line break).

  /** The content of a field whose opening quote has been read, and the rest. */
  function ReadQuoted(s: string): (r: Option<(string, string)>)
    ensures r.Some? ==> |r.value.1| < |s|
    decreases |s|
  {
    if s == "" then None
    else if s[0] != '"' then
      var r := ReadQuoted(s[1..]);
      if r.None? then None else Some(([s[0]] + r.value.0, r.value.1))
    else if |s| > 1 && s[1] == '"' then
      var r := ReadQuoted(s[2..]);
      if r.None? then None else Some((['"'] + r.value.0, r.value.1))
    else Some(("", s[1..]))
  }

  function ReadRecord(s: string): (r: Option<(seq<string>, string)>)
    ensures r.Some? ==> |r.value.1| < |s|
    decreases |s|
  {
    if s == "" || s[0] != '"' then None
    else
      var f := ReadQuoted(s[1..]);
      if f.None? then None
      else
        var (text, rest) := f.value;
        if rest != "" && rest[0] == ',' then
          var more := ReadRecord(rest[1..]);
          if more.None? then None else Some(([text] + more.value.0, more.value.1))
        else Some(([text], rest))
  }

  function ReadRecords(s: string): Option<seq<seq<string>>>
    decreases |s|
  {
    if s == "" then Some([])
    else
      var r := ReadRecord(s);
      if r.None? then None
      else
        var (record, rest) := r.value;
        if rest == "" then Some([record])
        else if rest[0] != '\n' || rest == "\n" then None
        else
          var more := ReadRecords(rest[1..]);
          if more.None? then None else Some([record] + more.value)
  }

  lemma {:induction false} QuotedReadsBack(s: string, rest: string)
    requires rest == "" || rest[0] != '"'
    ensures ReadQuoted(Escape(s) + "\"" + rest) == Some((s, rest))
  {
    var text := Escape(s) + "\"" + rest;
    if s == "" {
      assert text == "\"" + rest;
      assert text[1..] == rest;
    } else {
      QuotedReadsBack(s[1..], rest);
      var tail := Escape(s[1..]) + "\"" + rest;
      if s[0] == '"' {
        assert text == "\"\"" + tail;
        assert text[2..] == tail;
      } else {
        assert text == [s[0]] + tail;
        assert text[1..] == tail;
      }
      assert s == [s[0]] + s[1..];
    }
  }

  predicate EndsRecord(rest: string) {
    rest == "" || rest[0] == '\n'
  }

  lemma FieldReadsBack(cell: Option<string>, rest: string)
    requires rest == "" || rest[0] != '"'
    ensures (Field(cell) + rest)[0] == '"' && ReadQuoted((Field(cell) + rest)[1..]) == Some((CellText(cell), rest))
  {
    QuotedReadsBack(CellText(cell), rest);
    assert (Field(cell) + rest)[1..] == Escape(CellText(cell)) + "\"" + rest;
  }

  lemma LineSplits(row: seq<Option<string>>, rest: string)
    requires |row| > 1
    ensures Line(row) + rest == Field(row[0]) + ("," + (Line(row[1..]) + rest))
    ensures Texts(row) == [CellText(row[0])] + Texts(row[1..])
  {
    assert Fields(row) == [Field(row[0])] + Fields(row[1..]);
    JoinHead(",", Field(row[0]), Fields(row[1..]));
    Reassociate(Field(row[0]), ",", Line(row[1..]), rest);
  }

  lemma Reassociate(a: string, b: string, c: string, d: string)
    ensures (a + b + c) + d == a + (b + (c + d))
  {
  }

  /** A record is its first field, then a comma and the record of the other fields. */
  lemma RecordStep(field: string, text: string, tail: string, more: seq<string>, rest: string)
    requires field != "" && field[0] == '"' && ReadQuoted((field + ("," + tail))[1..]) == Some((text, "," + tail))
    requires ReadRecord(tail) == Some((more, rest))
    ensures ReadRecord(field + ("," + tail)) == Some(([text] + more, rest))
  {
    assert ("," + tail)[1..] == tail;
  }

  lemma {:induction false} LineReadsBack(row: seq<Option<string>>, rest: string)
    requires row != [] && EndsRecord(rest)
    ensures ReadRecord(Line(row) + rest) == Some((Texts(row), rest))
  {
    if |row| == 1 {
      FieldReadsBack(row[0], rest);
      assert Line(row) == Field(row[0]);
      assert Texts(row) == [CellText(row[0])];
    } else {
      var tail := Line(row[1..]) + rest;
      LineReadsBack(row[1..], rest);
      FieldReadsBack(row[0], "," + tail);
      LineSplits(row, rest);
      RecordStep(Field(row[0]), CellText(row[0]), tail, Texts(row[1..]), rest);
    }
  }

  function Matrix(rows: seq<seq<Option<string>>>): (m: seq<seq<string>>)
    ensures |m| == |rows| && forall i :: 0 <= i < |m| ==> m[i] == Texts(rows[i])
  {
    seq(|rows|, i requires 0 <= i < |rows| => Texts(rows[i]))
  }

  lemma LineIsNotEmpty(row: seq<Option<string>>)
    requires row != []
    ensures Line(row) != ""
  {
    assert Fields(row)[0] == Field(row[0]);
  }

  lemma BodySplits(rows: seq<seq<Option<string>>>)
    requires |rows| > 1
    ensures Body(rows) == Line(rows[0]) + ("\n" + Body(rows[1..]))
    ensures Matrix(rows) == [Texts(rows[0])] + Matrix(rows[1..])
  {
    JoinHead("\n", Line(rows[0]), Lines(rows[1..]));
    assert Lines(rows) == [Line(rows[0])] + Lines(rows[1..]);
  }

  lemma RecordsStep(line: string, record: seq<string>, tail: string, more: seq<seq<string>>)
    requires ReadRecord(line + ("\n" + tail)) == Some((record, "\n" + tail))
    requires tail != "" && ReadRecords(tail) == Some(more)
    ensures ReadRecords(line + ("\n" + tail)) == Some([record] + more)
  {
    assert ("\n" + tail)[1..] == tail;
  }

  /** For any number of rows of at least one column, with any characters in the cells,
      the exported lines read back as exactly the matrix of cell texts. */
  lemma {:induction false} ExportedRowsReadBack(rows: seq<seq<Option<string>>>)
    requires forall i :: 0 <= i < |rows| ==> rows[i] != []
    ensures ReadRecords(Body(rows)) == Some(Matrix(rows))
    ensures |Matrix(rows)| == |rows| && forall i :: 0 <= i < |rows| ==>
              |Matrix(rows)[i]| == |rows[i]| && forall j :: 0 <= j < |rows[i]| ==>
                Matrix(rows)[i][j] == if rows[i][j].None? then "" else rows[i][j].value
  {
    if |rows| == 1 {
      LineReadsBack(rows[0], "");
      LineIsNotEmpty(rows[0]);
      assert Body(rows) == Line(rows[0]) == Line(rows[0]) + "";
      assert Matrix(rows) == [Texts(rows[0])];
    } else if |rows| > 1 {
      ExportedRowsReadBack(rows[1..]);
      LineReadsBack(rows[0], "\n" + Body(rows[1..]));
      BodyIsNotEmpty(rows[1..]);
      BodySplits(rows);
      RecordsStep(Line(rows[0]), Texts(rows[0]), Body(rows[1..]), Matrix(rows[1..]));
    }
  }

  lemma BodyIsNotEmpty(rows: seq<seq<Option<string>>>)
    requires rows != [] && rows[0] != []
    ensures Body(rows) != ""
  {
    LineIsNotEmpty(rows[0]);
    assert Lines(rows)[0] == Line(rows[0]);
  }

  // The whole file. Labels are not quoted: a label may be any field name of the log.

  function Header(labels: seq<string>): string {
    JoinWith(",", labels)
  }

  /** What stands before the first line feed, and after it. */
  function FirstLine(file: string): string { file[..IndexOf(file, '\n')] }

  function OtherLines(file: string): string {
    var i := IndexOf(file, '\n');
    if i == |file| then "" else file[i + 1..]
  }

  predicate NoneHas(labels: seq<string>, c: char) {
    forall i :: 0 <= i < |labels| ==> c !in labels[i]
  }

  lemma FileIsHeaderAndBody(labels: seq<string>, rows: seq<seq<Option<string>>>)
    ensures ExportCsv(labels, rows) == Header(labels) + if rows == [] then "" else "\n" + Body(rows)
  {
    var all := [Header(labels)] + Lines(rows);
    assert all[1..] == Lines(rows);
  }

  lemma {:induction false} IndexOfAbsent(s: string, c: char)
    requires c !in s
    ensures IndexOf(s, c) == |s|
  {
    if s == "" {
    } else {
      IndexOfAbsent(s[1..], c);
    }
  }

  /** Joining adds no character but the separator, and loses none. */
  lemma {:induction false} CharsOfJoined(parts: seq<string>, sep: char, c: char)
    requires c != sep
    ensures c in JoinWith([sep], parts) <==> !NoneHas(parts, c)
  {
    if |parts| <= 1 {
    } else {
      CharsOfJoined(parts[1..], sep, c);
      assert forall i :: 1 <= i < |parts| ==> parts[i] == parts[1..][i - 1];
    }
  }

  lemma CleanHeaderCuts(labels: seq<string>, rows: seq<seq<Option<string>>>)
    requires '\n' !in Header(labels)
    ensures FirstLine(ExportCsv(labels, rows)) == Header(labels) && OtherLines(ExportCsv(labels, rows)) == Body(rows)
  {
    var header, file := Header(labels), ExportCsv(labels, rows);
    FileIsHeaderAndBody(labels, rows);
    if rows == [] {
      IndexOfAbsent(header, '\n');
    } else {
      assert "\n" == ['\n'];
      IndexOfHead(header, '\n', Body(rows));
      assert file == header + ['\n'] + Body(rows);
    }
  }

  /** The exported file read by lines: its first line splits at commas into the labels
      and the rest reads back as the matrix of cell texts, if and only if no label
      contains a comma or a line feed. */
  lemma FileReadsBackByLines(labels: seq<string>, rows: seq<seq<Option<string>>>)
    requires labels != [] && forall i :: 0 <= i < |rows| ==> rows[i] != []
    ensures var file := ExportCsv(labels, rows);
            SplitOn(FirstLine(file), ',') == labels && ReadRecords(OtherLines(file)) == Some(Matrix(rows)) <==>
              NoneHas(labels, ',') && NoneHas(labels, '\n')
  {
    var head := FirstLine(ExportCsv(labels, rows));
    assert "," == [','];
    CharsOfJoined(labels, ',', '\n');
    if NoneHas(labels, ',') && NoneHas(labels, '\n') {
      CleanHeaderCuts(labels, rows);
      SplitOfJoined(labels, ',');
      ExportedRowsReadBack(rows);
    }
    if SplitOn(head, ',') == labels {
      SplitJoins(head, ',');
      assert '\n' !in Header(labels);
    }
  }

  /** Two files that do not read back: a comma in a label, and a line feed. */
  lemma CommaBreaksTheHeader()
    ensures SplitOn(FirstLine(ExportCsv(["a,b"], [[Some("x")]])), ',') == ["a", "b"]
  {
    CharsOfJoined(["a,b"], ',', '\n');
    assert "," == [','];
    assert '\n' !in "a,b" && NoneHas(["a,b"], '\n');
    CleanHeaderCuts(["a,b"], [[Some("x")]]);
    assert JoinWith([','], ["a", "b"]) == "a,b";
    SplitOfJoined(["a", "b"], ',');
  }

  lemma LineFeedBreaksTheHeader()
    ensures var file := ExportCsv(["a\nb"], [[Some("x")]]);
            SplitOn(FirstLine(file), ',') == ["a"] && ReadRecords(OtherLines(file)) == None
  {
    var file := ExportCsv(["a\nb"], [[Some("x")]]);
    FileIsHeaderAndBody(["a\nb"], [[Some("x")]]);
    assert "\n" == ['\n'];
    var tail := "b" + "\n" + Body([[Some("x")]]);
    assert file == "a" + ['\n'] + tail;
    IndexOfHead("a", '\n', tail);
    assert OtherLines(file) == tail && FirstLine(file) == "a";
    SplitOfJoined(["a"], ',');
    assert ReadRecord(tail) == None;
  }

  // The same file under the rules for quoted and unquoted fields together: a field that
  // does not start with a double quote runs to the next comma or line feed and may not
  // contain a double quote.

  predicate IsSpecial(c: char) { c == ',' || c == '\n' || c == '"' }

  /** Characters before the first special one. */
  function BareLen(s: string): (n: nat)
    ensures n <= |s| && (n < |s| ==> IsSpecial(s[n]))
    ensures forall i :: 0 <= i < n ==> !IsSpecial(s[i])
  {
    if s == "" || IsSpecial(s[0]) then 0 else 1 + BareLen(s[1..])
  }

  function ReadField(s: string): (r: Option<(string, string)>)
    ensures r.Some? ==> |r.value.1| <= |s|
  {
    if s != "" && s[0] == '"' then ReadQuoted(s[1..])
    else
      var n := BareLen(s);
      if n < |s| && s[n] == '"' then None else Some((s[..n], s[n..]))
  }

  function ReadFields(s: string): (r: Option<(seq<string>, string)>)
    ensures r.Some? ==> |r.value.1| <= |s|
    decreases |s|
  {
    var f := ReadField(s);
    if f.None? then None
    else
      var (text, rest) := f.value;
      if rest != "" && rest[0] == ',' then
        var more := ReadFields(rest[1..]);
        if more.None? then None else Some(([text] + more.value.0, more.value.1))
      else Some(([text], rest))
  }

  function ReadFile(s: string): Option<seq<seq<string>>>
    decreases |s|
  {
    var r := ReadFields(s);
    if r.None? then None
    else
      var (record, rest) := r.value;
      if rest == "" then Some([record])
      else if rest[0] != '\n' then None
      else
        var more := ReadFile(rest[1..]);
        if more.None? then None else Some([record] + more.value)
  }

  /** Records of quoted fields read the same under these rules. */
  lemma {:induction false} QuotedRecordIsRecord(s: string)
    requires ReadRecord(s).Some?
    ensures ReadFields(s) == ReadRecord(s)
    decreases |s|
  {
    var (_, rest) := ReadQuoted(s[1..]).value;
    if rest != "" && rest[0] == ',' {
      QuotedRecordIsRecord(rest[1..]);
    }
  }

  lemma {:induction false} QuotedFileIsFile(s: string)
    requires s != "" && ReadRecords(s).Some?
    ensures ReadFile(s) == ReadRecords(s)
    decreases |s|
  {
    QuotedRecordIsRecord(s);
    var (_, rest) := ReadRecord(s).value;
    if rest != "" {
      QuotedFileIsFile(rest[1..]);
    }
  }

  predicate Bare(title: string) {
    forall c :: c in title ==> !IsSpecial(c)
  }

  /** A reader that has passed an opening quote and `m` more quotes of a text never
      finds that the field's content is the text with those quotes. */
  lemma {:induction false} QuotedTextDiffers(text: string, rest: string, m: nat)
    requires rest == "" || rest[0] != '"'
    requires m > 0 && ReadQuoted(text + rest).Some?
    ensures ReadQuoted(text + rest).value.0 != Quotes(m) + text
    decreases |text|
  {
    var s := text + rest;
    var content := ReadQuoted(s).value.0;
    assert (Quotes(m) + text)[0] == '"';
    if text == "" {
      assert s == rest;
    } else if text[0] == '"' && |s| > 1 && s[1] == '"' {
      assert |text| > 1 && text[1] == '"';
      var tail := text[2..];
      assert s[2..] == tail + rest;
      QuotedTextDiffers(tail, rest, m + 1);
      assert text == "\"\"" + tail;
      assert (Quotes(m) + text)[1..] == Quotes(m + 1) + tail;
      assert content[1..] == ReadQuoted(tail + rest).value.0;
    }
  }

  function Quotes(m: nat): string {
    seq(m, _ => '"')
  }

  lemma {:induction false} BareLenOf(title: string, rest: string)
    requires Bare(title) && (rest == "" || IsSpecial(rest[0]))
    ensures BareLen(title + rest) == |title|
  {
    if title == "" {
      assert title + rest == rest;
    } else {
      assert (title + rest)[1..] == title[1..] + rest;
      BareLenOf(title[1..], rest);
    }
  }

  /** What is read up to a comma or a line feed is the label only if it is bare. */
  lemma LabelReadsOnlyIfBare(title: string, rest: string)
    requires rest == "" || rest[0] == ',' || rest[0] == '\n'
    requires ReadField(title + rest).Some? && ReadField(title + rest).value.0 == title
    ensures Bare(title)
  {
    var s := title + rest;
    if !Bare(title) && title[0] == '"' {
      var text := title[1..];
      assert s[1..] == text + rest && title == Quotes(1) + text;
      QuotedTextDiffers(text, rest, 1);
    }
  }

  /** A label reads as itself exactly when it needs no quotes. */
  lemma LabelReads(title: string, rest: string)
    requires rest == "" || rest[0] == ',' || rest[0] == '\n'
    ensures Bare(title) ==> ReadField(title + rest) == Some((title, rest))
    ensures ReadField(title + rest).Some? && ReadField(title + rest).value.0 == title ==> Bare(title)
  {
    if Bare(title) {
      BareLenOf(title, rest);
      assert (title + rest)[..|title|] == title && (title + rest)[|title|..] == rest;
    } else if ReadField(title + rest).Some? && ReadField(title + rest).value.0 == title {
      LabelReadsOnlyIfBare(title, rest);
    }
  }

  lemma HeaderSplits(labels: seq<string>, rest: string)
    requires |labels| > 1
    ensures Header(labels) + rest == labels[0] + ("," + (Header(labels[1..]) + rest))
  {
  }

  lemma FieldsStep(title: string, tail: string)
    requires ReadField(title + ("," + tail)) == Some((title, "," + tail))
    ensures ReadFields(title + ("," + tail)) ==
              if ReadFields(tail).None? then None
              else Some(([title] + ReadFields(tail).value.0, ReadFields(tail).value.1))
  {
    assert ("," + tail)[1..] == tail;
  }

  lemma {:induction false} BareHeaderReads(labels: seq<string>, rest: string)
    requires labels != [] && EndsRecord(rest) && forall i :: 0 <= i < |labels| ==> Bare(labels[i])
    ensures ReadFields(Header(labels) + rest) == Some((labels, rest))
  {
    if |labels| == 1 {
      LabelReads(labels[0], rest);
      assert labels == [labels[0]];
    } else {
      var tail := Header(labels[1..]) + rest;
      BareHeaderReads(labels[1..], rest);
      LabelReads(labels[0], "," + tail);
      HeaderSplits(labels, rest);
      FieldsStep(labels[0], tail);
      assert labels == [labels[0]] + labels[1..];
    }
  }

  lemma {:induction false} OnlyBareHeaderReads(labels: seq<string>, rest: string)
    requires labels != [] && EndsRecord(rest)
    requires ReadFields(Header(labels) + rest).Some? && ReadFields(Header(labels) + rest).value.0 == labels
    ensures forall i :: 0 <= i < |labels| ==> Bare(labels[i])
  {
    if |labels| == 1 {
      LabelReads(labels[0], rest);
    } else {
      var tail := Header(labels[1..]) + rest;
      HeaderSplits(labels, rest);
      assert ReadField(labels[0] + ("," + tail)).value.0 == labels[0];
      LabelReads(labels[0], "," + tail);
      FieldsStep(labels[0], tail);
      assert labels[1..] == ReadFields(tail).value.0;
      OnlyBareHeaderReads(labels[1..], rest);
      assert forall i :: 1 <= i < |labels| ==> labels[i] == labels[1..][i - 1];
    }
  }

  /** The exported file read with both kinds of fields: it is the labels followed by the
      matrix if and only if no label contains a comma, a line feed or a double quote. */
  lemma FileReadsBackByFields(labels: seq<string>, rows: seq<seq<Option<string>>>)
    requires labels != [] && forall i :: 0 <= i < |rows| ==> rows[i] != []
    ensures ReadFile(ExportCsv(labels, rows)) == Some([labels] + Matrix(rows)) <==>
              forall i :: 0 <= i < |labels| ==> Bare(labels[i])
  {
    var rest := if rows == [] then "" else "\n" + Body(rows);
    FileIsHeaderAndBody(labels, rows);
    if forall i :: 0 <= i < |labels| ==> Bare(labels[i]) {
      BareHeaderReads(labels, rest);
      if rows == [] {
        assert [labels] + Matrix(rows) == [labels];
      } else {
        ExportedRowsReadBack(rows);
        BodyIsNotEmpty(rows);
        QuotedFileIsFile(Body(rows));
        assert rest[1..] == Body(rows);
      }
    } else if ReadFile(ExportCsv(labels, rows)) == Some([labels] + Matrix(rows)) {
      assert ([labels] + Matrix(rows))[0] == labels;
      OnlyBareHeaderReads(labels, rest);
    }
  }

  /** A label in quotes loses them; a quote inside a label makes the file unreadable. */
  lemma QuoteBreaksTheFields()
    ensures ReadFile(ExportCsv(["\"a\""], [])) == Some([["a"]])
    ensures ReadFile(ExportCsv(["a\"b"], [])) == None
  {
    FileIsHeaderAndBody(["\"a\""], []);
    FileIsHeaderAndBody(["a\"b"], []);
    QuotedReadsBack("a", "");
    assert Escape("a") + "\"" + "" == "\"a\""[1..];
    assert ReadField("\"a\"") == Some(("a", ""));
    assert BareLen("a\"b") == 1;
  }
}
