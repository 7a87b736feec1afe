/** Files as the export writes them: a header row and data rows, every
    field quoted, one row per line; and what the parser makes of them. */
module Export {
  import opened Outcomes
  import opened Usage
  import opened Ingest

  /** A line the line splitter and the content checks pass through
      untouched: no line feed, no NUL, and not blank, as its first character
      is not white space. */
  predicate CleanLine(l: string)
  {
    '\n' !in l && '\0' !in l && |l| >= 1 && !IsSpace(l[0])
  }

  /** A field without control characters. */
  predicate Plain(f: string)
  {
    forall i :: 0 <= i < |f| ==> f[i] >= ' '
  }

  /** A row of plain fields is one clean line. */
  lemma PlainRow(fields: seq<string>)
    requires |fields| >= 1
    requires forall j :: 0 <= j < |fields| ==> Plain(fields[j])
    ensures CleanLine(EncodeRow(fields))
  {
    EncodeRowAvoids(fields, '\n');
    EncodeRowAvoids(fields, '\0');
    assert !IsSpace(EncodeRow(fields)[0]);
  }

  /** Clean lines joined together pass the whole-file checks and split back apart. */
  lemma JoinCleanLines(ls: seq<string>)
    requires |ls| >= 1
    requires forall i :: 0 <= i < |ls| ==> CleanLine(ls[i])
    ensures !Blank(JoinLines(ls)) && '\0' !in JoinLines(ls)
    ensures Lines(JoinLines(ls)) == ls
  {
    var text := JoinLines(ls);
    assert !Blank(text) by {
      assert text[0] == ls[0][0];
    }
    JoinLinesAvoids(ls, '\0');
    LinesOfJoinLines(ls);
  }

  /** Clean lines are numbered consecutively from 1, none skipped. */
  lemma NumberedClean(ls: seq<string>)
    requires forall i :: 0 <= i < |ls| ==> CleanLine(ls[i])
    ensures |NumberedRows(ls, 1)| == |ls|
    ensures forall i :: 0 <= i < |ls| ==> NumberedRows(ls, 1)[i] == (1 + i, ls[i])
  {
    forall i | 0 <= i < |ls| ensures !Blank(ls[i]) {
      assert !IsSpace(ls[i][0]);
    }
    NumberedRowsAllText(ls, 1);
  }

  /** The data lines, numbered from 2, read as the records. */
  lemma ParseNumberedData(n: seq<(nat, string)>, lines: seq<string>, records: seq<UsageRecord>)
    requires |n| == |lines| + 1 && |lines| == |records|
    requires forall k :: 0 <= k < |lines| ==> n[k + 1] == (k + 2, lines[k])
    requires forall k :: 0 <= k < |lines| ==> ParseRecord(2 + k, lines[k]) == Ok(records[k])
    ensures ParseRows(n[1..]) == Ok(records)
  {
    var data := n[1..];
    forall k | 0 <= k < |data| ensures ParseRecord(data[k].0, data[k].1) == Ok(records[k]) {
      assert data[k] == n[k + 1];
    }
    var r := ParseRows(data);
    assert r.value == records;
  }

  /** A clean header line followed by clean lines is all clean. */
  lemma CleanFile(head: string, lines: seq<string>)
    requires CleanLine(head)
    requires forall k :: 0 <= k < |lines| ==> CleanLine(lines[k])
    ensures forall i :: 0 <= i < |lines| + 1 ==> CleanLine(([head] + lines)[i])
  {
    forall i | 0 <= i < |lines| + 1 ensures CleanLine(([head] + lines)[i]) {
      if i > 0 {
        assert ([head] + lines)[i] == lines[i - 1];
      }
    }
  }

  /** A file of clean lines passes the whole-file checks and is read as the
      table of its lines, numbered from 1. */
  lemma CleanFileIsTable(ls: seq<string>)
    requires |ls| >= 1
    requires forall i :: 0 <= i < |ls| ==> CleanLine(ls[i])
    ensures |NumberedRows(ls, 1)| == |ls|
    ensures Parse(JoinLines(ls)) == ParseTable(NumberedRows(ls, 1))
  {
    NumberedClean(ls);
    JoinCleanLines(ls);
    ParseCleanText(JoinLines(ls));
  }

  /** A table whose first line is a header naming every required column reads as its data rows. */
  lemma HeaderPasses(header: seq<string>, lines: seq<string>)
    requires |header| >= 1
    requires MissingFrom(RequiredColumns, header) == []
    requires forall i :: 0 <= i < |lines| + 1 ==> CleanLine(([EncodeRow(header)] + lines)[i])
    ensures var n := NumberedRows([EncodeRow(header)] + lines, 1);
      |n| >= 1 && ParseTable(n) == ParseRows(n[1..])
  {
    var ls := [EncodeRow(header)] + lines;
    NumberedClean(ls);
    var n := NumberedRows(ls, 1);
    assert Tokenize(n[0].1) == header by {
      TokenizeEncodeRow(header);
    }
    ParseTableComplete(n);
  }

  /** The data rows of such a table read as the records. */
  lemma DataPasses(head: string, lines: seq<string>, records: seq<UsageRecord>)
    requires |lines| == |records|
    requires forall i :: 0 <= i < |lines| + 1 ==> CleanLine(([head] + lines)[i])
    requires forall k :: 0 <= k < |lines| ==> ParseRecord(2 + k, lines[k]) == Ok(records[k])
    ensures var n := NumberedRows([head] + lines, 1);
      |n| >= 1 && ParseRows(n[1..]) == Ok(records)
  {
    var ls := [head] + lines;
    NumberedClean(ls);
    var n := NumberedRows(ls, 1);
    forall k | 0 <= k < |lines| ensures n[k + 1] == (k + 2, lines[k]) {
      assert ls[k + 1] == lines[k];
    }
    ParseNumberedData(n, lines, records);
  }

  /** Each line is clean and, as line `k + 2` of a file, reads as record `k`. */
  ghost predicate LinesReadAs(lines: seq<string>, records: seq<UsageRecord>)
  {
    && |lines| == |records|
    && (forall k :: 0 <= k < |lines| ==> CleanLine(lines[k]))
    && (forall k :: 0 <= k < |lines| ==> ParseRecord(2 + k, lines[k]) == Ok(records[k]))
  }

  /** A file whose first line is the export's header row naming every
      required column, and whose other lines are clean and each read as a
      record, reads as those records, in file order. */

  lemma ParseLines(header: seq<string>, lines: seq<string>, records: seq<UsageRecord>)
    requires |header| >= 1 && CleanLine(EncodeRow(header))
    requires MissingFrom(RequiredColumns, header) == []
    requires LinesReadAs(lines, records)
    ensures Parse(JoinLines([EncodeRow(header)] + lines)) == Ok(records)
  {
    var head := EncodeRow(header);
    CleanFile(head, lines);
    CleanFileIsTable([head] + lines);
    HeaderPasses(header, lines);
    DataPasses(head, lines, records);
  }
}
