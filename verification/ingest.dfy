/** Reading the usage export: splitting the text into lines, each line into
    double-quoted comma-separated fields, checking the header row, and
    turning every data row into a validated `UsageRecord`. Parsing is
    all-or-nothing: the first row at fault decides the error and no record
    is returned. */
module Ingest {
  import opened Outcomes
  import opened Decimal
  import opened Usage
  import Percentage

  // ---------------------------------------------------------------------
  // Fields of one line

  /** The quote-aware field splitter, one character at a time. Outside
      quotes a comma ends the field and a quote opens a quoted stretch;
      inside quotes a doubled quote stands for one quote character, a single
      quote closes the stretch, and a comma is part of the field. `cur` is
      the field being read, `acc` the fields finished before it. */
  function Scan(s: string, inQuotes: bool, cur: string, acc: seq<string>): (fields: seq<string>)
    ensures |fields| > |acc| && fields[..|acc|] == acc
    decreases |s|
  {
    if |s| == 0 then acc + [cur]
    else if s[0] == '"' then
      if inQuotes && |s| > 1 && s[1] == '"' then Scan(s[2..], true, cur + ['"'], acc)
      else Scan(s[1..], !inQuotes, cur, acc)
    else if s[0] == ',' && !inQuotes then Scan(s[1..], false, "", acc + [cur])
    else Scan(s[1..], inQuotes, cur + [s[0]], acc)
  }

  /** The fields of one line; every line has at least one. */
  function Tokenize(line: string): (fields: seq<string>)
    ensures |fields| >= 1
  {
    Scan(line, false, "", [])
  }

  /** A field's text with every quote character doubled. */
  function Escape(f: string): (e: string)
    ensures |e| >= |f|
  {
    if |f| == 0 then ""
    else (if f[0] == '"' then "\"\"" else [f[0]]) + Escape(f[1..])
  }

  function QuoteField(f: string): string
  {
    "\"" + Escape(f) + "\""
  }

  /** A row as the export writes it: every field quoted, commas between. */
  function EncodeRow(fields: seq<string>): (line: string)
    requires |fields| >= 1
    ensures |line| >= 2 && line[0] == '"'
  {
    if |fields| == 1 then QuoteField(fields[0])
    else QuoteField(fields[0]) + "," + EncodeRow(fields[1..])
  }

  /** A field without quote characters is written unchanged between quotes. */
  lemma {:induction false} EscapePlain(f: string)
    requires '"' !in f
    ensures Escape(f) == f
  {
    if |f| > 0 {
      assert '"' !in f[1..] by {
        assert forall i :: 0 <= i < |f| - 1 ==> f[1..][i] == f[i + 1];
      }
      EscapePlain(f[1..]);
      assert [f[0]] + f[1..] == f;
    }
  }

  /** Inside quotes, an escaped field followed by its closing quote reads as
      the field itself, after which the scan is outside quotes again. */
  lemma {:induction false} ScanEscaped(f: string, t: string, cur: string, acc: seq<string>)
    requires |t| == 0 || t[0] != '"'
    ensures Scan(Escape(f) + "\"" + t, true, cur, acc) == Scan(t, false, cur + f, acc)
    decreases |f|
  {
    var s := Escape(f) + "\"" + t;
    if |f| == 0 {
      assert s == "\"" + t;
      assert s[1..] == t;
      assert cur + f == cur;
    } else if f[0] == '"' {
      var rest := Escape(f[1..]) + "\"" + t;
      assert s == "\"\"" + rest;
      assert s[2..] == rest;
      ScanEscaped(f[1..], t, cur + ['"'], acc);
      assert cur + ['"'] + f[1..] == cur + f;
    } else {
      var rest := Escape(f[1..]) + "\"" + t;
      assert s == [f[0]] + rest;
      assert s[1..] == rest;
      ScanEscaped(f[1..], t, cur + [f[0]], acc);
      assert cur + [f[0]] + f[1..] == cur + f;
    }
  }

  lemma {:induction false} ScanRow(fields: seq<string>, acc: seq<string>)
    requires |fields| >= 1
    ensures Scan(EncodeRow(fields), false, "", acc) == acc + fields
    decreases |fields|
  {
    var f := fields[0];
    var t := if |fields| == 1 then "" else "," + EncodeRow(fields[1..]);
    var s := EncodeRow(fields);
    assert s == "\"" + (Escape(f) + "\"" + t);
    assert s[1..] == Escape(f) + "\"" + t;
    ScanEscaped(f, t, "", acc);
    assert "" + f == f;
    if |fields| == 1 {
      assert fields == [f];
    } else {
      assert t[1..] == EncodeRow(fields[1..]);
      ScanRow(fields[1..], acc + [f]);
      assert acc + [f] + fields[1..] == acc + fields;
    }
  }

  /** Writing a row brings in no character other than quotes and commas. */
  lemma {:induction false} EscapeAvoids(f: string, c: char)
    requires c != '"' && c !in f
    ensures c !in Escape(f)
  {
    if |f| > 0 {
      assert c !in f[1..] by {
        assert forall i :: 0 <= i < |f| - 1 ==> f[1..][i] == f[i + 1];
      }
      EscapeAvoids(f[1..], c);
    }
  }

  lemma {:induction false} EncodeRowAvoids(fields: seq<string>, c: char)
    requires |fields| >= 1 && c != '"' && c != ','
    requires forall i :: 0 <= i < |fields| ==> c !in fields[i]
    ensures c !in EncodeRow(fields)
    decreases |fields|
  {
    EscapeAvoids(fields[0], c);
    if |fields| > 1 {
      assert forall i :: 0 <= i < |fields| - 1 ==> fields[1..][i] == fields[i + 1];
      EncodeRowAvoids(fields[1..], c);
    }
  }

  /** Splitting a written row gives back exactly its fields, whatever
      commas and quote characters they contain. */
  lemma TokenizeEncodeRow(fields: seq<string>)
    requires |fields| >= 1
    ensures Tokenize(EncodeRow(fields)) == fields
  {
    ScanRow(fields, []);
  }

  // ---------------------------------------------------------------------
  // Lines

  /** The text cut at every line feed; a text without one is a single line. */
  function Lines(s: string): (ls: seq<string>)
    ensures |ls| >= 1
    ensures forall i :: 0 <= i < |ls| ==> '\n' !in ls[i]
    decreases |s|
  {
    var i := FindChar(s, '\n');
    if i == |s| then
      assert s[..i] == s;
      [s]
    else [s[..i]] + Lines(s[i + 1..])
  }

  /** The lines put back together, a line feed between each two. */
  function JoinLines(ls: seq<string>): (s: string)
    requires |ls| >= 1
    ensures |ls[0]| <= |s| && s[..|ls[0]|] == ls[0]
  {
    if |ls| == 1 then ls[0] else ls[0] + "\n" + JoinLines(ls[1..])
  }

  /** Joining brings in no character other than line feeds. */
  lemma {:induction false} JoinLinesAvoids(ls: seq<string>, c: char)
    requires |ls| >= 1 && c != '\n'
    requires forall i :: 0 <= i < |ls| ==> c !in ls[i]
    ensures c !in JoinLines(ls)
    decreases |ls|
  {
    if |ls| > 1 {
      assert forall i :: 0 <= i < |ls| - 1 ==> ls[1..][i] == ls[i + 1];
      JoinLinesAvoids(ls[1..], c);
    }
  }

  lemma LinesCons(a: string, b: string)
    requires '\n' !in a
    ensures Lines(a + "\n" + b) == [a] + Lines(b)
  {
    var s := a + "\n" + b;
    FindCharAfter(a, '\n', b);
    assert s[..|a|] == a;
    assert s[|a| + 1..] == b;
  }

  /** Cutting and re-joining gives back the text. */
  lemma {:induction false} JoinLinesOfLines(s: string)
    ensures JoinLines(Lines(s)) == s
    decreases |s|
  {
    var i := FindChar(s, '\n');
    if i < |s| {
      var a, b := s[..i], s[i + 1..];
      var ls := Lines(s);
      assert ls == [a] + Lines(b);
      assert ls[1..] == Lines(b);
      JoinLinesOfLines(b);
      assert JoinLines(ls) == a + "\n" + b;
      assert s == a + "\n" + b;
    }
  }

  /** Joining lines that hold no line feed and cutting again gives back the lines. */
  lemma {:induction false} LinesOfJoinLines(ls: seq<string>)
    requires |ls| >= 1
    requires forall i :: 0 <= i < |ls| ==> '\n' !in ls[i]
    ensures Lines(JoinLines(ls)) == ls
    decreases |ls|
  {
    if |ls| == 1 {
      assert FindChar(ls[0], '\n') == |ls[0]|;
      assert ls[0][..|ls[0]|] == ls[0];
    } else {
      LinesCons(ls[0], JoinLines(ls[1..]));
      LinesOfJoinLines(ls[1..]);
      assert ls == [ls[0]] + ls[1..];
    }
  }

  // ---------------------------------------------------------------------
  // Blank text, trimming, header normalisation

  /** The characters JavaScript's `trim` removes: white space and line terminators. */
  predicate IsSpace(c: char)
  {
    || ('\U{9}' <= c <= '\U{D}') || c == ' ' || c == '\U{A0}' || c == '\U{1680}'
    || ('\U{2000}' <= c <= '\U{200A}') || c == '\U{2028}' || c == '\U{2029}'
    || c == '\U{202F}' || c == '\U{205F}' || c == '\U{3000}' || c == '\U{FEFF}'
  }

  predicate Blank(s: string)
  {
    forall i :: 0 <= i < |s| ==> IsSpace(s[i])
  }

  function TrimStart(s: string): (t: string)
    ensures |t| <= |s| && t == s[|s| - |t|..]
    ensures |t| == 0 || !IsSpace(t[0])
    ensures forall i :: 0 <= i < |s| - |t| ==> IsSpace(s[i])
  {
    if |s| > 0 && IsSpace(s[0]) then TrimStart(s[1..]) else s
  }

  function TrimEnd(s: string): (t: string)
    ensures |t| <= |s| && t == s[..|t|]
    ensures |t| == 0 || !IsSpace(t[|t| - 1])
    ensures forall i :: |t| <= i < |s| ==> IsSpace(s[i])
  {
    if |s| > 0 && IsSpace(s[|s| - 1]) then TrimEnd(s[..|s| - 1]) else s
  }

  /** The text without leading and trailing white space. */
  function Trim(s: string): (t: string)
    ensures |t| == 0 || (!IsSpace(t[0]) && !IsSpace(t[|t| - 1]))
  {
    TrimEnd(TrimStart(s))
  }

  /** Trimming leaves nothing exactly when the text is all white space. */
  lemma TrimEmptyIffBlank(s: string)
    ensures |Trim(s)| == 0 <==> Blank(s)
  {
    var u := TrimStart(s);
    if |Trim(s)| == 0 {
      assert |u| == 0;
    } else {
      var t := Trim(s);
      assert t[0] == u[0] == s[|s| - |u|];
    }
  }

  /** Text without white space at either end is its own trim. */
  lemma TrimUntouched(s: string)
    requires |s| > 0 && !IsSpace(s[0]) && !IsSpace(s[|s| - 1])
    ensures Trim(s) == s
  {
  }

  function LowerChar(c: char): char
  {
    if 'A' <= c <= 'Z' then (c as int + 32) as char else c
  }

  /** ASCII lower case; other characters unchanged. */
  function Lower(s: string): (t: string)
    ensures |t| == |s|
  {
    if |s| == 0 then "" else [LowerChar(s[0])] + Lower(s[1..])
  }

  /** A header label as compared: trimmed and in lower case. */
  function Normalise(name: string): string
  {
    Lower(Trim(name))
  }

  /** The labels the header must carry, in the export's column order. */
  const RequiredColumns: seq<string> :=
    ["Timestamp", "User", "Model", "Requests Used", "Exceeds Monthly Quota", "Total Monthly Quota"]

  predicate HasColumn(header: seq<string>, name: string)
  {
    exists j :: 0 <= j < |header| && Normalise(header[j]) == Normalise(name)
  }

  /** The labels, in order, that no header field matches. */
  function MissingFrom(labels: seq<string>, header: seq<string>): (missing: seq<string>)
    ensures forall x :: x in missing <==> x in labels && !HasColumn(header, x)
    ensures |missing| == 0 <==> forall k :: 0 <= k < |labels| ==> HasColumn(header, labels[k])
  {
    if |labels| == 0 then []
    else
      var rest := MissingFrom(labels[1..], header);
      MissingStep(labels, header, rest);
      if HasColumn(header, labels[0]) then rest else [labels[0]] + rest
  }

  /** One step of `MissingFrom`: the first label is kept exactly when no
      header field matches it. */
  lemma MissingStep(labels: seq<string>, header: seq<string>, rest: seq<string>)
    requires |labels| >= 1
    requires forall x :: x in rest <==> x in labels[1..] && !HasColumn(header, x)
    requires |rest| == 0 <==> forall k :: 0 <= k < |labels| - 1 ==> HasColumn(header, labels[1..][k])
    ensures var missing := if HasColumn(header, labels[0]) then rest else [labels[0]] + rest;
      && (forall x :: x in missing <==> x in labels && !HasColumn(header, x))
      && (|missing| == 0 <==> forall k :: 0 <= k < |labels| ==> HasColumn(header, labels[k]))
  {
    assert labels == [labels[0]] + labels[1..];
    assert forall k :: 1 <= k < |labels| ==> labels[k] == labels[1..][k - 1];
  }

  // ---------------------------------------------------------------------
  // Rows

  datatype IngestError =
    | EmptyInput
    | BinaryContent
    | MissingColumns(names: seq<string>)
    | MalformedRow(line: nat)
    | InvalidTimestamp(line: nat, raw: string)
    | InvalidRequestsUsed(line: nat, raw: string)
    | InvalidExceedsQuota(line: nat, raw: string)
    | EmptyField(line: nat, column: string)

  /** The errors that belong to one data row and name its line. */
  predicate RowError(e: IngestError)
  {
    e.MalformedRow? || e.InvalidTimestamp? || e.InvalidRequestsUsed? || e.InvalidExceedsQuota? || e.EmptyField?
  }

  /** The number two decimal digits spell. */
  function TwoDigits(a: char, b: char): nat
    requires IsDigit(a) && IsDigit(b)
  {
    10 * DigitValue(a) + DigitValue(b)
  }

  /** An ISO 8601 calendar date `YYYY-MM-DD` (month 01-12, day 01-31),
      alone or followed by a `T` and a time of day. */
  predicate ValidTimestamp(t: string)
  {
    && |t| >= 10
    && IsDigit(t[0]) && IsDigit(t[1]) && IsDigit(t[2]) && IsDigit(t[3]) && t[4] == '-'
    && IsDigit(t[5]) && IsDigit(t[6]) && t[7] == '-' && IsDigit(t[8]) && IsDigit(t[9])
    && 1 <= TwoDigits(t[5], t[6]) <= 12 && 1 <= TwoDigits(t[8], t[9]) <= 31
    && (|t| == 10 || t[10] == 'T')
  }

  /** A request count: a non-negative decimal numeral, read exactly. */
  function ReadRequests(raw: string): (v: Option<real>)
    ensures v.Some? ==> v.value >= 0.0
  {
    match Percentage.ReadFixed(raw)
    case Some((n, k)) => if n >= 0 then Some(n as real / Pow10(k) as real) else None
    case None => None
  }

  /** A whole count written in decimal reads back as itself. */
  lemma ReadWholeRequests(n: nat)
    ensures ReadRequests(NatToString(n)) == Some(n as real)
  {
    var m := NatToString(n);
    NatToStringRoundTrip(n);
    Percentage.ReadWhole(m);
    assert Pow10(0) == 1;
  }

  /** A count written with `d` decimals reads back as that exact value. */
  lemma ReadPointedRequests(n: nat, d: nat)
    ensures ReadRequests(Percentage.PointedDigits(n, d)) == Some(n as real / Pow10(d) as real)
  {
    Percentage.PointedReadsBack(n, d);
    ReadOfFixed(Percentage.PointedDigits(n, d), n as int, d);
  }

  /** The same digits after a minus sign are refused unless they are all zero. */
  lemma ReadNegativeRequests(n: nat, d: nat)
    ensures n > 0 ==> ReadRequests("-" + Percentage.PointedDigits(n, d)).None?
    ensures n == 0 ==> ReadRequests("-" + Percentage.PointedDigits(n, d)) == Some(0.0)
  {
    var t := "-" + Percentage.PointedDigits(n, d);
    Percentage.PointedReadsBack(n, d);
    assert Percentage.ReadFixed(t) == Some((-(n as int), d));
    ReadOfFixed(t, -(n as int), d);
  }

  /** A count is read from the numeral's value and its number of decimals. */
  lemma ReadOfFixed(raw: string, n: int, k: nat)
    requires Percentage.ReadFixed(raw) == Some((n, k))
    ensures ReadRequests(raw) == if n >= 0 then Some(n as real / Pow10(k) as real) else None
    ensures n == 0 ==> ReadRequests(raw) == Some(0.0)
  {
  }

  /** The quota-exceeded flag, exactly as the export spells it. */
  function ReadFlag(raw: string): (b: Option<bool>)
    ensures b == Some(true) <==> raw == "True"
    ensures b == Some(false) <==> raw == "False"
  {
    if raw == "True" then Some(true) else if raw == "False" then Some(false) else None
  }

  /** The six fields of a row that passes every check. */
  predicate WellFormedRow(f: seq<string>)
  {
    && |f| == 6 && ValidTimestamp(f[0]) && ReadRequests(f[3]).Some? && ReadFlag(f[4]).Some?
    && !Blank(f[1]) && !Blank(f[2])
  }

  /** The record a well-formed row stands for: the timestamp's date, the
      user, model and quota text as written, the count and flag as read. */
  function RecordOf(f: seq<string>): (r: UsageRecord)
    requires WellFormedRow(f)
    ensures Valid(r)
    ensures r.exceedsQuota <==> f[4] == "True"
  {
    UsageRecord(f[0][..10], f[1], f[2], ReadRequests(f[3]).value, ReadFlag(f[4]).value, f[5])
  }

  /** The checks of a six-field row, in the order they are made: timestamp,
      request count, flag, then user and model. */
  function CheckFields(line: nat, f: seq<string>): (r: Result<UsageRecord, IngestError>)
    requires |f| == 6
    ensures r.Ok? <==> WellFormedRow(f)
    ensures r.Ok? ==> r.value == RecordOf(f)
    ensures !ValidTimestamp(f[0]) ==> r == Err(InvalidTimestamp(line, f[0]))
    ensures ValidTimestamp(f[0]) && ReadRequests(f[3]).None? ==> r == Err(InvalidRequestsUsed(line, f[3]))
    ensures ValidTimestamp(f[0]) && ReadRequests(f[3]).Some? && ReadFlag(f[4]).None?
            ==> r == Err(InvalidExceedsQuota(line, f[4]))
    ensures r.Err? && r.error.EmptyField? ==> Blank(f[1]) || Blank(f[2])
    ensures r.Err? ==> RowError(r.error) && r.error.line == line
  {
    if !ValidTimestamp(f[0]) then Err(InvalidTimestamp(line, f[0]))
    else if ReadRequests(f[3]).None? then Err(InvalidRequestsUsed(line, f[3]))
    else if ReadFlag(f[4]).None? then Err(InvalidExceedsQuota(line, f[4]))
    else if Blank(f[1]) then Err(EmptyField(line, "User"))
    else if Blank(f[2]) then Err(EmptyField(line, "Model"))
    else Ok(RecordOf(f))
  }

  /** One data row, numbered `line` in the file: it must split into six
      fields, which are then checked. */
  function ParseRecord(line: nat, text: string): (r: Result<UsageRecord, IngestError>)
    ensures r.Ok? <==> WellFormedRow(Tokenize(text))
    ensures r.Ok? ==> r.value == RecordOf(Tokenize(text))
    ensures r == Err(MalformedRow(line)) <==> |Tokenize(text)| != 6
    ensures r.Err? ==> RowError(r.error) && r.error.line == line
  {
    var f := Tokenize(text);
    if |f| != 6 then Err(MalformedRow(line)) else CheckFields(line, f)
  }

  /** A row written from a timestamp, a non-blank user and model, a whole
      request count, a flag and a quota reads back as the record they spell. */
  lemma RowParses(line: nat, timestamp: string, user: string, model: string, n: nat, exceeds: bool, quota: string)
    requires ValidTimestamp(timestamp) && !Blank(user) && !Blank(model)
    ensures ParseRecord(line, EncodeRow([timestamp, user, model, NatToString(n), if exceeds then "True" else "False", quota]))
         == Ok(UsageRecord(timestamp[..10], user, model, n as real, exceeds, quota))
  {
    var f := [timestamp, user, model, NatToString(n), if exceeds then "True" else "False", quota];
    TokenizeEncodeRow(f);
    ReadWholeRequests(n);
  }

  /** The rows that carry text, each with its 1-based line number; lines
      that are all white space are skipped. */
  function NumberedRows(ls: seq<string>, first: nat): (rows: seq<(nat, string)>)
    ensures |rows| <= |ls|
    ensures forall i :: 0 <= i < |rows| ==> !Blank(rows[i].1) && first <= rows[i].0 < first + |ls|
    ensures forall i, k :: 0 <= i < |rows| && 0 <= k < |ls| && rows[i].0 == first + k ==> rows[i].1 == ls[k]
    ensures forall i, j :: 0 <= i < j < |rows| ==> rows[i].0 < rows[j].0
    ensures forall i :: 0 <= i < |ls| && !Blank(ls[i]) ==> (first + i, ls[i]) in rows
  {
    if |ls| == 0 then []
    else
      var rest := NumberedRows(ls[1..], first + 1);
      if Blank(ls[0]) then
        SkipStep(ls, first, rest);
        rest
      else
        KeepStep(ls, first, rest);
        [(first, ls[0])] + rest
  }

  /** `rows` numbers exactly the non-blank lines of `ls`, counting from
      `first`, in order. */
  ghost predicate NumberedFrom(ls: seq<string>, first: nat, rows: seq<(nat, string)>)
  {
    && |rows| <= |ls|
    && (forall i :: 0 <= i < |rows| ==> !Blank(rows[i].1) && first <= rows[i].0 < first + |ls|)
    && (forall i, k :: 0 <= i < |rows| && 0 <= k < |ls| && rows[i].0 == first + k ==> rows[i].1 == ls[k])
    && (forall i, j :: 0 <= i < j < |rows| ==> rows[i].0 < rows[j].0)
    && (forall i :: 0 <= i < |ls| && !Blank(ls[i]) ==> (first + i, ls[i]) in rows)
  }

  /** A blank first line adds no row. */
  lemma SkipStep(ls: seq<string>, first: nat, rest: seq<(nat, string)>)
    requires |ls| >= 1 && Blank(ls[0])
    requires NumberedFrom(ls[1..], first + 1, rest)
    ensures NumberedFrom(ls, first, rest)
  {
    var tail := ls[1..];
    forall i, k | 0 <= i < |rest| && 0 <= k < |ls| && rest[i].0 == first + k ensures rest[i].1 == ls[k] {
      assert k >= 1 && ls[k] == tail[k - 1];
    }
    forall i | 0 <= i < |ls| && !Blank(ls[i]) ensures (first + i, ls[i]) in rest {
      assert i >= 1 && ls[i] == tail[i - 1];
    }
  }

  /** A non-blank first line is the first row. */
  lemma KeepStep(ls: seq<string>, first: nat, rest: seq<(nat, string)>)
    requires |ls| >= 1 && !Blank(ls[0])
    requires NumberedFrom(ls[1..], first + 1, rest)
    ensures NumberedFrom(ls, first, [(first, ls[0])] + rest)
  {
    var tail := ls[1..];
    var rows := [(first, ls[0])] + rest;
    forall i | 1 <= i < |rows| ensures rows[i] == rest[i - 1] {
    }
    forall i | 0 <= i < |rows| ensures !Blank(rows[i].1) && first <= rows[i].0 < first + |ls| {
      if i > 0 {
        assert rows[i] == rest[i - 1];
      }
    }
    forall i, k | 0 <= i < |rows| && 0 <= k < |ls| && rows[i].0 == first + k ensures rows[i].1 == ls[k] {
      if i > 0 {
        assert rows[i] == rest[i - 1];
        assert k >= 1 && ls[k] == tail[k - 1];
      }
    }
    forall i, j | 0 <= i < j < |rows| ensures rows[i].0 < rows[j].0 {
      assert rows[j] == rest[j - 1];
    }
    forall i | 0 <= i < |ls| && !Blank(ls[i]) ensures (first + i, ls[i]) in rows {
      if i > 0 {
        assert ls[i] == tail[i - 1];
        assert (first + 1 + (i - 1), tail[i - 1]) in rest;
      }
    }
  }

  /** With no blank line, every line is a row, numbered consecutively. */
  lemma {:induction false} NumberedRowsAllText(ls: seq<string>, first: nat)
    requires forall i :: 0 <= i < |ls| ==> !Blank(ls[i])
    ensures |NumberedRows(ls, first)| == |ls|
    ensures forall i :: 0 <= i < |ls| ==> NumberedRows(ls, first)[i] == (first + i, ls[i])
    decreases |ls|
  {
    if |ls| > 0 {
      var tail := ls[1..];
      var rest := NumberedRows(tail, first + 1);
      assert NumberedRows(ls, first) == [(first, ls[0])] + rest by {
        assert !Blank(ls[0]);
      }
      assert |rest| == |ls| - 1 && forall i :: 0 <= i < |rest| ==> rest[i] == (first + 1 + i, ls[i + 1]) by {
        assert forall i :: 0 <= i < |tail| ==> tail[i] == ls[i + 1];
        NumberedRowsAllText(tail, first + 1);
      }
      NumberedCons(ls, first, rest);
    }
  }

  /** Numbering the first line in front of the numbered rest numbers them all. */
  lemma NumberedCons(ls: seq<string>, first: nat, rest: seq<(nat, string)>)
    requires |ls| > 0 && |rest| == |ls| - 1
    requires forall i :: 0 <= i < |rest| ==> rest[i] == (first + 1 + i, ls[i + 1])
    ensures var rows := [(first, ls[0])] + rest;
      |rows| == |ls| && forall i :: 0 <= i < |ls| ==> rows[i] == (first + i, ls[i])
  {
    var rows := [(first, ls[0])] + rest;
    forall i | 0 <= i < |ls| ensures rows[i] == (first + i, ls[i]) {
      if i > 0 {
        assert rows[i] == rest[i - 1];
      }
    }
  }

  /** A text that is not all white space has a line that is not. */
  lemma {:induction false} SomeLineNotBlank(s: string)
    requires !Blank(s)
    ensures exists k :: 0 <= k < |Lines(s)| && !Blank(Lines(s)[k])
    decreases |s|
  {
    var i := FindChar(s, '\n');
    if i == |s| {
      assert Lines(s)[0] == s[..i] == s;
    } else if !Blank(s[..i]) {
      assert Lines(s)[0] == s[..i];
    } else {
      var rest := s[i + 1..];
      assert !Blank(rest) by {
        var j :| 0 <= j < |s| && !IsSpace(s[j]);
        assert rest[j - i - 1] == s[j];
      }
      SomeLineNotBlank(rest);
      var k :| 0 <= k < |Lines(rest)| && !Blank(Lines(rest)[k]);
      assert Lines(s)[k + 1] == Lines(rest)[k];
    }
  }

  /** All results' values when every one succeeds; otherwise the error of
      the first that fails. */
  function Collect<T, E>(results: seq<Result<T, E>>): (r: Result<seq<T>, E>)
    ensures r.Ok? <==> forall i :: 0 <= i < |results| ==> results[i].Ok?
    ensures r.Ok? ==> |r.value| == |results|
    ensures r.Ok? ==> forall i :: 0 <= i < |results| ==> results[i] == Ok(r.value[i])
    ensures r.Err? ==> exists i :: FirstErr(results, i, r.error)
  {
    if |results| == 0 then Ok([])
    else
      assert forall i :: 1 <= i < |results| ==> results[i] == results[1..][i - 1];
      match results[0]
      case Err(e) =>
        assert FirstErr(results, 0, e);
        Err(e)
      case Ok(x) =>
        match Collect(results[1..])
        case Err(e) =>
          ghost var i :| FirstErr(results[1..], i, e);
          assert FirstErr(results, i + 1, e);
          Err(e)
        case Ok(xs) =>
          assert forall i :: 1 <= i < |results| ==> ([x] + xs)[i] == xs[i - 1];
          Ok([x] + xs)
  }

  /** Result `i` is the first failure, and `e` is its error. */
  ghost predicate FirstErr<T, E>(results: seq<Result<T, E>>, i: int, e: E)
  {
    && 0 <= i < |results| && results[i] == Err(e)
    && forall j :: 0 <= j < i ==> results[j].Ok?
  }

  /** The data rows in order; the first row at fault stops the parse. */
  function ParseRows(rows: seq<(nat, string)>): (r: Result<seq<UsageRecord>, IngestError>)
    ensures r.Ok? <==> forall i :: 0 <= i < |rows| ==> ParseRecord(rows[i].0, rows[i].1).Ok?
    ensures r.Ok? ==> |r.value| == |rows|
    ensures r.Ok? ==> forall i :: 0 <= i < |rows| ==> ParseRecord(rows[i].0, rows[i].1) == Ok(r.value[i])
    ensures r.Err? ==> exists i :: FirstFault(rows, i, r.error)
    ensures r.Err? ==> RowError(r.error)
  {
    var results := seq(|rows|, i requires 0 <= i < |rows| => ParseRecord(rows[i].0, rows[i].1));
    assert forall i :: 0 <= i < |rows| ==> results[i] == ParseRecord(rows[i].0, rows[i].1);
    var r := Collect(results);
    assert r.Err? ==> exists i :: FirstFault(rows, i, r.error) by {
      if r.Err? {
        var i :| FirstErr(results, i, r.error);
        assert ParseRecord(rows[i].0, rows[i].1) == Err(r.error);
        forall j | 0 <= j < i ensures ParseRecord(rows[j].0, rows[j].1).Ok? {
          assert results[j].Ok?;
        }
        assert FirstFault(rows, i, r.error);
      }
    }
    r
  }

  /** Row `i` is the first row at fault, and `e` is its error. */
  ghost predicate FirstFault(rows: seq<(nat, string)>, i: int, e: IngestError)
  {
    && 0 <= i < |rows| && ParseRecord(rows[i].0, rows[i].1) == Err(e)
    && forall j :: 0 <= j < i ==> ParseRecord(rows[j].0, rows[j].1).Ok?
  }

  /** The header row, then the data rows: success exactly when the header
      names every required column and every data row reads as a record, and
      then the records are the data rows read, in order; otherwise the
      missing columns, or else the error of the first data row at fault. */
  function ParseTable(rows: seq<(nat, string)>): (r: Result<seq<UsageRecord>, IngestError>)
    requires |rows| >= 1
    ensures r.Ok? <==> MissingFrom(RequiredColumns, Tokenize(rows[0].1)) == []
                       && forall i :: 1 <= i < |rows| ==> ParseRecord(rows[i].0, rows[i].1).Ok?
    ensures r.Ok? ==> |r.value| == |rows| - 1 && AllValid(r.value)
    ensures r.Ok? ==> forall i :: 0 <= i < |r.value| ==> ParseRecord(rows[i + 1].0, rows[i + 1].1) == Ok(r.value[i])
    ensures var missing := MissingFrom(RequiredColumns, Tokenize(rows[0].1));
            |missing| > 0 ==> r == Err(MissingColumns(missing))
    ensures r.Err? && MissingFrom(RequiredColumns, Tokenize(rows[0].1)) == [] ==>
            exists i :: FirstFault(rows[1..], i, r.error)
    ensures r.Err? ==> r.error.MissingColumns? || RowError(r.error)
  {
    var missing := MissingFrom(RequiredColumns, Tokenize(rows[0].1));
    if |missing| > 0 then Err(MissingColumns(missing))
    else
      DataRowsShift(rows);
      ParseRows(rows[1..])
  }

  /** The data rows read, indexed from the table's first data row. */
  lemma DataRowsShift(rows: seq<(nat, string)>)
    requires |rows| >= 1
    ensures var r := ParseRows(rows[1..]);
      && (r.Ok? <==> forall i :: 1 <= i < |rows| ==> ParseRecord(rows[i].0, rows[i].1).Ok?)
      && (r.Ok? ==> |r.value| == |rows| - 1)
      && (r.Ok? ==> forall i :: 0 <= i < |r.value| ==> ParseRecord(rows[i + 1].0, rows[i + 1].1) == Ok(r.value[i]))
  {
    var data := rows[1..];
    assert forall i :: 1 <= i < |rows| ==> rows[i] == data[i - 1];
    assert forall i :: 0 <= i < |data| ==> data[i] == rows[i + 1];
  }

  /** A table whose header names every required column reads as its data rows. */
  lemma ParseTableComplete(rows: seq<(nat, string)>)
    requires |rows| >= 1
    ensures MissingFrom(RequiredColumns, Tokenize(rows[0].1)) == [] ==> ParseTable(rows) == ParseRows(rows[1..])
  {
  }

  /** The whole export: not all white space, free of NUL characters, a
      header naming every required column, then the data rows. The rows are
      the non-blank lines with their line numbers; the first is the header.
      A success holds the data rows read, in file order; a failure past the
      whole-file checks is the missing columns or the first faulty row's. */
  function Parse(text: string): (r: Result<seq<UsageRecord>, IngestError>)
    ensures Blank(text) <==> r == Err(EmptyInput)
    ensures r == Err(BinaryContent) <==> !Blank(text) && '\0' in text
    ensures r.Ok? ==> AllValid(r.value)
    ensures r.Ok? ==> var rows := NumberedRows(Lines(text), 1);
      && |rows| >= 1 && |r.value| == |rows| - 1
      && forall i :: 0 <= i < |r.value| ==> ParseRecord(rows[i + 1].0, rows[i + 1].1) == Ok(r.value[i])
    ensures !Blank(text) && '\0' !in text ==> var rows := NumberedRows(Lines(text), 1);
      && |rows| >= 1
      && var missing := MissingFrom(RequiredColumns, Tokenize(rows[0].1));
      && (r.Ok? <==> missing == [] && forall i :: 1 <= i < |rows| ==> ParseRecord(rows[i].0, rows[i].1).Ok?)
      && (|missing| > 0 ==> r == Err(MissingColumns(missing)))
      && (r.Err? && missing == [] ==> exists i :: FirstFault(rows[1..], i, r.error))
  {
    if Blank(text) then Err(EmptyInput)
    else if '\0' in text then Err(BinaryContent)
    else
      HasHeaderRow(text);
      TableSuccess(NumberedRows(Lines(text), 1));
      TableFailure(NumberedRows(Lines(text), 1));
      ParseTable(NumberedRows(Lines(text), 1))
  }

  /** When a table is read, and what it is read as. */
  lemma TableSuccess(rows: seq<(nat, string)>)
    requires |rows| >= 1
    ensures var r := ParseTable(rows);
      && (r.Ok? ==> AllValid(r.value) && |r.value| == |rows| - 1)
      && (r.Ok? ==> forall i :: 0 <= i < |r.value| ==> ParseRecord(rows[i + 1].0, rows[i + 1].1) == Ok(r.value[i]))
      && (r.Ok? <==> MissingFrom(RequiredColumns, Tokenize(rows[0].1)) == []
                     && forall i :: 1 <= i < |rows| ==> ParseRecord(rows[i].0, rows[i].1).Ok?)
  {
  }

  /** Why a table is refused: never a whole-file error, but the missing
      columns or the first faulty data row. */
  lemma TableFailure(rows: seq<(nat, string)>)
    requires |rows| >= 1
    ensures var r := ParseTable(rows);
      var missing := MissingFrom(RequiredColumns, Tokenize(rows[0].1));
      && r != Err(EmptyInput) && r != Err(BinaryContent)
      && (|missing| > 0 ==> r == Err(MissingColumns(missing)))
      && (r.Err? && missing == [] ==> exists i :: FirstFault(rows[1..], i, r.error))
  {
    var r := ParseTable(rows);
    if r.Err? {
      var e := r.error;
      assert e.MissingColumns? || RowError(e);
      assert !RowError(EmptyInput) && !RowError(BinaryContent);
      assert e != EmptyInput && e != BinaryContent;
    }
  }

  /** Text that is not all white space has a first non-blank row. */
  lemma HasHeaderRow(text: string)
    requires !Blank(text)
    ensures |NumberedRows(Lines(text), 1)| >= 1
  {
    SomeLineNotBlank(text);
    var k :| 0 <= k < |Lines(text)| && !Blank(Lines(text)[k]);
    assert (1 + k, Lines(text)[k]) in NumberedRows(Lines(text), 1);
  }

  /** Text that passes the two whole-file checks is read as a table of its
      non-blank lines, of which there is at least one. */
  lemma ParseCleanText(text: string)
    requires !Blank(text) && '\0' !in text
    ensures |NumberedRows(Lines(text), 1)| >= 1
    ensures Parse(text) == ParseTable(NumberedRows(Lines(text), 1))
  {
    HasHeaderRow(text);
  }
}
