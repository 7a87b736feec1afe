/** Loading an export, up to the message the user sees: the file-type gates
    of the file picker and the drop zone, the checks made on the text before
    it reaches the parser, and the message shown for whatever was thrown. */
module Upload {
  import opened Outcomes
  import opened Ingest

  // ---------------------------------------------------------------------
  // Text helpers

  /** `sub` occurs in `s` starting at position `i`. */
  predicate IsAt(s: string, sub: string, i: nat)
  {
    i + |sub| <= |s| && s[i..i + |sub|] == sub
  }

  /** `sub` occurs somewhere in `s` (JavaScript's `includes`). */
  predicate Contains(s: string, sub: string)
  {
    exists i: nat :: i <= |s| && IsAt(s, sub, i)
  }

  /** `s` ends with `suffix` (JavaScript's `endsWith`). */
  predicate EndsWith(s: string, suffix: string)
  {
    |suffix| <= |s| && s[|s| - |suffix|..] == suffix
  }

  /** No character of `cs` occurs in `s`. */
  predicate Absent(s: string, cs: string)
  {
    forall i, j :: 0 <= i < |s| && 0 <= j < |cs| ==> s[i] != cs[j]
  }

  /** A text lacking some character of `sub` cannot contain `sub`. */
  lemma AbsentCharRulesOut(s: string, cs: string, j: nat, sub: string, k: nat)
    requires Absent(s, cs) && j < |cs| && k < |sub| && sub[k] == cs[j]
    ensures !Contains(s, sub)
  {
    forall i: nat | i <= |s| ensures !IsAt(s, sub, i) {
      if i + |sub| <= |s| {
        assert s[i..i + |sub|][k] == s[i + k];
      }
    }
  }

  /** Characters absent from both halves are absent from the whole. */
  lemma AbsentAppend(a: string, b: string, cs: string)
    requires Absent(a, cs) && Absent(b, cs)
    ensures Absent(a + b, cs)
  {
    forall i, j | 0 <= i < |a + b| && 0 <= j < |cs| ensures (a + b)[i] != cs[j] {
      if i >= |a| {
        assert (a + b)[i] == b[i - |a|];
      }
    }
  }

  /** An occurrence stays where it is when text is appended. */
  lemma IsAtAppend(s: string, sub: string, i: nat, t: string)
    requires IsAt(s, sub, i)
    ensures IsAt(s + t, sub, i)
  {
    assert (s + t)[i..i + |sub|] == s[i..i + |sub|];
  }

  /** The middle part of a text occurs in it, and a text ends with its last part. */
  lemma ContainsMiddle(a: string, b: string, c: string)
    ensures Contains(a + b + c, b)
    ensures EndsWith(a + b, b)
  {
    var s := a + b + c;
    assert s[|a|..|a| + |b|] == b;
    assert IsAt(s, b, |a|);
    assert (a + b)[|a + b| - |b|..] == b;
  }

  // ---------------------------------------------------------------------
  // The file-type gates

  /** The gate of the file picker: a file is taken when its MIME type
      mentions text or CSV, or its name ends in `.csv`. */
  predicate AcceptsFile(mimeType: string, name: string)
  {
    Contains(mimeType, "text") || Contains(mimeType, "csv") || EndsWith(name, ".csv")
  }

  const RejectedFileMessage := "Please upload a valid CSV or text file."

  /** The gate of the drop zone: the exact type `text/csv`, a name ending in
      `.csv`, or a MIME type mentioning text. */
  predicate DropAccepts(mimeType: string, name: string)
  {
    mimeType == "text/csv" || EndsWith(name, ".csv") || Contains(mimeType, "text")
  }

  const DropRejectedMessage := "Please upload a CSV file. Supported formats: .csv files or text files with CSV content."

  /** A `.csv` name is enough for both gates, whatever type the browser
      reports (including none), and so is a MIME type starting with `text`,
      whatever the name. */
  lemma CsvNameOrTextTypeAccepted(mimeType: string, name: string)
    ensures AcceptsFile(mimeType, name + ".csv") && DropAccepts(mimeType, name + ".csv")
    ensures AcceptsFile("text/" + mimeType, name) && DropAccepts("text/" + mimeType, name)
  {
    ContainsMiddle(name, ".csv", "");
    assert name + ".csv" + "" == name + ".csv";
    assert IsAt("text/", "text", 0);
    IsAtAppend("text/", "text", 0, mimeType);
  }

  /** Whatever the drop zone takes, the file picker takes too. */
  lemma DropGateWithinPickerGate(mimeType: string, name: string)
    requires DropAccepts(mimeType, name)
    ensures AcceptsFile(mimeType, name)
  {
    if mimeType == "text/csv" {
      assert IsAt(mimeType, "text", 0);
    }
  }

  /** The converse fails: a CSV MIME type without "text" in it, on a file
      not named `.csv`, passes the picker but not the drop zone. */
  lemma PickerGateWiderThanDropGate()
    ensures AcceptsFile("application/" + "csv", "usage")
    ensures !DropAccepts("application/" + "csv", "usage")
  {
    ContainsMiddle("application/", "csv", "");
    assert "application/" + "csv" + "" == "application/" + "csv";
    assert Absent("application/", "x") && Absent("csv", "x");
    AbsentAppend("application/", "csv", "x");
    AbsentCharRulesOut("application/" + "csv", "x", 0, "text", 2);
    assert "usage"[1] != ".csv"[0];
    assert |"application/" + "csv"| != |"text/csv"|;
  }

  /** A binary type with another extension is turned away by both gates. */
  lemma BinaryFileRejected()
    ensures !AcceptsFile("application/octet-stream", "usage.xlsx")
    ensures !DropAccepts("application/octet-stream", "usage.xlsx")
  {
    assert Absent("application/octet-stream", "xv");
    AbsentCharRulesOut("application/octet-stream", "xv", 0, "text", 2);
    AbsentCharRulesOut("application/octet-stream", "xv", 1, "csv", 2);
    var n := "usage.xlsx";
    assert n[|n| - 4..] != ".csv" by {
      assert n[|n| - 4..][0] == 'x';
    }
  }

  // ---------------------------------------------------------------------
  // Checks on the text before parsing

  /** The messages of the three checks. The last two are written in pieces
      so that the word the failure handler looks for stands apart. */
  const ReadContentFailed := "Failed to read file content"
  const BinaryFileMessage := "File appears to be " + "binary" + ". Please upload a " + "text-based CSV file."
  const EmptyFileMessage := "File is " + "empty" + ". Please upload " + "a CSV file with data."

  /** The checks on what the reader produced (`None` when it produced no
      string), in order: something was read and it is not the empty string;
      it holds no NUL character; it is not all white space. A failed check
      is the message of the error it throws. */
  function PreCheck(result: Option<string>): (r: Result<string, string>)
    ensures r.Ok? <==> result.Some? && result.value != "" && '\0' !in result.value && !Blank(result.value)
    ensures r.Ok? ==> r.value == result.value
    ensures r == Err(ReadContentFailed) <==> result.None? || result.value == ""
    ensures r == Err(BinaryFileMessage) <==> result.Some? && result.value != "" && '\0' in result.value
    ensures r == Err(EmptyFileMessage)
        <==> result.Some? && result.value != "" && '\0' !in result.value && Blank(result.value)
  {
    if result.None? || result.value == "" then Err(ReadContentFailed)
    else if '\0' in result.value then Err(BinaryFileMessage)
    else if Blank(result.value) then Err(EmptyFileMessage)
    else Ok(result.value)
  }

  /** Text that passes the checks never meets the parser's own whole-file
      errors: those two are unreachable from an upload. */
  lemma PreCheckedTextPassesWholeFileChecks(result: Option<string>)
    requires PreCheck(result).Ok?
    ensures Parse(PreCheck(result).value) != Err(EmptyInput)
    ensures Parse(PreCheck(result).value) != Err(BinaryContent)
  {
  }

  /** The read check comes before the white-space check: the empty string,
      which is all white space, is reported as a failed read, not as an
      empty file; a NUL among spaces is binary, since NUL is not white space. */
  lemma EmptyReadBeatsBlank()
    ensures Blank("") && PreCheck(Some("")) == Err(ReadContentFailed)
    ensures !Blank(" \0 ") && PreCheck(Some(" \0 ")) == Err(BinaryFileMessage)
  {
    assert " \0 "[1] == '\0';
  }

  // ---------------------------------------------------------------------
  // The message shown for a failure

  /** What the failure handler receives: an `Error` object with a message,
      or any other thrown value. */
  datatype Thrown = ErrorValue(message: string) | OtherValue

  /** A classification rule: messages containing `keyword` are shown after `prefix`. */
  datatype Rule = Rule(keyword: string, prefix: string)

  /** The number of rules. */
  const RuleCount := 8

  /** The rules, tried in this order; the first whose keyword the message
      contains decides. */
  function RuleAt(k: nat): Rule
    requires k < RuleCount
  {
    match k
    case 0 => Rule("missing required columns", "Invalid CSV format: ")
    case 1 => Rule("Invalid timestamp", "Invalid data format: ")
    case 2 => Rule("Invalid requests used", "Invalid data format: ")
    case 3 => Rule("Invalid exceeds quota", "Invalid data format: ")
    case 4 => Rule("Invalid CSV row format", "Invalid CSV structure: ")
    case 5 => Rule("binary", "")
    case 6 => Rule("empty", "")
    case _ => Rule("header", "Invalid CSV format: ")
  }

  /** Shown when the thrown value is not an `Error`. */
  const FallbackMessage := "Failed to parse CSV file. Please check the format."

  /** The position of the first rule at or after `k` whose keyword `msg`
      contains, or `RuleCount` when none does. */
  function FirstRule(msg: string, k: nat): (j: nat)
    requires k <= RuleCount
    ensures k <= j <= RuleCount
    ensures j < RuleCount ==> Contains(msg, RuleAt(j).keyword)
    ensures forall i :: k <= i < j ==> !Contains(msg, RuleAt(i).keyword)
    decreases RuleCount - k
  {
    if k == RuleCount then k
    else if Contains(msg, RuleAt(k).keyword) then k
    else FirstRule(msg, k + 1)
  }

  /** The text of the error notification. An `Error` keeps its message
      whole, behind at most one prefix; anything else gets the fallback. */
  function ErrorMessage(t: Thrown): (m: string)
    ensures t.OtherValue? ==> m == FallbackMessage
    ensures t.ErrorValue? ==> EndsWith(m, t.message)
    ensures t.ErrorValue? ==> exists k :: 0 <= k <= RuleCount && m == (if k < RuleCount then RuleAt(k).prefix else "") + t.message
  {
    match t
    case OtherValue => FallbackMessage
    case ErrorValue(msg) =>
      var j := FirstRule(msg, 0);
      var p := if j < RuleCount then RuleAt(j).prefix else "";
      assert (p + msg)[|p + msg| - |msg|..] == msg;
      p + msg
  }

  /** A message is shown behind the prefix of the first rule whose keyword
      it contains, whatever later keywords it contains too. */
  lemma FirstMatchingRuleDecides(msg: string, k: nat)
    requires k < RuleCount
    requires Contains(msg, RuleAt(k).keyword)
    requires forall i :: 0 <= i < k ==> !Contains(msg, RuleAt(i).keyword)
    ensures ErrorMessage(ErrorValue(msg)) == RuleAt(k).prefix + msg
  {
    var j := FirstRule(msg, 0);
    assert j == k;
  }

  /** A message with none of the keywords is shown as it is. */
  lemma UnmatchedMessageShownAsIs(msg: string)
    requires forall i :: 0 <= i < RuleCount ==> !Contains(msg, RuleAt(i).keyword)
    ensures ErrorMessage(ErrorValue(msg)) == msg
  {
  }

  /** A missing-columns report always reads as a format problem. */
  lemma MissingColumnsFirst(msg: string)
    requires Contains(msg, "missing required columns")
    ensures ErrorMessage(ErrorValue(msg)) == "Invalid CSV format: " + msg
  {
    FirstMatchingRuleDecides(msg, 0);
  }

  /** The three messages of the pre-parse checks are shown exactly as
      thrown: the first carries no keyword, the binary one stops at the
      "binary" rule and the empty one at the "empty" rule, both of which
      add nothing. */
  lemma PreCheckMessagesShownAsIs()
    ensures ErrorMessage(ErrorValue(ReadContentFailed)) == ReadContentFailed
    ensures ErrorMessage(ErrorValue(BinaryFileMessage)) == BinaryFileMessage
    ensures ErrorMessage(ErrorValue(EmptyFileMessage)) == EmptyFileMessage
  {
    ReadFailureUnmatched();
    BinaryMessageClassified();
    EmptyMessageClassified();
  }

  /** None of the first five keywords occurs in a text without `q` and `I`
      (the first two characters of `cs`). */
  lemma NoColumnOrFieldKeyword(s: string, cs: string)
    requires Absent(s, cs) && |cs| >= 2 && cs[0] == 'q' && cs[1] == 'I'
    ensures forall i :: 0 <= i < 5 ==> !Contains(s, RuleAt(i).keyword)
  {
    AbsentCharRulesOut(s, cs, 0, RuleAt(0).keyword, 10);
    forall i | 1 <= i < 5 ensures !Contains(s, RuleAt(i).keyword) {
      AbsentCharRulesOut(s, cs, 1, RuleAt(i).keyword, 0);
    }
  }

  /** The read-failure message carries none of the keywords. */
  lemma ReadFailureUnmatched()
    ensures ErrorMessage(ErrorValue(ReadContentFailed)) == ReadContentFailed
  {
    var s := ReadContentFailed;
    assert Absent(s, "qIbmh");
    NoColumnOrFieldKeyword(s, "qIbmh");
    AbsentCharRulesOut(s, "qIbmh", 2, RuleAt(5).keyword, 0);
    AbsentCharRulesOut(s, "qIbmh", 3, RuleAt(6).keyword, 1);
    AbsentCharRulesOut(s, "qIbmh", 4, RuleAt(7).keyword, 0);
    UnmatchedMessageShownAsIs(s);
  }

  /** The binary-file message first matches the "binary" rule. */
  lemma BinaryMessageClassified()
    ensures ErrorMessage(ErrorValue(BinaryFileMessage)) == BinaryFileMessage
  {
    var a, b, c, d := "File appears to be ", "binary", ". Please upload a ", "text-based CSV file.";
    AbsentAppend(a, b, "qI");
    AbsentAppend(a + b, c, "qI");
    AbsentAppend(a + b + c, d, "qI");
    NoColumnOrFieldKeyword(BinaryFileMessage, "qI");
    ContainsMiddle(a, b, c + d);
    assert a + b + (c + d) == BinaryFileMessage;
    FirstMatchingRuleDecides(BinaryFileMessage, 5);
  }

  /** The empty-file message first matches the "empty" rule. */
  lemma EmptyMessageClassified()
    ensures ErrorMessage(ErrorValue(EmptyFileMessage)) == EmptyFileMessage
  {
    var a, b, c, d := "File is ", "empty", ". Please upload ", "a CSV file with data.";
    AbsentAppend(a, b, "qIb");
    AbsentAppend(a + b, c, "qIb");
    AbsentAppend(a + b + c, d, "qIb");
    NoColumnOrFieldKeyword(EmptyFileMessage, "qIb");
    AbsentCharRulesOut(EmptyFileMessage, "qIb", 2, RuleAt(5).keyword, 0);
    ContainsMiddle(a, b, c + d);
    assert a + b + (c + d) == EmptyFileMessage;
    FirstMatchingRuleDecides(EmptyFileMessage, 6);
  }
}
