/** The six-row export of the integration fixture, read by the parser. */
module IntegrationFixture {
  import opened Outcomes
  import opened Decimal
  import opened Usage
  import opened Ingest
  import opened Export

  /** The data rows, field by field, as the export holds them. */
  const FixtureRows: seq<seq<string>> := [
    ["2024-01-01T10:00:00Z", "user1", "gpt-4", "20", "False", "100"],
    ["2024-01-01T11:00:00Z", "user2", "gpt-3.5-turbo", "10", "True", "50"],
    ["2024-01-01T12:00:00Z", "user1", "gpt-4", "15", "False", "100"],
    ["2024-01-01T13:00:00Z", "user3", "gpt-3.5-turbo", "5", "True", "50"],
    ["2024-01-01T14:00:00Z", "user2", "coding-agent", "25", "False", "Unlimited"],
    ["2024-01-01T15:00:00Z", "user1", "gpt-4", "5", "True", "100"]
  ]

  /** The records the rows stand for. */
  const FixtureRecords: seq<UsageRecord> := [
    UsageRecord("2024-01-01", "user1", "gpt-4", 20.0, false, "100"),
    UsageRecord("2024-01-01", "user2", "gpt-3.5-turbo", 10.0, true, "50"),
    UsageRecord("2024-01-01", "user1", "gpt-4", 15.0, false, "100"),
    UsageRecord("2024-01-01", "user3", "gpt-3.5-turbo", 5.0, true, "50"),
    UsageRecord("2024-01-01", "user2", "coding-agent", 25.0, false, "Unlimited"),
    UsageRecord("2024-01-01", "user1", "gpt-4", 5.0, true, "100")
  ]

  /** Data line 2 of the file reads as record 0. */
  lemma Row0()
    ensures ParseRecord(2, EncodeRow(FixtureRows[0])) == Ok(FixtureRecords[0])
  {
    var t := "2024-01-01T10:00:00Z";
    assert ValidTimestamp(t) && t[..10] == "2024-01-01";
    assert !Blank("user1") by { assert !IsSpace("user1"[0]); }
    assert !Blank("gpt-4") by { assert !IsSpace("gpt-4"[0]); }
    assert NatToString(20) == "20";
    RowParses(2, t, "user1", "gpt-4", 20, false, "100");
  }

  /** Data line 3 of the file reads as record 1. */
  lemma Row1()
    ensures ParseRecord(3, EncodeRow(FixtureRows[1])) == Ok(FixtureRecords[1])
  {
    var t := "2024-01-01T11:00:00Z";
    assert ValidTimestamp(t) && t[..10] == "2024-01-01";
    assert !Blank("user2") by { assert !IsSpace("user2"[0]); }
    assert !Blank("gpt-3.5-turbo") by { assert !IsSpace("gpt-3.5-turbo"[0]); }
    assert NatToString(10) == "10";
    RowParses(3, t, "user2", "gpt-3.5-turbo", 10, true, "50");
  }

  /** Data line 4 of the file reads as record 2. */
  lemma Row2()
    ensures ParseRecord(4, EncodeRow(FixtureRows[2])) == Ok(FixtureRecords[2])
  {
    var t := "2024-01-01T12:00:00Z";
    assert ValidTimestamp(t) && t[..10] == "2024-01-01";
    assert !Blank("user1") by { assert !IsSpace("user1"[0]); }
    assert !Blank("gpt-4") by { assert !IsSpace("gpt-4"[0]); }
    assert NatToString(15) == "15";
    RowParses(4, t, "user1", "gpt-4", 15, false, "100");
  }

  /** Data line 5 of the file reads as record 3. */
  lemma Row3()
    ensures ParseRecord(5, EncodeRow(FixtureRows[3])) == Ok(FixtureRecords[3])
  {
    var t := "2024-01-01T13:00:00Z";
    assert ValidTimestamp(t) && t[..10] == "2024-01-01";
    assert !Blank("user3") by { assert !IsSpace("user3"[0]); }
    assert !Blank("gpt-3.5-turbo") by { assert !IsSpace("gpt-3.5-turbo"[0]); }
    assert NatToString(5) == "5";
    RowParses(5, t, "user3", "gpt-3.5-turbo", 5, true, "50");
  }

  /** Data line 6 of the file reads as record 4. */
  lemma Row4()
    ensures ParseRecord(6, EncodeRow(FixtureRows[4])) == Ok(FixtureRecords[4])
  {
    var t := "2024-01-01T14:00:00Z";
    assert ValidTimestamp(t) && t[..10] == "2024-01-01";
    assert !Blank("user2") by { assert !IsSpace("user2"[0]); }
    assert !Blank("coding-agent") by { assert !IsSpace("coding-agent"[0]); }
    assert NatToString(25) == "25";
    RowParses(6, t, "user2", "coding-agent", 25, false, "Unlimited");
  }

  /** Data line 7 of the file reads as record 5. */
  lemma Row5()
    ensures ParseRecord(7, EncodeRow(FixtureRows[5])) == Ok(FixtureRecords[5])
  {
    var t := "2024-01-01T15:00:00Z";
    assert ValidTimestamp(t) && t[..10] == "2024-01-01";
    assert !Blank("user1") by { assert !IsSpace("user1"[0]); }
    assert !Blank("gpt-4") by { assert !IsSpace("gpt-4"[0]); }
    assert NatToString(5) == "5";
    RowParses(7, t, "user1", "gpt-4", 5, true, "100");
  }

  /** A literal field is plain once each of its characters is seen to be. */
  lemma PlainText(f: string)
    requires forall i :: 0 <= i < |f| ==> f[i] >= ' '
    ensures Plain(f)
  {
  }

  /** The encoded row 0 is a clean line. */
  lemma Line0()
    ensures CleanLine(EncodeRow(FixtureRows[0]))
  {
    PlainText("2024-01-01T10:00:00Z");
    PlainText("user1");
    PlainText("gpt-4");
    PlainText("20");
    PlainText("False");
    PlainText("100");
    PlainRow(FixtureRows[0]);
  }

  /** The encoded row 1 is a clean line. */
  lemma Line1()
    ensures CleanLine(EncodeRow(FixtureRows[1]))
  {
    PlainText("2024-01-01T11:00:00Z");
    PlainText("user2");
    PlainText("gpt-3.5-turbo");
    PlainText("10");
    PlainText("True");
    PlainText("50");
    PlainRow(FixtureRows[1]);
  }

  /** The encoded row 2 is a clean line. */
  lemma Line2()
    ensures CleanLine(EncodeRow(FixtureRows[2]))
  {
    PlainText("2024-01-01T12:00:00Z");
    PlainText("user1");
    PlainText("gpt-4");
    PlainText("15");
    PlainText("False");
    PlainText("100");
    PlainRow(FixtureRows[2]);
  }

  /** The encoded row 3 is a clean line. */
  lemma Line3()
    ensures CleanLine(EncodeRow(FixtureRows[3]))
  {
    PlainText("2024-01-01T13:00:00Z");
    PlainText("user3");
    PlainText("gpt-3.5-turbo");
    PlainText("5");
    PlainText("True");
    PlainText("50");
    PlainRow(FixtureRows[3]);
  }

  /** The encoded row 4 is a clean line. */
  lemma Line4()
    ensures CleanLine(EncodeRow(FixtureRows[4]))
  {
    PlainText("2024-01-01T14:00:00Z");
    PlainText("user2");
    PlainText("coding-agent");
    PlainText("25");
    PlainText("False");
    PlainText("Unlimited");
    PlainRow(FixtureRows[4]);
  }

  /** The encoded row 5 is a clean line. */
  lemma Line5()
    ensures CleanLine(EncodeRow(FixtureRows[5]))
  {
    PlainText("2024-01-01T15:00:00Z");
    PlainText("user1");
    PlainText("gpt-4");
    PlainText("5");
    PlainText("True");
    PlainText("100");
    PlainRow(FixtureRows[5]);
  }

  /** The header row is a clean line. */
  lemma HeaderLine()
    ensures CleanLine(EncodeRow(RequiredColumns))
  {
    var f := RequiredColumns;
    PlainText("Timestamp");
    PlainText("User");
    PlainText("Model");
    PlainText("Requests Used");
    PlainText("Exceeds Monthly Quota");
    PlainText("Total Monthly Quota");
    PlainRow(f);
  }

  /** The header names every required column. */
  lemma HeaderComplete()
    ensures MissingFrom(RequiredColumns, RequiredColumns) == []
  {
    assert forall k :: 0 <= k < |RequiredColumns| ==> HasColumn(RequiredColumns, RequiredColumns[k]);
  }

  /** The data lines of the fixture file, in file order. */
  function FixtureLines(): (ls: seq<string>)
    ensures |ls| == |FixtureRecords|
    ensures forall k :: 0 <= k < |ls| ==> ls[k] == EncodeRow(FixtureRows[k])
  {
    seq(|FixtureRows|, k requires 0 <= k < |FixtureRows| => EncodeRow(FixtureRows[k]))
  }

  /** The fixture file: the export's header line, then the six data lines. */
  function FixtureText(): string
  {
    JoinLines([EncodeRow(RequiredColumns)] + FixtureLines())
  }

  /** Data line `k + 2` is clean and reads as record `k`. */
  lemma LineK(k: nat)
    requires k < 6
    ensures CleanLine(FixtureLines()[k]) && ParseRecord(2 + k, FixtureLines()[k]) == Ok(FixtureRecords[k])
  {
    match k
    case 0 => Line0(); Row0();
    case 1 => Line1(); Row1();
    case 2 => Line2(); Row2();
    case 3 => Line3(); Row3();
    case 4 => Line4(); Row4();
    case 5 => Line5(); Row5();
  }

  /** Every data line is clean and reads as its record. */
  lemma AllLines()
    ensures LinesReadAs(FixtureLines(), FixtureRecords)
  {
    forall k | 0 <= k < 6
      ensures CleanLine(FixtureLines()[k]) && ParseRecord(2 + k, FixtureLines()[k]) == Ok(FixtureRecords[k])
    {
      LineK(k);
    }
  }

  /** The whole fixture file parses to its six records, in file order. */
  lemma FixtureParses()
    ensures Parse(FixtureText()) == Ok(FixtureRecords)
    ensures |Parse(FixtureText()).value| == 6
  {
    HeaderLine();
    HeaderComplete();
    AllLines();
    ParseLines(RequiredColumns, FixtureLines(), FixtureRecords);
  }
}
