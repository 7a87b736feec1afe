/** The dashboard's state and what loading a file does to it: the guards in
    front of the upload, the failed read, the failed parse that clears every
    view except the list of model names, and the successful parse that
    derives every view from the new records. */
module Dashboard {
  import opened Outcomes
  import opened Decimal
  import opened Usage
  import opened Ingest
  import opened Views
  import opened DailyCharts
  import opened Upload

  /** A toast: a success or an error notification with its text. */
  datatype Notice = Success(text: string) | Failure(text: string)

  /** A file as the browser describes it. */
  datatype File = File(mimeType: string, name: string)

  /** The analysis functions the dashboard calls on freshly parsed records,
      and the message the parser throws for each of its errors. `S` is a
      row of the model summary, `P` the power-user summary and `B` a row of
      the power users' daily breakdown. Only how their results are stored
      is modelled here, not how they are computed. */
  datatype Engine<S, !P, B> = Engine(
    aggregate: seq<UsageRecord> -> seq<DailyCompliance>,
    modelSummary: seq<UsageRecord> -> seq<S>,
    dailyModelData: seq<UsageRecord> -> seq<DailyVolume>,
    powerUsers: seq<UsageRecord> -> P,
    powerUserNames: P -> seq<string>,
    breakdown: (seq<UsageRecord>, seq<string>) -> seq<B>,
    lastDate: seq<UsageRecord> -> Option<string>,
    describe: IngestError -> string)

  /** The part of the dashboard's state that loading a file touches, plus
      the plan and legend selections, which it leaves alone. `notice` is the
      last toast shown. */
  datatype State<S, P, B> = State(
    data: Option<seq<UsageRecord>>,
    aggregatedData: seq<DailyCompliance>,
    uniqueModels: seq<string>,
    modelSummary: seq<S>,
    dailyModelData: seq<DailyVolume>,
    powerUserSummary: Option<P>,
    powerUserDailyBreakdown: seq<B>,
    selectedPowerUser: Option<string>,
    lastDateAvailable: Option<string>,
    selectedPlan: Plan,
    isProcessing: bool,
    visibleBars: seq<string>,
    notice: Option<Notice>)

  /** The state the dashboard starts in: nothing loaded, the Business plan,
      both bars visible. */
  function Initial<S, P, B>(): (d: State<S, P, B>)
    ensures d.data.None? && !d.isProcessing && d.notice.None?
  {
    State(None, [], [], [], [], None, [], None, None, DefaultPlan, false, InitialVisibleBars, None)
  }

  /** Every derived view agrees with the loaded records, as the engine
      computes them; with nothing loaded, every derived view is empty. The
      list of model names is constrained only while records are loaded. */
  ghost predicate Consistent<S, P, B>(d: State<S, P, B>, e: Engine<S, P, B>)
  {
    match d.data
    case Some(rs) =>
      && d.uniqueModels == UniqueModels(rs)
      && d.aggregatedData == e.aggregate(rs)
      && d.modelSummary == e.modelSummary(rs)
      && d.dailyModelData == e.dailyModelData(rs)
      && d.powerUserSummary == Some(e.powerUsers(rs))
      && d.powerUserDailyBreakdown == e.breakdown(rs, e.powerUserNames(e.powerUsers(rs)))
      && d.lastDateAvailable == e.lastDate(rs)
    case None =>
      && d.aggregatedData == []
      && d.modelSummary == []
      && d.dailyModelData == []
      && d.powerUserSummary.None?
      && d.powerUserDailyBreakdown == []
      && d.lastDateAvailable.None?
  }

  /** Whether the panels with the analysis are rendered: records are loaded
      and there is at least one. */
  predicate ShowsAnalysis<S, P, B>(d: State<S, P, B>)
  {
    d.data.Some? && |d.data.value| > 0
  }

  lemma InitialConsistent<S, P, B>(e: Engine<S, P, B>)
    ensures Consistent(Initial(), e)
    ensures !ShowsAnalysis(Initial<S, P, B>())
  {
  }

  // ---------------------------------------------------------------------
  // Starting an upload

  /** A file handed to the loader: turned away with an error toast when the
      gate rejects it, otherwise the dashboard goes busy while it is read. */
  function Start<S, P, B>(d: State<S, P, B>, f: File): (r: State<S, P, B>)
    ensures r.isProcessing <==> AcceptsFile(f.mimeType, f.name) || d.isProcessing
    ensures AcceptsFile(f.mimeType, f.name) ==> r == d.(isProcessing := true)
    ensures !AcceptsFile(f.mimeType, f.name) ==> r == d.(notice := Some(Failure(RejectedFileMessage)))
  {
    if !AcceptsFile(f.mimeType, f.name) then d.(notice := Some(Failure(RejectedFileMessage)))
    else d.(isProcessing := true)
  }

  /** The file picker: ignored while a file is being processed or when no
      file was chosen, otherwise the first chosen file is loaded. */
  function PickFiles<S, P, B>(d: State<S, P, B>, files: seq<File>): (r: State<S, P, B>)
    ensures d.isProcessing || files == [] ==> r == d
    ensures !d.isProcessing && files != [] ==> r == Start(d, files[0])
  {
    if d.isProcessing || files == [] then d else Start(d, files[0])
  }

  /** The drop zone: ignored while busy or when nothing was dropped; the
      first dropped file is loaded when the drop zone's own gate takes it,
      and turned away with the drop zone's message otherwise. */
  function DropFiles<S, P, B>(d: State<S, P, B>, files: seq<File>): (r: State<S, P, B>)
    ensures d.isProcessing || files == [] ==> r == d
    ensures !d.isProcessing && files != [] && DropAccepts(files[0].mimeType, files[0].name) ==> r == Start(d, files[0])
    ensures !d.isProcessing && files != [] && !DropAccepts(files[0].mimeType, files[0].name)
        ==> r == d.(notice := Some(Failure(DropRejectedMessage)))
  {
    if d.isProcessing || files == [] then d
    else if DropAccepts(files[0].mimeType, files[0].name) then Start(d, files[0])
    else d.(notice := Some(Failure(DropRejectedMessage)))
  }

  /** A file the drop zone lets through always reaches the reader: the
      loader's own gate never turns it away. */
  lemma DroppedFileIsRead<S, P, B>(d: State<S, P, B>, files: seq<File>)
    requires !d.isProcessing && files != [] && DropAccepts(files[0].mimeType, files[0].name)
    ensures DropFiles(d, files) == d.(isProcessing := true)
  {
    DropGateWithinPickerGate(files[0].mimeType, files[0].name);
  }

  /** A busy dashboard ignores both the picker and the drop zone. */
  lemma BusyIgnoresUploads<S, P, B>(d: State<S, P, B>, files: seq<File>)
    requires d.isProcessing
    ensures PickFiles(d, files) == d && DropFiles(d, files) == d
  {
  }

  // ---------------------------------------------------------------------
  // Finishing an upload

  const ReadErrorMessage := "Failed to read the file. The file may be corrupted or unreadable."

  /** The reader failed: the dashboard stops being busy and says so; all
      else stays as it was. */
  function ReadFailed<S, P, B>(d: State<S, P, B>): (r: State<S, P, B>)
    ensures !r.isProcessing && r.notice == Some(Failure(ReadErrorMessage))
    ensures r.(isProcessing := d.isProcessing, notice := d.notice) == d
  {
    d.(isProcessing := false, notice := Some(Failure(ReadErrorMessage)))
  }

  /** The toast for a successful load of `n` records. */
  function LoadedMessage(n: nat): string
  {
    "Loaded " + NatToString(n) + " records successfully"
  }

  /** Something was thrown: the error toast, and every view cleared, the
      selected power user and the data included, but not the list of model
      names. */
  function Fail<S, P, B>(d: State<S, P, B>, t: Thrown): (r: State<S, P, B>)
    ensures r.data.None? && !r.isProcessing && r.notice == Some(Failure(ErrorMessage(t)))
    ensures r.uniqueModels == d.uniqueModels
    ensures r.selectedPlan == d.selectedPlan && r.visibleBars == d.visibleBars
  {
    d.(isProcessing := false, notice := Some(Failure(ErrorMessage(t))),
       data := None, aggregatedData := [], modelSummary := [], dailyModelData := [],
       powerUserSummary := None, powerUserDailyBreakdown := [], selectedPowerUser := None,
       lastDateAvailable := None)
  }

  /** The records were parsed: every view is recomputed from them, the
      power-user selection is dropped and the count is announced. */
  function Succeed<S, P, B>(d: State<S, P, B>, e: Engine<S, P, B>, rs: seq<UsageRecord>): (r: State<S, P, B>)
    ensures r.data == Some(rs) && !r.isProcessing && r.selectedPowerUser.None?
    ensures r.notice == Some(Success(LoadedMessage(|rs|)))
    ensures r.selectedPlan == d.selectedPlan && r.visibleBars == d.visibleBars
  {
    var powerUsers := e.powerUsers(rs);
    d.(data := Some(rs),
       uniqueModels := UniqueModels(rs),
       aggregatedData := e.aggregate(rs),
       modelSummary := e.modelSummary(rs),
       dailyModelData := e.dailyModelData(rs),
       powerUserSummary := Some(powerUsers),
       powerUserDailyBreakdown := e.breakdown(rs, e.powerUserNames(powerUsers)),
       lastDateAvailable := e.lastDate(rs),
       selectedPowerUser := None,
       isProcessing := false,
       notice := Some(Success(LoadedMessage(|rs|))))
  }

  /** The reader produced `result` (`None` when it produced no string): the
      pre-parse checks, then the parser, and the outcome stored. */
  function Loaded<S, P, B>(d: State<S, P, B>, e: Engine<S, P, B>, result: Option<string>): (r: State<S, P, B>)
    ensures r.data.Some? <==> PreCheck(result).Ok? && Parse(PreCheck(result).value).Ok?
    ensures r.data.Some? ==> r.data == Some(Parse(PreCheck(result).value).value)
    ensures PreCheck(result).Err? ==> r.notice == Some(Failure(PreCheck(result).error))
    ensures PreCheck(result).Ok? && Parse(PreCheck(result).value).Err?
        ==> r.notice == Some(Failure(ErrorMessage(ErrorValue(e.describe(Parse(PreCheck(result).value).error)))))
    ensures !r.isProcessing && r.selectedPowerUser.None?
    ensures r.selectedPlan == d.selectedPlan && r.visibleBars == d.visibleBars
  {
    match PreCheck(result)
    case Err(m) =>
      PreCheckMessagesShownAsIs();
      Fail(d, ErrorValue(m))
    case Ok(text) =>
      match Parse(text)
      case Err(err) => Fail(d, ErrorValue(e.describe(err)))
      case Ok(rs) => Succeed(d, e, rs)
  }

  // ---------------------------------------------------------------------
  // What the state keeps

  /** Whatever the state before, a finished load leaves it consistent. */
  lemma LoadedConsistent<S, P, B>(d: State<S, P, B>, e: Engine<S, P, B>, result: Option<string>)
    ensures Consistent(Loaded(d, e, result), e)
  {
  }

  /** Starting an upload, a failed read and a legend click keep it so. */
  lemma OtherStepsKeepConsistent<S, P, B>(d: State<S, P, B>, e: Engine<S, P, B>, files: seq<File>, barKey: string)
    requires Consistent(d, e)
    ensures Consistent(PickFiles(d, files), e)
    ensures Consistent(DropFiles(d, files), e)
    ensures Consistent(ReadFailed(d), e)
    ensures Consistent(d.(visibleBars := HandleLegendClick(barKey)), e)
  {
  }

  /** A failed load after a successful one leaves the earlier model names in
      the state, next to no data at all. */
  lemma FailureKeepsModelNames<S, P, B>(d: State<S, P, B>, e: Engine<S, P, B>, good: Option<string>, bad: Option<string>)
    ensures var g := Loaded(d, e, good);
      var r := Loaded(g, e, bad);
      g.data.Some? && r.data.None? ==> r.uniqueModels == UniqueModels(g.data.value)
  {
  }

  /** The stale names are never on display: while the analysis is shown, the
      model names are those of the loaded records. */
  lemma ShownModelNamesAreCurrent<S, P, B>(d: State<S, P, B>, e: Engine<S, P, B>)
    requires Consistent(d, e) && ShowsAnalysis(d)
    ensures d.uniqueModels == UniqueModels(d.data.value)
    ensures forall k :: 0 <= k < |d.data.value| ==> d.data.value[k].model in d.uniqueModels
  {
  }

  /** With nothing loaded both charts are empty and the power-user breakdown
      is empty whatever user is selected. */
  lemma NothingLoadedShowsNothing<S, P, B>(d: State<S, P, B>, e: Engine<S, P, B>)
    requires Consistent(d, e) && d.data.None?
    ensures ChartData(d.aggregatedData) == []
    ensures BarChartData(d.dailyModelData) == []
    ensures FilteredPowerUserBreakdown(d.selectedPowerUser, d.data, d.powerUserDailyBreakdown, e.breakdown) == []
  {
  }

  /** The success toast names the number of records loaded. */
  lemma SuccessToastCountsRecords<S, P, B>(d: State<S, P, B>, e: Engine<S, P, B>, result: Option<string>)
    ensures var r := Loaded(d, e, result);
      r.data.Some? ==>
        exists digits :: AllDigits(digits) && DigitsValue(digits) == |r.data.value|
          && r.notice == Some(Success("Loaded " + digits + " records successfully"))
  {
    var r := Loaded(d, e, result);
    if r.data.Some? {
      var n := |r.data.value|;
      NatToStringRoundTrip(n);
      assert r.notice == Some(Success("Loaded " + NatToString(n) + " records successfully"));
    }
  }

  /** A NUL anywhere in the text is reported as binary, and the parser is
      never reached: the state is cleared and the message shown verbatim. */
  lemma BinaryTextRejected<S, P, B>(d: State<S, P, B>, e: Engine<S, P, B>, text: string)
    requires '\0' in text
    ensures Loaded(d, e, Some(text)).notice == Some(Failure(BinaryFileMessage))
    ensures Consistent(Loaded(d, e, Some(text)), e) && Loaded(d, e, Some(text)).data.None?
  {
  }
}
