/** `remove_phi` end to end: the walk builds the registry, then every
    registered directory, in registration order, goes through the copy
    step under its scan name. The first exception ends the run; groups
    copied before it stay copied. */
module Pipeline {
  import opened Wrappers
  import opened Paths
  import opened OrderedMaps
  import opened Dicom
  import opened Walker
  import opened Copier
  import opened Anonymizer
  import opened Dates

  /** What a run did: stopped during the walk (nothing printed or written),
      or finished the walk and then carried out one copy plan per group
      up to the end or up to the group that raised. */
  datatype Run =
    | WalkAborted(fault: Fault)
    | Ran(count: nat, series: OrderedMap<Path, string>, plans: seq<CopyPlan>, outcome: Outcome<Fault>)

  /** `os.listdir(dir)` at copy time, as given by the file system. */
  function Listing(listings: map<Path, seq<Entry>>, dir: Path): Option<seq<Entry>> {
    if dir in listings then Some(listings[dir]) else None
  }

  /** Exceptions end the loop: the plans carried out are those up to and
      including the first that raised. */
  function StopAtFault(plans: seq<CopyPlan>): (done: seq<CopyPlan>)
    ensures |done| <= |plans| && done == plans[..|done|]
    ensures forall k :: 0 <= k < |done| - 1 ==> done[k].outcome.Pass?
    ensures |done| < |plans| ==> |done| > 0 && done[|done| - 1].outcome.Fail?
    decreases |plans|
  {
    if |plans| == 0 then []
    else if plans[0].outcome.Fail? then [plans[0]]
    else
      var rest := StopAtFault(plans[1..]);
      assert [plans[0]] + rest == plans[..|rest| + 1];
      [plans[0]] + rest
  }

  /** The loop over `dicom_series.items()`: one copy per group, in order,
      until a group raises. */
  function CopyGroups(v: Variant, cwd: Path, groups: seq<Path>, names: map<Path, string>,
                      listings: map<Path, seq<Entry>>): (plans: seq<CopyPlan>)
    requires forall i :: 0 <= i < |groups| ==> groups[i] in names
    ensures |plans| <= |groups|
    ensures forall k :: 0 <= k < |plans| ==>
              plans[k] == CopyWithFilter(v, cwd, names[groups[k]], groups[k], Listing(listings, groups[k]))
    ensures forall k :: 0 <= k < |plans| - 1 ==> plans[k].outcome.Pass?
    ensures |plans| < |groups| ==> |plans| > 0 && plans[|plans| - 1].outcome.Fail?
  {
    StopAtFault(seq(|groups|, k requires 0 <= k < |groups| =>
      CopyWithFilter(v, cwd, names[groups[k]], groups[k], Listing(listings, groups[k]))))
  }

  /** How the whole run ended: with the last plan's fault, if it has one. */
  function Finish(plans: seq<CopyPlan>): Outcome<Fault> {
    if |plans| > 0 && plans[|plans| - 1].outcome.Fail? then plans[|plans| - 1].outcome else Pass
  }

  /** The copy phase: every registered group, in registration order. */
  function CopyRegistered(v: Variant, cwd: Path, series: OrderedMap<Path, string>,
                          listings: map<Path, seq<Entry>>): (plans: seq<CopyPlan>)
    requires Valid(series)
    ensures |plans| <= |series.keys|
    ensures forall k :: 0 <= k < |plans| - 1 ==> plans[k].outcome.Pass?
    ensures |plans| < |series.keys| ==> |plans| > 0 && plans[|plans| - 1].outcome.Fail?
  {
    assert forall i :: 0 <= i < |series.keys| ==> series.keys[i] in series.values;
    CopyGroups(v, cwd, series.keys, series.values, listings)
  }

  /** One run of `remove_phi` over the files of the tree (in `os.walk`
      order) and the directory listings seen at copy time. */
  function RemovePhi(v: Variant, cwd: Path, files: seq<FileEntry>, listings: map<Path, seq<Entry>>): (run: Run)
    ensures run.WalkAborted? <==> exists i :: 0 <= i < |files| && Fatal(files[i])
    ensures run.Ran? ==> run.count == CountClassified(files)
    ensures run.Ran? ==> Valid(run.series) && run.series.values == ExpectedSeries(files)
  {
    WalkFailsIffFatal(files);
    match Walk(files)
    case Failure(f) => WalkAborted(f)
    case Success(reg) =>
      WalkCount(files);
      WalkSeries(files);
      var plans := CopyRegistered(v, cwd, reg.series, listings);
      Ran(reg.count, reg.series, plans, Finish(plans))
  }

  /** A run that gets past the walk copies the groups in the order in
      which the walk first counts a file of each directory. */
  lemma RunRegistersInWalkOrder(v: Variant, cwd: Path, files: seq<FileEntry>, listings: map<Path, seq<Entry>>)
    ensures var run := RemovePhi(v, cwd, files, listings);
      run.Ran? ==> run.series.keys == FirstSeen(files)
  {
    if Walk(files).Success? {
      WalkKeys(files);
    }
  }

  /** A run stopped by the walk reports the first fatal file, in walk
      order, and copies nothing. */
  lemma RunReportsFirstFatal(v: Variant, cwd: Path, files: seq<FileEntry>, listings: map<Path, seq<Entry>>, i: int)
    requires 0 <= i < |files| && Fatal(files[i])
    requires forall j :: 0 <= j < i ==> !Fatal(files[j])
    ensures RemovePhi(v, cwd, files, listings) == WalkAborted(IoError(Join(files[i].dir, files[i].name)))
  {
    WalkFirstFatal(files, i);
  }

  /** After the walk, each registered directory is copied in turn under
      the scan name the naming rule gives it, until one raises. */
  lemma RunCopiesGroupsInOrder(v: Variant, cwd: Path, files: seq<FileEntry>, listings: map<Path, seq<Entry>>)
    ensures var run := RemovePhi(v, cwd, files, listings);
      run.Ran? ==>
        && |run.plans| <= |run.series.keys|
        && (forall k :: 0 <= k < |run.plans| ==>
              var g := run.series.keys[k];
              run.plans[k] == CopyWithFilter(v, cwd, ScanNameOfDir(g), g, Listing(listings, g)))
        && (forall k :: 0 <= k < |run.plans| - 1 ==> run.plans[k].outcome.Pass?)
  {
    var run := RemovePhi(v, cwd, files, listings);
    match Walk(files)
    case Failure(_) =>
    case Success(reg) =>
      WalkSeries(files);
      assert run.series == reg.series && run.plans == CopyRegistered(v, cwd, reg.series, listings);
      RegisteredPlans(v, cwd, reg.series, listings);
  }

  /** The run ends normally exactly when every registered group was
      copied and none raised. */
  lemma RunEndsNormallyIff(v: Variant, cwd: Path, files: seq<FileEntry>, listings: map<Path, seq<Entry>>)
    ensures var run := RemovePhi(v, cwd, files, listings);
      run.Ran? ==>
        (run.outcome.Pass? <==>
           |run.plans| == |run.series.keys| && forall k :: 0 <= k < |run.plans| ==> run.plans[k].outcome.Pass?)
  {
    var run := RemovePhi(v, cwd, files, listings);
    if run.Ran? {
      RanShape(v, cwd, files, listings);
      RegisteredFinish(v, cwd, run.series, listings);
    }
  }

  /** The copy phase ends normally exactly when it ran every group and
      none raised. */
  lemma RegisteredFinish(v: Variant, cwd: Path, series: OrderedMap<Path, string>, listings: map<Path, seq<Entry>>)
    requires Valid(series)
    ensures var plans := CopyRegistered(v, cwd, series, listings);
      Finish(plans).Pass? <==> |plans| == |series.keys| && forall k :: 0 <= k < |plans| ==> plans[k].outcome.Pass?
  {
    FinishPassIff(CopyRegistered(v, cwd, series, listings), |series.keys|);
  }

  /** A run that gets past the walk copies the registry it built. */
  lemma RanShape(v: Variant, cwd: Path, files: seq<FileEntry>, listings: map<Path, seq<Entry>>)
    requires RemovePhi(v, cwd, files, listings).Ran?
    ensures var run := RemovePhi(v, cwd, files, listings);
      && Valid(run.series)
      && run.plans == CopyRegistered(v, cwd, run.series, listings)
      && run.outcome == Finish(run.plans)
  {
  }

  lemma RegisteredPlans(v: Variant, cwd: Path, series: OrderedMap<Path, string>, listings: map<Path, seq<Entry>>)
    requires Valid(series)
    requires forall d :: d in series.values ==> series.values[d] == ScanNameOfDir(d)
    ensures var plans := CopyRegistered(v, cwd, series, listings);
      && |plans| <= |series.keys|
      && (forall k :: 0 <= k < |plans| ==>
            plans[k] == CopyWithFilter(v, cwd, ScanNameOfDir(series.keys[k]), series.keys[k],
                                       Listing(listings, series.keys[k])))
      && (forall k :: 0 <= k < |plans| - 1 ==> plans[k].outcome.Pass?)
  {
    RegisteredGroupPlans(v, cwd, series, listings);
  }

  /** The k-th plan of the copy phase copies the k-th registered group
      under its registered name. */
  lemma RegisteredGroupPlans(v: Variant, cwd: Path, series: OrderedMap<Path, string>,
                             listings: map<Path, seq<Entry>>)
    requires Valid(series)
    ensures var plans := CopyRegistered(v, cwd, series, listings);
      forall k :: 0 <= k < |plans| ==>
        && series.keys[k] in series.values
        && plans[k] == CopyWithFilter(v, cwd, series.values[series.keys[k]], series.keys[k],
                                      Listing(listings, series.keys[k]))
  {
    assert forall i :: 0 <= i < |series.keys| ==> series.keys[i] in series.values;
  }

  lemma FinishPassIff(plans: seq<CopyPlan>, n: nat)
    requires |plans| <= n
    requires forall k :: 0 <= k < |plans| - 1 ==> plans[k].outcome.Pass?
    requires |plans| < n ==> |plans| > 0 && plans[|plans| - 1].outcome.Fail?
    ensures Finish(plans).Pass? <==> |plans| == n && forall k :: 0 <= k < |plans| ==> plans[k].outcome.Pass?
  {
  }

  /** No run, in either variant, ever writes a file that was excluded, did
      not parse or lacked a series element: every write copies a parsed,
      retained entry of its group's directory listing. */
  lemma RunWritesOnlyRetained(v: Variant, cwd: Path, files: seq<FileEntry>, listings: map<Path, seq<Entry>>)
    ensures var run := RemovePhi(v, cwd, files, listings);
      run.Ran? ==> forall k, w :: 0 <= k < |run.plans| && w in run.plans[k].writes ==>
        var g := run.series.keys[k];
        && g in listings
        && exists e :: e in listings[g] && e.read.Parsed? && HasSeriesElements(e.read.ds) &&
             !Excluded(e.read.ds) && w.source == Join(g, e.name)
  {
    var run := RemovePhi(v, cwd, files, listings);
    if run.Ran? {
      RanShape(v, cwd, files, listings);
      RegisteredWritesOnlyRetained(v, cwd, run.series, listings);
    }
  }

  /** The copy phase, whatever registry it is given, writes only parsed,
      retained entries of each group's listing. */
  lemma RegisteredWritesOnlyRetained(v: Variant, cwd: Path, series: OrderedMap<Path, string>,
                                     listings: map<Path, seq<Entry>>)
    requires Valid(series)
    ensures var plans := CopyRegistered(v, cwd, series, listings);
      forall k, w :: 0 <= k < |plans| && w in plans[k].writes ==>
        var g := series.keys[k];
        && g in listings
        && exists e :: e in listings[g] && e.read.Parsed? && HasSeriesElements(e.read.ds) &&
             !Excluded(e.read.ds) && w.source == Join(g, e.name)
  {
    var plans := CopyRegistered(v, cwd, series, listings);
    RegisteredGroupPlans(v, cwd, series, listings);
    forall k, w | 0 <= k < |plans| && w in plans[k].writes
      ensures series.keys[k] in listings
      ensures exists e :: e in listings[series.keys[k]] && e.read.Parsed? && HasSeriesElements(e.read.ds) &&
                !Excluded(e.read.ds) && w.source == Join(series.keys[k], e.name)
    {
      var g := series.keys[k];
      var name := series.values[g];
      assert plans[k] == CopyWithFilter(v, cwd, name, g, Listing(listings, g));
      var e := WrittenEntry(v, cwd, name, g, Listing(listings, g), w);
      PlaceFacts(v, OutputDir(v, cwd, name), g, e.name, e.read.ds);
    }
  }

  /** In the anonymising variant every file a run writes carries the three
      placeholders and the processing date, whatever group it is in. */
  lemma RunAnonymisesEveryWrite(date: string, cwd: Path, files: seq<FileEntry>, listings: map<Path, seq<Entry>>)
    ensures var run := RemovePhi(Anonymising(date), cwd, files, listings);
      run.Ran? ==> forall k, w :: 0 <= k < |run.plans| && w in run.plans[k].writes ==>
        && w.content.Encoded?
        && w.content.ds.patientId == Some(PlaceholderId)
        && w.content.ds.patientName == Some(PlaceholderName)
        && w.content.ds.patientBirthDate == Some(date)
  {
    var run := RemovePhi(Anonymising(date), cwd, files, listings);
    if run.Ran? {
      RunCopiesGroupsInOrder(Anonymising(date), cwd, files, listings);
      forall k, w | 0 <= k < |run.plans| && w in run.plans[k].writes
        ensures w.content.Encoded? && w.content.ds.patientId == Some(PlaceholderId)
        ensures w.content.ds.patientName == Some(PlaceholderName) && w.content.ds.patientBirthDate == Some(date)
      {
        var g := run.series.keys[k];
        var e := WrittenEntry(Anonymising(date), cwd, ScanNameOfDir(g), g, Listing(listings, g), w);
      }
    }
  }

  /** With the birth date produced by `strftime('%Y%m%d')` from the
      processing date, every written PatientBirthDate reads back as that
      date. */
  lemma RunStampsProcessingDate(today: Date, cwd: Path, files: seq<FileEntry>, listings: map<Path, seq<Entry>>)
    requires ValidDate(today)
    ensures var run := RemovePhi(Anonymising(FormatYmd(today)), cwd, files, listings);
      run.Ran? ==> forall k, w :: 0 <= k < |run.plans| && w in run.plans[k].writes ==>
        && w.content.Encoded? && w.content.ds.patientBirthDate.Some?
        && ParseYmd(w.content.ds.patientBirthDate.value) == Some(today)
  {
    RunAnonymisesEveryWrite(FormatYmd(today), cwd, files, listings);
    FormatYmdRoundTrip(today);
  }

  /** A tree holding nothing but marker files: nothing is counted,
      registered, created or written, and the run ends normally. */
  lemma MarkerOnlyTree(v: Variant, cwd: Path, files: seq<FileEntry>, listings: map<Path, seq<Entry>>)
    requires forall i :: 0 <= i < |files| ==> files[i].name == MarkerFile
    ensures RemovePhi(v, cwd, files, listings) == Ran(0, Empty(), [], Pass)
  {
    MarkerFilesLeaveWalkEmpty(files);
  }

  lemma {:induction false} MarkerFilesLeaveWalkEmpty(files: seq<FileEntry>)
    requires forall i :: 0 <= i < |files| ==> files[i].name == MarkerFile
    ensures Walk(files) == Success(Registry(0, Empty()))
    decreases |files|
  {
    if |files| > 0 {
      MarkerFilesLeaveWalkEmpty(files[..|files| - 1]);
    }
  }

  /** Two unrelated `DICOMOBJ` folders of the same study resolve to the
      same scan name, so their groups write into one output folder; the
      collision is not detected. */
  lemma SiblingObjectFoldersCollide(v: Variant, cwd: Path)
    ensures var a := ["media", "STUDY1", "SCAN_A", "DICOMOBJ"];
      var b := ["media", "STUDY1", "SCAN_B", "DICOMOBJ"];
      a != b && ScanNameOfDir(a) == ScanNameOfDir(b) == "STUDY1" &&
      OutputDir(v, cwd, ScanNameOfDir(a)) == OutputDir(v, cwd, ScanNameOfDir(b))
  {
  }

  /** A worked run: `A/seriesX` holds a CT file and a dose report; only the
      CT file is copied, to `PHI_REMOVED seriesX`. */
  lemma DoseReportIsLeftBehind(cwd: Path)
    ensures var dir := ["A", "seriesX"];
      var out := cwd + ["PHI_REMOVED seriesX"];
      RemovePhi(PlainCopy, cwd, ScenarioFiles(), map[dir := ScenarioListing()]) ==
        Ran(2, OrderedMap([dir], map[dir := "seriesX"]),
            [CopyPlan(out, [out], [Write(dir + ["file1.img"], out + ["file1.img"], Verbatim)], Pass)], Pass)
  {
    var dir := ["A", "seriesX"];
    var out := cwd + ["PHI_REMOVED seriesX"];
    var series := OrderedMap([dir], map[dir := "seriesX"]);
    var plan := CopyPlan(out, [out], [Write(dir + ["file1.img"], out + ["file1.img"], Verbatim)], Pass);
    var listings := map[dir := ScenarioListing()];
    ScenarioWalk();
    ScenarioCopy(cwd);
    assert CopyGroups(PlainCopy, cwd, [dir], series.values, listings) == [plan];
    assert CopyRegistered(PlainCopy, cwd, series, listings) == [plan];
    assert RemovePhi(PlainCopy, cwd, ScenarioFiles(), listings) == Ran(2, series, [plan], Finish([plan]));
  }

  function ScenarioCt(): DataSet { DataSet(Some("CT Chest"), Some(5), None, None, None, map[]) }
  function ScenarioDose(): DataSet { DataSet(Some("Dose Report"), Some(999), None, None, None, map[]) }

  function ScenarioFiles(): seq<FileEntry> {
    [FileEntry(["A", "seriesX"], "file1.img", Parsed(ScenarioCt())),
     FileEntry(["A", "seriesX"], "file2.img", Parsed(ScenarioDose()))]
  }

  function ScenarioListing(): seq<Entry> {
    [Entry("file1.img", Parsed(ScenarioCt())), Entry("file2.img", Parsed(ScenarioDose()))]
  }

  lemma ScenarioWalk()
    ensures Walk(ScenarioFiles()) == Success(Registry(2, OrderedMap([["A", "seriesX"]], map[["A", "seriesX"] := "seriesX"])))
  {
    var files := ScenarioFiles();
    var dir := ["A", "seriesX"];
    var series := OrderedMap([dir], map[dir := "seriesX"]);
    assert files[..1] == [files[0]] && files[..1][..0] == [];
    assert ScanNameOfDir(dir) == "seriesX";
    assert Walk(files[..1][..0]) == Success(Registry(0, Empty()));
    assert Put(Empty(), dir, "seriesX") == series;
    assert Walk(files[..1]) == Success(Registry(1, series));
    assert Put(series, dir, "seriesX") == series;
  }

  lemma ScenarioCopy(cwd: Path)
    ensures var dir := ["A", "seriesX"];
      var out := cwd + ["PHI_REMOVED seriesX"];
      CopyWithFilter(PlainCopy, cwd, "seriesX", dir, Some(ScenarioListing())) ==
        CopyPlan(out, [out], [Write(dir + ["file1.img"], out + ["file1.img"], Verbatim)], Pass)
  {
    var dir := ["A", "seriesX"];
    var out := cwd + ["PHI_REMOVED seriesX"];
    var listing := ScenarioListing();
    var loaded := [Loaded(dir + ["file1.img"], ScenarioCt()), Loaded(dir + ["file2.img"], ScenarioDose())];
    assert listing[1..][1..] == [];
    assert ReadAll(dir, listing[1..][1..]) == Success([]);
    assert listing[1..][0] == listing[1] && loaded[1..] == [loaded[1]] + [];
    assert ReadAll(dir, listing[1..]) == Success(loaded[1..]);
    assert loaded == [loaded[0]] + loaded[1..];
    assert ReadAll(dir, listing) == Success(loaded);
    assert !Exclusion.IsExcluded("CT Chest", 5) by { Exclusion.ExcludedIff("CT Chest", 5); }
    assert Exclusion.IsExcluded("Dose Report", 999) by { Exclusion.ExcludedIff("Dose Report", 999); }
    var w := Write(dir + ["file1.img"], out + ["file1.img"], Verbatim);
    assert loaded[1..][1..] == [];
    assert CopyEach(PlainCopy, out, loaded[1..]) == Progress([], Pass);
    assert CopyEach(PlainCopy, out, loaded) == Progress([w], Pass);
    assert PlainPrefix + "seriesX" == "PHI_REMOVED seriesX";
    assert OutputDir(PlainCopy, cwd, "seriesX") == out;
    assert CreatedDirs(PlainCopy, cwd, "seriesX") == [out];
  }
}
