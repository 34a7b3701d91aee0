/** `copy_dicom_files_with_filter`, in both variants: lay out the output
    folders for one scan, re-read every entry of the grouping directory,
    drop the excluded series and write the rest under their own names.
    The result is the plan of effects: folders created, files written, and
    whether the group finished or stopped on an exception. */
module Copier {
  import opened Wrappers
  import opened Paths
  import opened Dicom
  import opened Exclusion
  import opened Anonymizer

  /** The anonymising variant rewrites patient elements with the given
      birth date and adds a `segmentation` folder; the plain variant
      copies files byte for byte. */
  datatype Variant = Anonymising(birthDate: string) | PlainCopy

  /** What lands in a destination file: a re-encoded data set
      (`dcmwrite`) or the source file's own bytes (`shutil.copy`). */
  datatype Content = Encoded(ds: DataSet) | Verbatim

  datatype Write = Write(source: Path, dest: Path, content: Content)

  /** The effects of one group: the folder files go to, the folders
      created (in order), the files written (in order), and whether the
      group ran to the end. */
  datatype CopyPlan = CopyPlan(outputDir: Path, dirs: seq<Path>, writes: seq<Write>, outcome: Outcome<Fault>)

  /** Files written for a prefix of the group, and how the prefix ended. */
  datatype Progress = Progress(writes: seq<Write>, outcome: Outcome<Fault>)

  const AnonymisedSuffix := " PHI_REMOVED"
  const PlainPrefix := "PHI_REMOVED "
  const ImageFolder := "DICOM"
  const SegmentationFolder := "segmentation"

  /** `output_directory_name` */
  function OutputName(v: Variant, scanName: string): string {
    match v
    case Anonymising(_) => scanName + AnonymisedSuffix
    case PlainCopy => PlainPrefix + scanName
  }

  /** `output_directory`: where the files go. */
  function OutputDir(v: Variant, cwd: Path, scanName: string): Path {
    match v
    case Anonymising(_) => cwd + [OutputName(v, scanName), ImageFolder]
    case PlainCopy => cwd + [OutputName(v, scanName)]
  }

  /** The `os.makedirs(..., exist_ok=True)` calls made before the listing is
      read. The anonymising variant calls `os.makedirs` on the output folder
      again before every write (gui.py:55); that folder already exists by
      then, so those repeated calls are folded into the first one. */
  function CreatedDirs(v: Variant, cwd: Path, scanName: string): seq<Path> {
    match v
    case Anonymising(_) => [OutputDir(v, cwd, scanName), cwd + [OutputName(v, scanName), SegmentationFolder]]
    case PlainCopy => [OutputDir(v, cwd, scanName)]
  }

  /** The exclusion decision on a data set that has both series elements. */
  predicate Excluded(ds: DataSet)
    requires HasSeriesElements(ds)
  {
    IsExcluded(ds.seriesDescription.value, ds.seriesNumber.value)
  }

  /** The write made for a retained file: same base name in the output
      folder, anonymised or verbatim. */
  function Place(v: Variant, outDir: Path, l: Loaded): Write {
    var content := match v
      case Anonymising(date) => Encoded(Anonymise(l.ds, date))
      case PlainCopy => Verbatim;
    Write(l.path, Join(outDir, Basename(l.path)), content)
  }

  function PlaceAll(v: Variant, outDir: Path, files: seq<Loaded>): (ws: seq<Write>)
    ensures |ws| == |files|
    ensures forall k :: 0 <= k < |files| ==> ws[k] == Place(v, outDir, files[k])
  {
    seq(|files|, k requires 0 <= k < |files| => Place(v, outDir, files[k]))
  }

  /** Reference filter: the files of a group that are not excluded, in
      their original order. */
  function Retained(files: seq<Loaded>): (r: seq<Loaded>)
    requires forall i :: 0 <= i < |files| ==> HasSeriesElements(files[i].ds)
    ensures |r| <= |files|
    ensures forall l :: l in r <==> l in files && !Excluded(l.ds)
    decreases |files|
  {
    if |files| == 0 then []
    else if Excluded(files[0].ds) then Retained(files[1..])
    else [files[0]] + Retained(files[1..])
  }

  /** Filtering a concatenation filters each part, in order. */
  lemma {:induction false} RetainedConcat(a: seq<Loaded>, b: seq<Loaded>)
    requires forall i :: 0 <= i < |a| ==> HasSeriesElements(a[i].ds)
    requires forall i :: 0 <= i < |b| ==> HasSeriesElements(b[i].ds)
    ensures forall i :: 0 <= i < |a + b| ==> HasSeriesElements((a + b)[i].ds)
    ensures Retained(a + b) == Retained(a) + Retained(b)
    decreases |a|
  {
    if |a| == 0 {
      assert a + b == b;
    } else {
      var tail := a[1..];
      var head := if Excluded(a[0].ds) then [] else [a[0]];
      ConsSplit(a, b);
      RetainedConcat(tail, b);
      RetainedCons(a[0], tail);
      RetainedCons(a[0], tail + b);
      calc {
        Retained(a + b);
        Retained([a[0]] + (tail + b));
        head + Retained(tail + b);
        head + (Retained(tail) + Retained(b));
        { ConcatAssoc(head, Retained(tail), Retained(b)); }
        (head + Retained(tail)) + Retained(b);
        Retained([a[0]] + tail) + Retained(b);
        Retained(a) + Retained(b);
      }
    }
  }

  lemma ConcatAssoc<T>(x: seq<T>, y: seq<T>, z: seq<T>)
    ensures x + (y + z) == (x + y) + z
  {
  }

  /** A non-empty list is its head followed by its tail, also when followed
      by another list. */
  lemma ConsSplit(a: seq<Loaded>, b: seq<Loaded>)
    requires |a| > 0
    ensures a == [a[0]] + a[1..]
    ensures a + b == [a[0]] + (a[1..] + b)
    ensures forall i :: 0 <= i < |a[1..]| ==> a[1..][i] == a[i + 1]
  {
  }

  /** Filtering a list with a first element decides that element, then
      filters the rest. */
  lemma RetainedCons(l: Loaded, rest: seq<Loaded>)
    requires HasSeriesElements(l.ds)
    requires forall i :: 0 <= i < |rest| ==> HasSeriesElements(rest[i].ds)
    ensures forall i :: 0 <= i < |[l] + rest| ==> HasSeriesElements(([l] + rest)[i].ds)
    ensures Retained([l] + rest) == (if Excluded(l.ds) then [] else [l]) + Retained(rest)
  {
    var files := [l] + rest;
    assert files[0] == l && files[1..] == rest;
  }

  /** A single file is kept exactly when it is not excluded. */
  lemma RetainedSingle(l: Loaded)
    requires HasSeriesElements(l.ds)
    ensures Retained([l]) == if Excluded(l.ds) then [] else [l]
  {
    assert [l][1..] == [];
  }

  /** The copy loop: per file, read the series elements, skip if
      excluded, otherwise write. A missing element stops the loop after the
      writes already made. */
  function CopyEach(v: Variant, outDir: Path, files: seq<Loaded>): (p: Progress)
    ensures p.outcome.Pass? <==> forall i :: 0 <= i < |files| ==> HasSeriesElements(files[i].ds)
    ensures forall w :: w in p.writes ==>
              exists l :: l in files && HasSeriesElements(l.ds) && !Excluded(l.ds) && w == Place(v, outDir, l)
    decreases |files|
  {
    if |files| == 0 then Progress([], Pass)
    else
      var l := files[0];
      if !HasSeriesElements(l.ds) then
        Progress([], Fail(MissingFault(l)))
      else
        var rest := CopyEach(v, outDir, files[1..]);
        if Excluded(l.ds) then
          rest
        else
          Progress([Place(v, outDir, l)] + rest.writes, rest.outcome)
  }

  /** With both series elements on every file, the loop finishes and
      writes the retained files, in order. */
  lemma {:induction false} CopyEachWritesRetained(v: Variant, outDir: Path, files: seq<Loaded>)
    requires forall i :: 0 <= i < |files| ==> HasSeriesElements(files[i].ds)
    ensures CopyEach(v, outDir, files) == Progress(PlaceAll(v, outDir, Retained(files)), Pass)
    decreases |files|
  {
    if |files| > 0 {
      var l := files[0];
      CopyEachWritesRetained(v, outDir, files[1..]);
      if !Excluded(l.ds) {
        PlaceAllCons(v, outDir, l, Retained(files[1..]));
      }
    }
  }

  lemma PlaceAllCons(v: Variant, outDir: Path, l: Loaded, files: seq<Loaded>)
    ensures PlaceAll(v, outDir, [l] + files) == [Place(v, outDir, l)] + PlaceAll(v, outDir, files)
  {
    var a := PlaceAll(v, outDir, [l] + files);
    var b := [Place(v, outDir, l)] + PlaceAll(v, outDir, files);
    assert |a| == |b|;
    forall k | 0 <= k < |a| ensures a[k] == b[k] {
      if k > 0 {
        assert ([l] + files)[k] == files[k - 1];
      }
    }
  }

  /** The first file missing a series element stops the loop: the files
      before it have been handled, nothing after it is. */
  lemma {:induction false} CopyEachStops(v: Variant, outDir: Path, files: seq<Loaded>, i: int)
    requires 0 <= i < |files| && FirstIncomplete(files, i)
    ensures CopyEach(v, outDir, files) == Progress(PlaceAll(v, outDir, Retained(files[..i])), Fail(MissingFault(files[i])))
    decreases |files|
  {
    if i == 0 {
      assert files[..0] == [];
    } else {
      var l := files[0];
      var prefix := files[..i];
      assert HasSeriesElements(l.ds);
      assert FirstIncomplete(files[1..], i - 1);
      CopyEachStops(v, outDir, files[1..], i - 1);
      assert prefix[1..] == files[1..][..i - 1];
      assert prefix[0] == l;
      var kept := Retained(files[1..][..i - 1]);
      if Excluded(l.ds) {
        assert Retained(prefix) == kept;
      } else {
        assert Retained(prefix) == [l] + kept;
        PlaceAllCons(v, outDir, l, kept);
      }
    }
  }

  /** One group's run of `copy_dicom_files_with_filter`. `listing` is
      `None` when the directory can no longer be listed. The group finishes
      exactly when every entry parses and carries both series elements. */
  function CopyWithFilter(v: Variant, cwd: Path, scanName: string, dicomDir: Path, listing: Option<seq<Entry>>): (plan: CopyPlan)
    ensures plan.outcome.Pass? <==>
              listing.Some? && forall i :: 0 <= i < |listing.value| ==>
                listing.value[i].read.Parsed? && HasSeriesElements(listing.value[i].read.ds)
    ensures listing.None? ==> plan.writes == [] && plan.outcome == Fail(ListingUnavailable(dicomDir))
  {
    var outDir := OutputDir(v, cwd, scanName);
    var dirs := CreatedDirs(v, cwd, scanName);
    if listing.None? then CopyPlan(outDir, dirs, [], Fail(ListingUnavailable(dicomDir)))
    else
      match ReadAll(dicomDir, listing.value)
      case Failure(f) => CopyPlan(outDir, dirs, [], Fail(f))
      case Success(files) =>
        var p := CopyEach(v, outDir, files);
        LoadedComeFromListing(dicomDir, listing.value, files);
        CopyPlan(outDir, dirs, p.writes, p.outcome)
  }

  /** Whatever happens to the group, every file written is a parsed entry
      of the listing that has both series elements and is not excluded,
      placed in the output folder under its own name. */
  lemma CopyWritesOnlyRetained(v: Variant, cwd: Path, scanName: string, dicomDir: Path, listing: Option<seq<Entry>>)
    ensures var plan := CopyWithFilter(v, cwd, scanName, dicomDir, listing);
      && plan.outputDir == OutputDir(v, cwd, scanName)
      && plan.dirs == CreatedDirs(v, cwd, scanName)
      && forall w :: w in plan.writes ==>
           exists e :: e in listing.value && e.read.Parsed? && HasSeriesElements(e.read.ds) &&
             !Excluded(e.read.ds) &&
             w == Place(v, plan.outputDir, Loaded(Join(dicomDir, e.name), e.read.ds))
  {
    if listing.Some? {
      var r := ReadAll(dicomDir, listing.value);
      if r.Success? {
        LoadedComeFromListing(dicomDir, listing.value, r.value);
      }
    }
  }

  /** Every file read from a listing is one of its parsed entries. */
  lemma LoadedComeFromListing(dir: Path, listing: seq<Entry>, files: seq<Loaded>)
    requires ReadAll(dir, listing) == Success(files)
    ensures forall i :: 0 <= i < |files| ==> (HasSeriesElements(files[i].ds) <==> HasSeriesElements(listing[i].read.ds))
    ensures forall l :: l in files ==>
              exists e :: e in listing && e.read.Parsed? && l == Loaded(Join(dir, e.name), e.read.ds)
  {
    forall l | l in files
      ensures exists e :: e in listing && e.read.Parsed? && l == Loaded(Join(dir, e.name), e.read.ds)
    {
      var i :| 0 <= i < |files| && files[i] == l;
      assert listing[i] in listing;
    }
  }

  /** When every entry parses and carries both series elements, the group
      finishes and writes exactly the non-excluded entries, in listing
      order, each once. */
  lemma CopyWritesExactlyRetained(v: Variant, cwd: Path, scanName: string, dicomDir: Path, listing: seq<Entry>)
    requires forall i :: 0 <= i < |listing| ==> listing[i].read.Parsed? && HasSeriesElements(listing[i].read.ds)
    ensures ReadAll(dicomDir, listing).Success?
    ensures CopyWithFilter(v, cwd, scanName, dicomDir, Some(listing)).writes ==
              PlaceAll(v, OutputDir(v, cwd, scanName), Retained(ReadAll(dicomDir, listing).value))
  {
    var files := ReadAll(dicomDir, listing).value;
    LoadedComeFromListing(dicomDir, listing, files);
    CopyEachWritesRetained(v, OutputDir(v, cwd, scanName), files);
  }

  /** An entry that does not parse stops the group before anything is
      written; the folders are already created by then. */
  lemma CopyStopsOnUnreadable(v: Variant, cwd: Path, scanName: string, dicomDir: Path, listing: seq<Entry>, i: int)
    requires 0 <= i < |listing| && FirstUnparsed(listing, i)
    ensures CopyWithFilter(v, cwd, scanName, dicomDir, Some(listing)) ==
              CopyPlan(OutputDir(v, cwd, scanName), CreatedDirs(v, cwd, scanName), [],
                       Fail(ReadFault(Join(dicomDir, listing[i].name), listing[i].read)))
  {
    var r := ReadAll(dicomDir, listing);
    assert r.Failure?;
    var k :| 0 <= k < |listing| && FirstUnparsed(listing, k) &&
             r.error == ReadFault(Join(dicomDir, listing[k].name), listing[k].read);
    assert k == i;
  }

  /** The listing entry a given write was made for. */
  lemma WrittenEntry(v: Variant, cwd: Path, scanName: string, dicomDir: Path, listing: Option<seq<Entry>>, w: Write)
    returns (e: Entry)
    requires w in CopyWithFilter(v, cwd, scanName, dicomDir, listing).writes
    ensures listing.Some? && e in listing.value
    ensures e.read.Parsed? && HasSeriesElements(e.read.ds) && !Excluded(e.read.ds)
    ensures w == Place(v, OutputDir(v, cwd, scanName), Loaded(Join(dicomDir, e.name), e.read.ds))
  {
    CopyWritesOnlyRetained(v, cwd, scanName, dicomDir, listing);
    e :| e in listing.value && e.read.Parsed? && HasSeriesElements(e.read.ds) && !Excluded(e.read.ds) &&
         w == Place(v, OutputDir(v, cwd, scanName), Loaded(Join(dicomDir, e.name), e.read.ds));
  }

  /** Where a write made for entry `name` of `dir` goes, and what it holds. */
  lemma PlaceFacts(v: Variant, outDir: Path, dir: Path, name: string, ds: DataSet)
    ensures var w := Place(v, outDir, Loaded(Join(dir, name), ds));
      && w.source == Join(dir, name)
      && Dirname(w.source) == dir
      && Basename(w.source) == name
      && w.dest == outDir + [name]
      && (v.Anonymising? ==> w.content == Encoded(Anonymise(ds, v.birthDate)))
      && (v.PlainCopy? ==> w.content == Verbatim)
  {
    SplitJoin(dir, name);
  }

  /** The anonymising variant (gui.py): files go to
      `cwd/<scan> PHI_REMOVED/DICOM/<name>`, a sibling `segmentation`
      folder is created, and every written data set carries the three
      placeholders while all its other elements are the source file's. */
  lemma AnonymisingPlan(date: string, cwd: Path, scanName: string, dicomDir: Path, listing: Option<seq<Entry>>)
    ensures var plan := CopyWithFilter(Anonymising(date), cwd, scanName, dicomDir, listing);
      && plan.dirs == [cwd + [scanName + " PHI_REMOVED", "DICOM"], cwd + [scanName + " PHI_REMOVED", "segmentation"]]
      && forall w :: w in plan.writes ==>
           && Dirname(w.source) == dicomDir
           && w.dest == cwd + [scanName + " PHI_REMOVED", "DICOM", Basename(w.source)]
           && w.content.Encoded?
           && w.content.ds.patientId == Some("123456789")
           && w.content.ds.patientName == Some("ANONYMOUS")
           && w.content.ds.patientBirthDate == Some(date)
           && exists e :: e in listing.value && e.read.Parsed? && w.source == Join(dicomDir, e.name) &&
                SameOutsidePatient(w.content.ds, e.read.ds)
  {
    var v := Anonymising(date);
    var plan := CopyWithFilter(v, cwd, scanName, dicomDir, listing);
    var outDir := cwd + [scanName + " PHI_REMOVED", "DICOM"];
    assert OutputDir(v, cwd, scanName) == outDir;
    CopyWritesOnlyRetained(v, cwd, scanName, dicomDir, listing);
    forall w | w in plan.writes
      ensures Dirname(w.source) == dicomDir
      ensures w.dest == cwd + [scanName + " PHI_REMOVED", "DICOM", Basename(w.source)]
      ensures w.content.Encoded?
      ensures w.content.ds.patientId == Some("123456789")
      ensures w.content.ds.patientName == Some("ANONYMOUS")
      ensures w.content.ds.patientBirthDate == Some(date)
      ensures exists e :: e in listing.value && e.read.Parsed? && w.source == Join(dicomDir, e.name) &&
                SameOutsidePatient(w.content.ds, e.read.ds)
    {
      var e := WrittenEntry(v, cwd, scanName, dicomDir, listing, w);
      PlaceFacts(v, outDir, dicomDir, e.name, e.read.ds);
      assert outDir + [e.name] == cwd + [scanName + " PHI_REMOVED", "DICOM", e.name];
    }
  }

  /** The plain variant (phi_removal.py): files go to
      `cwd/PHI_REMOVED <scan>/<name>`, no other folder is created, and each
      write copies the source file unchanged. */
  lemma PlainCopyPlan(cwd: Path, scanName: string, dicomDir: Path, listing: Option<seq<Entry>>)
    ensures var plan := CopyWithFilter(PlainCopy, cwd, scanName, dicomDir, listing);
      && plan.dirs == [cwd + ["PHI_REMOVED " + scanName]]
      && forall w :: w in plan.writes ==>
           && Dirname(w.source) == dicomDir
           && w.dest == cwd + ["PHI_REMOVED " + scanName, Basename(w.source)]
           && w.content == Verbatim
  {
    var plan := CopyWithFilter(PlainCopy, cwd, scanName, dicomDir, listing);
    var outDir := cwd + ["PHI_REMOVED " + scanName];
    assert OutputDir(PlainCopy, cwd, scanName) == outDir;
    CopyWritesOnlyRetained(PlainCopy, cwd, scanName, dicomDir, listing);
    forall w | w in plan.writes
      ensures Dirname(w.source) == dicomDir
      ensures w.dest == cwd + ["PHI_REMOVED " + scanName, Basename(w.source)]
      ensures w.content == Verbatim
    {
      var e := WrittenEntry(PlainCopy, cwd, scanName, dicomDir, listing, w);
      PlaceFacts(PlainCopy, outDir, dicomDir, e.name, e.read.ds);
    }
  }
}
