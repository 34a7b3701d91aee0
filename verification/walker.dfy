/** The first pass of `remove_phi`: walk every file under the root, count
    the ones that parse as DICOM, and register for each file's directory
    the scan name its output will be called by. */
module Walker {
  import opened Wrappers
  import opened Paths
  import opened OrderedMaps
  import opened Dicom

  /** The index file every DICOM medium carries; never read by the walk. */
  const MarkerFile := "DICOMDIR"
  /** The vendor's leaf folder of image objects. */
  const ObjectFolder := "DICOMOBJ"

  /** What the walk builds: `dicom_count` and `dicom_series`
      (grouping directory to scan name, in first-registration order; see
      `WalkKeys`). */
  datatype Registry = Registry(count: nat, series: OrderedMap<Path, string>)

  /** The scan name computed from a file's path, as the walk does: the
      parent folder's name, or, under a `DICOMOBJ` folder, the name of the
      directory three levels above the file. */
  function ScanNameOfFile(file: Path): string {
    var parentName := Basename(Dirname(file));
    if parentName == ObjectFolder then Basename(Dirname(Dirname(Dirname(file))))
    else parentName
  }

  /** Reference naming rule, stated on the grouping directory alone: a
      `DICOMOBJ` folder is named after its grandparent, any other folder
      after itself. */
  function ScanNameOfDir(dir: Path): string {
    if Basename(dir) == ObjectFolder then Basename(Dirname(Dirname(dir))) else Basename(dir)
  }

  /** The name a file's scan gets depends only on the directory holding it. */
  lemma ScanNameOnlyDependsOnDirectory(dir: Path, name: string)
    ensures ScanNameOfFile(Join(dir, name)) == ScanNameOfDir(dir)
  {
    SplitJoin(dir, name);
  }

  /** Spelled-out instances of the rule: `.../STUDY123/SCAN/DICOMOBJ/img001`
      belongs to scan `STUDY123`, `A/seriesX/file1.img` to scan `seriesX`. */
  lemma ScanNameExamples()
    ensures ScanNameOfFile(["data", "STUDY123", "SCAN", "DICOMOBJ", "img001"]) == "STUDY123"
    ensures ScanNameOfFile(["data", "A", "seriesX", "file1.img"]) == "seriesX"
  {
  }

  /** A file the walk counts: not the marker, and parsed. */
  predicate Classified(f: FileEntry) {
    f.name != MarkerFile && f.read.Parsed?
  }

  /** A file whose reading raises something other than `InvalidDicomError`,
      which the walk's `try` does not catch. */
  predicate Fatal(f: FileEntry) {
    f.name != MarkerFile && f.read.IoFailure?
  }

  /** The walk's treatment of one file. */
  function Visit(reg: Registry, f: FileEntry): (r: Result<Registry, Fault>)
    requires Valid(reg.series)
    ensures r.Success? ==> Valid(r.value.series)
    ensures !Classified(f) && !Fatal(f) ==> r == Success(reg)
    ensures Fatal(f) ==> r == Failure(IoError(Join(f.dir, f.name)))
    ensures Classified(f) ==>
              r == Success(Registry(reg.count + 1, Put(reg.series, f.dir, ScanNameOfDir(f.dir))))
  {
    if f.name == MarkerFile then Success(reg)
    else
      var path := Join(f.dir, f.name);
      match f.read
      case InvalidDicom => Success(reg)
      case IoFailure => Failure(IoError(path))
      case Parsed(_) =>
        ScanNameOnlyDependsOnDirectory(f.dir, f.name);
        var parentName := Basename(Dirname(path));
        if parentName == ObjectFolder then
          var objectFolder := Dirname(path);
          Success(Registry(reg.count + 1, Put(reg.series, objectFolder, ScanNameOfFile(path))))
        else
          Success(Registry(reg.count + 1, Put(reg.series, Dirname(path), parentName)))
  }

  /** The whole walk over the files in `os.walk` order; the first fatal
      read ends it. */
  function Walk(files: seq<FileEntry>): (r: Result<Registry, Fault>)
    ensures r.Success? ==> Valid(r.value.series)
    decreases |files|
  {
    if |files| == 0 then Success(Registry(0, Empty()))
    else
      match Walk(files[..|files| - 1])
      case Failure(e) => Failure(e)
      case Success(reg) => Visit(reg, files[|files| - 1])
  }

  /** Number of files the walk counts, by direct counting. */
  function CountClassified(files: seq<FileEntry>): nat
    decreases |files|
  {
    if |files| == 0 then 0
    else CountClassified(files[..|files| - 1]) + (if Classified(files[|files| - 1]) then 1 else 0)
  }

  /** Directories of the counted files, in walk order, with repeats. */
  function ClassifiedDirSeq(files: seq<FileEntry>): (dirs: seq<Path>)
    ensures forall d :: d in dirs <==> d in ClassifiedDirs(files)
    decreases |files|
  {
    if |files| == 0 then []
    else
      var init := files[..|files| - 1];
      var last := files[|files| - 1];
      ClassifiedDirsSnoc(init, last);
      assert init + [last] == files;
      ClassifiedDirSeq(init) + (if Classified(last) then [last.dir] else [])
  }

  /** The order groups are registered in: each directory holding a counted
      file, once, at the place of its first counted file. */
  function FirstSeen(files: seq<FileEntry>): (dirs: seq<Path>)
    ensures forall d :: d in dirs <==> d in ClassifiedDirs(files)
    ensures forall i, j :: 0 <= i < j < |dirs| ==> dirs[i] != dirs[j]
  {
    FirstOccurrences(ClassifiedDirSeq(files))
  }

  /** Directories holding at least one counted file. */
  ghost function ClassifiedDirs(files: seq<FileEntry>): set<Path> {
    set f | f in files && Classified(f) :: f.dir
  }

  /** The registry the walk should end with: every directory holding a
      counted file, named by the reference rule. */
  ghost function ExpectedSeries(files: seq<FileEntry>): map<Path, string> {
    map d | d in ClassifiedDirs(files) :: ScanNameOfDir(d)
  }

  /** The walk stops exactly when some non-marker file fails to read with
      an error other than `InvalidDicomError`. */
  lemma {:induction false} WalkFailsIffFatal(files: seq<FileEntry>)
    ensures Walk(files).Failure? <==> exists i :: 0 <= i < |files| && Fatal(files[i])
    decreases |files|
  {
    if |files| > 0 {
      var init := files[..|files| - 1];
      WalkFailsIffFatal(init);
      assert forall i :: 0 <= i < |init| ==> init[i] == files[i];
      if Walk(init).Failure? {
        var i :| 0 <= i < |init| && Fatal(init[i]);
        assert Fatal(files[i]);
      } else if exists i :: 0 <= i < |files| && Fatal(files[i]) {
        var i :| 0 <= i < |files| && Fatal(files[i]);
        assert i == |files| - 1;
      }
    }
  }

  /** A stopped walk reports the first fatal file in walk order: the
      exception carries that file's path. */
  lemma {:induction false} WalkFirstFatal(files: seq<FileEntry>, i: int)
    requires 0 <= i < |files| && Fatal(files[i])
    requires forall j :: 0 <= j < i ==> !Fatal(files[j])
    ensures Walk(files) == Failure(IoError(Join(files[i].dir, files[i].name)))
    decreases |files|
  {
    var init := files[..|files| - 1];
    assert forall j :: 0 <= j < |init| ==> init[j] == files[j];
    if i == |files| - 1 {
      WalkFailsIffFatal(init);
      assert Walk(init).Success?;
      assert Walk(files) == Visit(Walk(init).value, files[i]);
    } else {
      WalkFirstFatal(init, i);
    }
  }

  /** `dicom_count` ends as the number of non-marker files that parse. */
  lemma {:induction false} WalkCount(files: seq<FileEntry>)
    requires Walk(files).Success?
    ensures Walk(files).value.count == CountClassified(files)
    decreases |files|
  {
    if |files| > 0 {
      WalkCount(files[..|files| - 1]);
    }
  }

  /** `dicom_series` ends mapping exactly the directories that hold a
      counted file, each to the scan name the naming rule gives it: the
      last write for a directory stores the same name as the first. */
  lemma {:induction false} WalkSeries(files: seq<FileEntry>)
    requires Walk(files).Success?
    ensures Walk(files).value.series.values == ExpectedSeries(files)
    decreases |files|
  {
    if |files| > 0 {
      var init := files[..|files| - 1];
      var last := files[|files| - 1];
      assert Walk(init).Success?;
      WalkSeries(init);
      var reg := Walk(init).value;
      assert Walk(files) == Visit(reg, last);
      assert files == init + [last];
      ClassifiedDirsSnoc(init, last);
      if Classified(last) {
        assert Walk(files).value.series == Put(reg.series, last.dir, ScanNameOfDir(last.dir));
        assert Walk(files).value.series.values == reg.series.values[last.dir := ScanNameOfDir(last.dir)];
        assert ExpectedSeries(files) == ExpectedSeries(init)[last.dir := ScanNameOfDir(last.dir)];
      } else {
        assert Walk(files).value == reg;
        assert ExpectedSeries(files) == ExpectedSeries(init);
      }
    }
  }

  /** `dicom_series` iterates its directories in order of first
      registration. */
  lemma {:induction false} WalkKeys(files: seq<FileEntry>)
    requires Walk(files).Success?
    ensures Walk(files).value.series.keys == FirstSeen(files)
    decreases |files|
  {
    if |files| > 0 {
      var init := files[..|files| - 1];
      var last := files[|files| - 1];
      assert Walk(init).Success?;
      WalkKeys(init);
      var reg := Walk(init).value;
      assert Walk(files) == Visit(reg, last);
      var dirs := ClassifiedDirSeq(init);
      if Classified(last) {
        assert ClassifiedDirSeq(files) == dirs + [last.dir];
        FirstOccurrencesSnoc(dirs, last.dir);
        assert last.dir in reg.series.values <==> last.dir in FirstSeen(init);
      } else {
        assert ClassifiedDirSeq(files) == dirs;
        assert Walk(files).value == reg;
      }
    }
  }

  lemma ClassifiedDirsSnoc(init: seq<FileEntry>, last: FileEntry)
    ensures ClassifiedDirs(init + [last]) ==
              ClassifiedDirs(init) + (if Classified(last) then {last.dir} else {})
  {
    var files := init + [last];
    assert forall f :: f in files <==> f in init || f == last;
  }

  /** A marker file or a non-DICOM file anywhere in the walk changes
      neither the count nor the registry. */
  lemma {:induction false} SkippedFileIsInert(before: seq<FileEntry>, f: FileEntry, after: seq<FileEntry>)
    requires f.name == MarkerFile || f.read.InvalidDicom?
    ensures Walk(before + [f] + after) == Walk(before + after)
    decreases |after|
  {
    if |after| == 0 {
      assert (before + [f] + after)[..|before|] == before;
      assert before + after == before;
    } else {
      var init := after[..|after| - 1];
      var last := after[|after| - 1];
      SkippedFileIsInert(before, f, init);
      assert (before + [f] + after)[..|before + [f] + after| - 1] == before + [f] + init;
      assert (before + after)[..|before + after| - 1] == before + init;
    }
  }

  lemma {:induction false} CountConcat(a: seq<FileEntry>, b: seq<FileEntry>)
    ensures CountClassified(a + b) == CountClassified(a) + CountClassified(b)
    decreases |b|
  {
    if |b| == 0 {
      assert a + b == a;
    } else {
      CountConcat(a, b[..|b| - 1]);
      assert (a + b)[..|a + b| - 1] == a + b[..|b| - 1];
    }
  }

  lemma {:induction false} CountPermutation(a: seq<FileEntry>, b: seq<FileEntry>)
    requires multiset(a) == multiset(b)
    ensures CountClassified(a) == CountClassified(b)
    decreases |a|
  {
    if |a| > 0 {
      var x := a[0];
      assert x in multiset(b);
      var i :| 0 <= i < |b| && b[i] == x;
      var rest := b[..i] + b[i + 1..];
      assert b == b[..i] + [x] + b[i + 1..];
      assert a == [x] + a[1..];
      assert multiset(b) == multiset(b[..i]) + multiset{x} + multiset(b[i + 1..]);
      assert multiset(a) == multiset{x} + multiset(a[1..]);
      assert multiset(rest) == multiset(b[..i]) + multiset(b[i + 1..]);
      assert multiset(a[1..]) == multiset(a) - multiset{x};
      assert multiset(rest) == multiset(b) - multiset{x};
      CountPermutation(a[1..], rest);
      CountConcat([x], a[1..]);
      CountConcat(b[..i] + [x], b[i + 1..]);
      CountConcat(b[..i], [x]);
      CountConcat(b[..i], b[i + 1..]);
    }
  }

  /** Files met in any order: whether some is fatal depends only on which
      files there are. */
  lemma FatalDependsOnElements(a: seq<FileEntry>, b: seq<FileEntry>)
    requires forall f :: f in a <==> f in b
    ensures (exists i :: 0 <= i < |a| && Fatal(a[i])) ==> (exists j :: 0 <= j < |b| && Fatal(b[j]))
  {
    if exists i :: 0 <= i < |a| && Fatal(a[i]) {
      var i :| 0 <= i < |a| && Fatal(a[i]);
      assert a[i] in b;
      var j :| 0 <= j < |b| && b[j] == a[i];
      assert Fatal(b[j]);
    }
  }

  /** The order `os.walk` happens to visit files in does not matter: any
      reordering of the same files stops or finishes alike, and finishes
      with the same count and the same directory-to-name mapping. */
  lemma WalkOrderIndependent(a: seq<FileEntry>, b: seq<FileEntry>)
    requires multiset(a) == multiset(b)
    ensures Walk(a).Success? <==> Walk(b).Success?
    ensures Walk(a).Success? ==> Walk(a).value.count == Walk(b).value.count
    ensures Walk(a).Success? ==> Walk(a).value.series.values == Walk(b).value.series.values
  {
    assert forall f :: f in a <==> f in b by {
      forall f ensures f in a <==> f in b {
        assert f in a <==> f in multiset(a);
        assert f in b <==> f in multiset(b);
      }
    }
    WalkFailsIffFatal(a);
    WalkFailsIffFatal(b);
    FatalDependsOnElements(a, b);
    FatalDependsOnElements(b, a);
    if Walk(a).Success? {
      WalkCount(a);
      WalkCount(b);
      CountPermutation(a, b);
      WalkSeries(a);
      WalkSeries(b);
      assert ClassifiedDirs(a) == ClassifiedDirs(b);
    }
  }
}
