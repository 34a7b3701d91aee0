# PHI removal pipeline — a Dafny model

This project models the core of a small tool that prepares medical-imaging
studies for sharing. The tool takes a tree of DICOM files and works in two passes:

1. **Walk.** `remove_phi` walks the tree. It skips the `DICOMDIR` index file.
   Every other file it tries to parse. It counts the files that parse and
   registers each such file's directory as a *group*. The group gets a scan
   name from the folder layout: a `DICOMOBJ` folder takes its grandparent's
   name; any other folder keeps its own name.
2. **Copy.** It copies every registered group, in order of its first counted file, through
   `copy_dicom_files_with_filter`. That step creates the output folders,
   re-reads every entry of the group's directory and drops the
   administrative series (FUJI report, Screen Save, Dose Report, and any
   series numbered 99 or 999). It writes the rest under their own names.

The repository holds two variants of the copy step. Both are modelled and
selected by `Copier.Variant`:

- `Anonymising(birthDate)`, from `gui.py`. Files go to
  `<cwd>/<scan> PHI_REMOVED/DICOM/`, and an empty `segmentation` sibling is
  created. PatientID, PatientName and PatientBirthDate are overwritten before
  each file is re-encoded.
- `PlainCopy`, from `phi_removal.py`. Files are copied byte for byte into
  `<cwd>/PHI_REMOVED <scan>/`.

`phi_removal.py` also has `display_dicom_series_info`, which counts the
files of each distinct (description, number) pair. It is modelled in
`SeriesInfo`.

Modules, one file each:

| file | module | what it holds |
|---|---|---|
| wrappers.dfy | `Wrappers` | `Option`, `Result`, `Outcome` |
| paths.dfy | `Paths` | paths as component sequences; `os.path.join`, `dirname`, `basename` |
| ordered_maps.dfy | `OrderedMaps` | Python `dict` with insertion order |
| dicom.dfy | `Dicom` | data sets, read outcomes, listing entries, faults, reading a listing |
| exclusion.dfy | `Exclusion` | the rule table and the `any(...)` match |
| anonymizer.dfy | `Anonymizer` | the three-field scrub |
| dates.dfy | `Dates` | `strftime('%Y%m%d')` and its inverse |
| walker.dfy | `Walker` | the first pass of `remove_phi` |
| copier.dfy | `Copier` | `copy_dicom_files_with_filter`, both variants |
| series_info.dfy | `SeriesInfo` | `display_dicom_series_info` |
| pipeline.dfy | `Pipeline` | `remove_phi` end to end, plus worked scenarios |

Modelling conventions:

- **Side effects are recorded, not performed.** A copy step returns a
  `CopyPlan`: the folders it creates, the files it writes (source,
  destination, content) and whether it finished or raised.
- **Exceptions are values.** Every exception the code lets escape is a
  `Dicom.Fault`. `InvalidDicomError` inside the walker's `try` is the only one
  the code handles. Outside it (at copy time and in the series report),
  `InvalidDicomError` escapes like any other read error.
- **An uncaught exception ends the whole run.** Groups copied before the
  failing one keep their files. `Pipeline.StopAtFault` models this.
- **The file system is an input.**
  - The walk takes the files in `os.walk` order, each with the outcome
    `dcmread` would have on it.
  - The copy step takes each directory's `os.listdir` result, or `None`
    when the directory cannot be listed.
  - The processing date is a parameter of the anonymising variant.

Behaviour of the code that the model keeps as written:

- **Unreadable files at copy time.** Unlike the walk, the copy step reads
  every listing entry with `dcmread` outside any `try`. A non-DICOM file
  or a sub-folder in a group directory therefore ends the run, after the
  output folders are created and before anything is written. See
  `Copier.CopyStopsOnUnreadable`.
- **Files without series elements.** A file that parses but lacks
  SeriesDescription or SeriesNumber raises `AttributeError` in the copy
  loop. A `DICOMDIR` in a group directory is such a file: it parses, but
  it has no SeriesDescription. The files before it are already written.
  See `Copier.CopyEachStops`.
- **Scope of a failure.** An exception in one group propagates out of
  `remove_phi`, so it ends the whole run. Later groups are not copied;
  earlier groups keep their files. See `Pipeline.RunEndsNormallyIff`.
- **DICOMOBJ naming.** The code takes
  `basename(dirname(dirname(dirname(file))))`, so a `DICOMOBJ` folder is
  named after its grandparent. For `.../STUDY123/SCAN/DICOMOBJ/img001`
  that is `STUDY123`. See `Walker.ScanNameExamples`.
- **ID placeholder.** The code writes PatientID `123456789`.
- **Last-write-wins.** The registry rewrites a directory's name on every
  file, but the name depends only on the directory. So every write stores
  the same name, and re-assigning a key keeps its first position in the
  `dict` (`Walker.WalkSeries`, `Walker.WalkKeys`, `OrderedMaps.Put`).

## Model

| member | source | states |
|---|---|---|
| Exclusion.AnyMatch | gui.py:46 | the `any(...)` over a rule list is true exactly when some rule matches the series, on its description or on its number |
| Exclusion.ExcludedIff | gui.py:24-28 | with the fixed three-row table, a series is excluded exactly when its description is one of the three listed strings or its number is 99 or 999 |
| Exclusion.NumberAloneExcludes | phi_removal.py:41 | a series numbered 99 or 999 is excluded whatever its description (the OR lets a number collision exclude an unrelated series) |
| Exclusion.DescriptionAloneExcludes | phi_removal.py:23-27 | a listed description excludes a series whatever its number |
| Anonymizer.Anonymise | gui.py:50-52 | the written data set has PatientID `123456789`, PatientName `ANONYMOUS` and the given birth date, and agrees with the source on every other element |
| Anonymizer.AnonymiseIdempotent | gui.py:50-52 | scrubbing an already scrubbed data set with the same date changes nothing |
| Anonymizer.AnonymiseForgetsPatient | gui.py:50-52 | two data sets that differ only in the patient elements are written identically |
| Dates.FormatYmd | gui.py:52 | the `%Y%m%d` string is all digits and exactly 8 characters long for every year from 1000 on, which covers every processing date; earlier years give 5 to 7 characters |
| Dates.FormatYmdRoundTrip | gui.py:52 | the birth-date string parses back to the date it was formatted from |
| Dicom.ReadAll | gui.py:38 | reading a listing succeeds exactly when every entry parses; item i is entry i's data set with its joined path; otherwise the error is the fault of the first entry that does not parse |
| OrderedMaps.Put | gui.py:101-105 | dictionary assignment keeps keys distinct and in step with the map, leaves an existing key in place with its new value, and appends a new key |
| Walker.ScanNameOnlyDependsOnDirectory | gui.py:91-99 | the scan name computed from a file's path equals the directory rule: a `DICOMOBJ` folder is named after its grandparent, any other folder after itself |
| Walker.ScanNameExamples | phi_removal.py:112-120 | `.../STUDY123/SCAN/DICOMOBJ/img001` is named `STUDY123`; `A/seriesX/file1.img` is named `seriesX` |
| Walker.Visit | gui.py:81-109 | a marker file or a non-DICOM file leaves the registry unchanged; any other read error raises; a parsed file adds one to the count and registers its directory under the directory rule |
| Walker.WalkFailsIffFatal | gui.py:84-109 | the walk raises exactly when some non-marker file fails to read with an error other than `InvalidDicomError` |
| Walker.WalkFirstFatal | gui.py:84-86 | a stopped walk reports the first fatal file in walk order, with that file's path |
| Walker.WalkCount | gui.py:76-88 | the final count is the number of non-marker files that parse |
| Walker.WalkSeries | gui.py:75-105 | the final registry maps exactly the directories holding a counted file, each to the name the directory rule gives it |
| OrderedMaps.FirstOccurrences | gui.py:101-105 | the key order a `dict` ends with after assigning a sequence of keys: exactly the keys assigned, each once |
| Walker.FirstSeen | gui.py:101-105 | the reference order of the registry: exactly the directories holding a counted file, each once |
| Walker.WalkKeys | gui.py:101-105 | the registry's key order, which the copy loop follows, is the order in which the walk first counts a file of each directory |
| Walker.SkippedFileIsInert | phi_removal.py:102-130 | inserting a marker file or a non-DICOM file anywhere in the walk changes neither the count nor the registry |
| Walker.WalkOrderIndependent | gui.py:78-79 | any reordering of the same files fails or succeeds alike, with the same count and the same directory-to-name mapping |
| Copier.Retained | phi_removal.py:36-42 | the kept files are exactly the files that are not excluded |
| Copier.RetainedConcat | phi_removal.py:36-42 | filtering a concatenation filters each part and keeps them in order, so kept files keep their original order and multiplicity |
| Copier.RetainedCons | phi_removal.py:36-42 | filtering a list decides its first file, then filters the rest |
| Copier.RetainedSingle | phi_removal.py:41-42 | a single file is kept exactly when it is not excluded |
| Copier.CopyEach | gui.py:41-59 | the copy loop finishes exactly when every file has both series elements; every file written is a non-excluded file placed under its own name |
| Copier.CopyEachWritesRetained | phi_removal.py:36-46 | when every file has both series elements, the loop finishes having written exactly the kept files, in order |
| Copier.CopyEachStops | gui.py:41-43 | the first file lacking a series element stops the loop: the kept files before it are written, then a missing-element fault naming the first element absent |
| Copier.CopyWithFilter | gui.py:7-63 | a group finishes exactly when its directory can be listed and every entry parses and has both series elements; an unlistable directory writes nothing |
| Copier.CopyWritesOnlyRetained | phi_removal.py:30-46 | whatever the outcome, the plan writes into the variant's output folder, creates the variant's folders, and writes only parsed, complete, non-excluded entries of the listing |
| Copier.CopyWritesExactlyRetained | phi_removal.py:33-46 | when every entry parses and is complete, the files written are exactly the non-excluded entries, in listing order, each once |
| Copier.CopyStopsOnUnreadable | phi_removal.py:33 | an entry that does not parse stops the group after the folders are created and before anything is written, with that entry's fault |
| Copier.AnonymisingPlan | gui.py:18-59 | the anonymising variant creates `<scan> PHI_REMOVED/DICOM` and `<scan> PHI_REMOVED/segmentation` and writes each file to `DICOM/<basename>` with the three placeholders and the source's other elements |
| Copier.PlainCopyPlan | phi_removal.py:17-46 | the plain variant creates only `PHI_REMOVED <scan>` and copies each file verbatim to `PHI_REMOVED <scan>/<basename>` |
| SeriesInfo.KeysOf | phi_removal.py:69-74 | the keys are read exactly when every file has both series elements, and key i is file i's (description, number); otherwise the error names the first file lacking an element, and the element it lacks first |
| SeriesInfo.DisplaySeriesInfo | phi_removal.py:62-80 | the report is produced exactly when the directory can be listed and every entry parses and has both series elements; otherwise the error is the listing failure, else the read error of the first entry that does not parse, else the missing element of the first file lacking one |
| SeriesInfo.TallyEffect | phi_removal.py:76-80 | one file adds its pair if new with count 1, or adds one to that pair's count, and leaves every other entry alone |
| SeriesInfo.TabulateCounts | phi_removal.py:66-80 | the dictionary has one entry per distinct pair; each entry repeats its pair and counts that pair's occurrences, so at least 1 |
| SeriesInfo.TabulateKeys | phi_removal.py:76-83 | the dictionary, and so the printed report, lists the distinct pairs in order of each pair's first file |
| SeriesInfo.TabulateTotal | phi_removal.py:66-80 | the counts add up to the number of files |
| SeriesInfo.DisplaySeriesInfoReport | phi_removal.py:62-84 | a successful report, stated directly on the directory listing: per-pair entries in order of first file, their counts, and a total equal to the listing's length |
| Pipeline.CopyGroups | gui.py:118-120 | groups are copied in order, each under its registered name; every group but the last one run finished; fewer groups run only if the last one run raised |
| Pipeline.RemovePhi | gui.py:65-120 | the run aborts during the walk exactly when some file is fatal; otherwise it reports the count of parsed files and the registry of every group with its name |
| Pipeline.RunRegistersInWalkOrder | gui.py:101-120 | the groups are registered, and so copied, in the order in which the walk first counts a file of each directory |
| Pipeline.RunReportsFirstFatal | phi_removal.py:105-107 | a run stopped by the walk ends with the I/O error of the first fatal file in walk order and copies nothing |
| Pipeline.RunCopiesGroupsInOrder | phi_removal.py:139-141 | after the walk, the k-th plan copies the k-th registered directory under the name the directory rule gives it, and every plan before the last finished |
| Pipeline.RunEndsNormallyIff | gui.py:118-120 | the run ends normally exactly when every registered group was copied and none raised |
| Pipeline.RunWritesOnlyRetained | phi_removal.py:99-141 | every file any run writes is a parsed, complete, non-excluded entry of its group's directory listing |
| Pipeline.RunAnonymisesEveryWrite | gui.py:50-59 | in the anonymising variant, every file written carries the two placeholders and the processing date |
| Pipeline.RunStampsProcessingDate | gui.py:52 | every birth date written parses back to the processing date |
| Pipeline.MarkerOnlyTree | gui.py:78-82 | a tree holding only `DICOMDIR` files counts nothing, registers nothing, creates and writes nothing, and ends normally |
| Pipeline.SiblingObjectFoldersCollide | gui.py:94-101 | two distinct `DICOMOBJ` folders of one study get the same scan name and the same output folder, undetected |
| Pipeline.DoseReportIsLeftBehind | phi_removal.py:99-141 | `A/seriesX` holding a CT file and a Dose Report (number 999): two files counted, one group, only the CT file copied, to `PHI_REMOVED seriesX` |

## Left out

- The Tk window, the folder dialog and the button wiring (gui.py:123-152): these are presentation, and they only call `remove_phi` with the chosen folder.
- Everything printed (counts, group listings, per-file and per-group progress lines): output only. The model keeps the values that are printed (the count, the registry, the plans) but not the text.
- The order in which `os.walk` and `os.listdir` return entries: not determined by the code, so it is an input sequence. `Walker.WalkOrderIndependent` shows which parts of the walk's result do not depend on it: whether the walk fails, the count, and the directory-to-name mapping. Other parts do depend on it:
  - the registry's key order, which fixes the order groups are copied in (and so which group's fault ends the run); `Walker.WalkKeys` and `Pipeline.RunRegistersInWalkOrder` state it as a function of the walk order;
  - which fatal file the walk reports;
  - within a group, the order of writes and which fault is reported (`os.listdir` order).
- Parsing and encoding of DICOM files (`dcmread`, `dcmwrite`): each file's read outcome is an input, and a written file is its data set. Elements other than the five the pipeline touches are one opaque map.
- The actual file-system effects of `os.makedirs`, `dcmwrite` and `shutil.copy`: recorded as a plan of folders and writes. `os.makedirs(exist_ok=True)` on an existing folder is not an error, so re-creating folders is not modelled as a failure. The anonymising variant's repeated `os.makedirs` of the output folder before each write (gui.py:55) is folded into the first call.
- Failures of folder creation and of writing (disk full, permission denied): not modelled. Only reading and listing failures are faults.
- Running the pipeline twice against the same output location: file-system state between runs is not modelled.
- The current working directory, `os.getcwd()`: a parameter.
- Copier.CopyWithFilter: the anonymising variant calls `datetime.today()` once per file. The model uses one date per run, so a run that crosses midnight and stamps two different dates is not represented.
- Dates.FormatYmd: years before 1000 are printed without padding, as glibc's `%Y` does; some Python builds pad them to four digits. Such years never occur as the processing date.
- Dates.FormatYmd: the day is checked only against 31, not against the length of its month. The round trip holds for any such triple.
- The distinction between absolute and relative paths, `..` components and trailing separators: a path is a sequence of names.
- SeriesNumber's DICOM IS string form and the comparison of a pydicom `IS` value with a Python `int`: the number is an integer.
- Data elements that are present but empty: not distinguished from present values.
- `display_dicom_series_info` is defined but never called by `remove_phi`: it is modelled on its own and not wired into the pipeline.
