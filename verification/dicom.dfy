/** What the pipeline sees of the imaging files: the few data elements it
    reads or overwrites, the outcome of trying to parse a file, and the
    directory entries it works through. Parsing itself is opaque: each
    entry carries the outcome `dcmread` would have had on it. */
module Dicom {
  import opened Wrappers
  import opened Paths

  /** A parsed data set. Each named element may be absent, as in a real
      file; `others` stands for every other element and the pixel data,
      which the pipeline never inspects. */
  datatype DataSet = DataSet(
    seriesDescription: Option<string>,
    seriesNumber: Option<int>,
    patientId: Option<string>,
    patientName: Option<string>,
    patientBirthDate: Option<string>,
    others: map<string, string>)

  /** The outcome of `dcmread` on one file: a data set, the
      `InvalidDicomError` raised for a non-DICOM file, or any other read
      failure (permission denied, a directory, a truncated file). */
  datatype ReadOutcome = Parsed(ds: DataSet) | InvalidDicom | IoFailure

  /** One name of a directory listing (`os.listdir`) and what reading it gives. */
  datatype Entry = Entry(name: string, read: ReadOutcome)

  /** One file met by the recursive walk (`os.walk`): its directory, its
      name and what reading it gives. */
  datatype FileEntry = FileEntry(dir: Path, name: string, read: ReadOutcome)

  /** A file read successfully, with the path it was read from
      (`dicom_file.filename`). */
  datatype Loaded = Loaded(path: Path, ds: DataSet)

  /** The exceptions that end a run instead of being handled. */
  datatype Fault =
    | ListingUnavailable(dir: Path)             // os.listdir raised
    | NotDicomFile(path: Path)                  // InvalidDicomError outside the walker's try
    | IoError(path: Path)                       // any other read error
    | MissingElement(path: Path, keyword: string) // AttributeError on a data element

  /** The fault reading `path` raises, for an outcome other than a data set. */
  function ReadFault(path: Path, read: ReadOutcome): (f: Fault)
    requires !read.Parsed?
    ensures f.NotDicomFile? || f.IoError?
    ensures f.path == path
    ensures f.NotDicomFile? <==> read.InvalidDicom?
  {
    if read.InvalidDicom? then NotDicomFile(path) else IoError(path)
  }

  /** Both series elements the filter reads are present. */
  predicate HasSeriesElements(ds: DataSet) {
    ds.seriesDescription.Some? && ds.seriesNumber.Some?
  }

  /** `[dcmread(os.path.join(dir, f)) for f in listing]`: every entry is
      read, in listing order, and the first that does not parse raises. */
  function ReadAll(dir: Path, listing: seq<Entry>): (r: Result<seq<Loaded>, Fault>)
    ensures r.Success? <==> forall i :: 0 <= i < |listing| ==> listing[i].read.Parsed?
    ensures r.Success? ==> |r.value| == |listing|
    ensures r.Success? ==> forall i :: 0 <= i < |listing| ==>
              r.value[i] == Loaded(Join(dir, listing[i].name), listing[i].read.ds)
    ensures r.Failure? ==>
              exists i :: 0 <= i < |listing| && FirstUnparsed(listing, i) &&
                r.error == ReadFault(Join(dir, listing[i].name), listing[i].read)
    decreases |listing|
  {
    if |listing| == 0 then Success([])
    else
      var e := listing[0];
      if !e.read.Parsed? then
        assert FirstUnparsed(listing, 0);
        Failure(ReadFault(Join(dir, e.name), e.read))
      else
        match ReadAll(dir, listing[1..])
        case Failure(f) =>
          assert forall i :: 0 <= i < |listing| - 1 && FirstUnparsed(listing[1..], i) ==> FirstUnparsed(listing, i + 1);
          Failure(f)
        case Success(rest) =>
          Success([Loaded(Join(dir, e.name), e.read.ds)] + rest)
  }

  /** Entry `i` is the first of the listing that does not parse. */
  ghost predicate FirstUnparsed(listing: seq<Entry>, i: int)
    requires 0 <= i < |listing|
  {
    !listing[i].read.Parsed? && forall j :: 0 <= j < i ==> listing[j].read.Parsed?
  }

  /** The `AttributeError` reading the series elements of `l` raises:
      SeriesDescription is read first. */
  function MissingFault(l: Loaded): (f: Fault)
    requires !HasSeriesElements(l.ds)
  {
    if l.ds.seriesDescription.None? then MissingElement(l.path, "SeriesDescription")
    else MissingElement(l.path, "SeriesNumber")
  }

  /** File `i` is the first without both series elements. */
  ghost predicate FirstIncomplete(files: seq<Loaded>, i: int)
    requires 0 <= i < |files|
  {
    !HasSeriesElements(files[i].ds) && forall j :: 0 <= j < i ==> HasSeriesElements(files[j].ds)
  }
}
