/** `display_dicom_series_info` (plain variant only): read every entry of
    a directory and count the files of each distinct (description, number)
    pair. The report is the dictionary it prints, in insertion order. */
module SeriesInfo {
  import opened Wrappers
  import opened Paths
  import opened OrderedMaps
  import opened Dicom

  /** `series_key`, the pair the files are grouped by. */
  datatype SeriesKey = SeriesKey(description: string, number: int)

  /** `series_info[series_key]`: the pair's components and its file count. */
  datatype Info = Info(description: string, number: int, count: nat)

  type Histogram = OrderedMap<SeriesKey, Info>

  /** One file of series `key`: bump the count of a known pair, or start
      a new entry at 1. */
  function Tally(h: Histogram, key: SeriesKey): (r: Histogram)
    requires Valid(h)
    ensures Valid(r)
  {
    if key in h.values then Put(h, key, h.values[key].(count := h.values[key].count + 1))
    else Put(h, key, Info(key.description, key.number, 1))
  }

  /** The dictionary after the loop over all files' keys. */
  function Tabulate(keys: seq<SeriesKey>): (h: Histogram)
    ensures Valid(h)
    decreases |keys|
  {
    if |keys| == 0 then Empty()
    else Tally(Tabulate(keys[..|keys| - 1]), keys[|keys| - 1])
  }

  /** The files' keys, read in order; the first file missing a series
      element raises. */
  function KeysOf(files: seq<Loaded>): (r: Result<seq<SeriesKey>, Fault>)
    ensures r.Success? <==> forall i :: 0 <= i < |files| ==> HasSeriesElements(files[i].ds)
    ensures r.Success? ==> |r.value| == |files| && forall i :: 0 <= i < |files| ==>
              r.value[i] == SeriesKey(files[i].ds.seriesDescription.value, files[i].ds.seriesNumber.value)
    ensures r.Failure? ==>
              exists i :: 0 <= i < |files| && FirstIncomplete(files, i) && r.error == MissingFault(files[i])
    decreases |files|
  {
    if |files| == 0 then Success([])
    else
      var ds := files[0].ds;
      if !HasSeriesElements(ds) then
        assert FirstIncomplete(files, 0);
        Failure(MissingFault(files[0]))
      else match KeysOf(files[1..])
        case Failure(f) =>
          assert forall i :: 0 <= i < |files| - 1 && FirstIncomplete(files[1..], i) ==> FirstIncomplete(files, i + 1);
          Failure(f)
        case Success(rest) => Success([SeriesKey(ds.seriesDescription.value, ds.seriesNumber.value)] + rest)
  }

  /** One run of `display_dicom_series_info`; `listing` is `None` when the
      directory cannot be listed. Nothing is reported unless every entry
      parses and carries both series elements. */
  function DisplaySeriesInfo(dir: Path, listing: Option<seq<Entry>>): (r: Result<Histogram, Fault>)
    ensures r.Success? <==>
              listing.Some? && forall i :: 0 <= i < |listing.value| ==>
                listing.value[i].read.Parsed? && HasSeriesElements(listing.value[i].read.ds)
    ensures r.Success? ==> Valid(r.value)
    ensures listing.None? ==> r == Failure(ListingUnavailable(dir))
    ensures listing.Some? && r.Failure? && (exists i :: 0 <= i < |listing.value| && !listing.value[i].read.Parsed?) ==>
              exists i :: 0 <= i < |listing.value| && FirstUnparsed(listing.value, i) &&
                r.error == ReadFault(Join(dir, listing.value[i].name), listing.value[i].read)
    ensures listing.Some? && r.Failure? && (forall i :: 0 <= i < |listing.value| ==> listing.value[i].read.Parsed?) ==>
              exists i ::
                && 0 <= i < |listing.value|
                && !HasSeriesElements(listing.value[i].read.ds)
                && (forall j :: 0 <= j < i ==> HasSeriesElements(listing.value[j].read.ds))
                && r.error == MissingFault(Loaded(Join(dir, listing.value[i].name), listing.value[i].read.ds))
  {
    if listing.None? then Failure(ListingUnavailable(dir))
    else
      match ReadAll(dir, listing.value)
      case Failure(f) => Failure(f)
      case Success(files) =>
        match KeysOf(files)
        case Failure(f) => Failure(f)
        case Success(keys) => Success(Tabulate(keys))
  }

  /** Sum of the counts of the listed keys. */
  function Total(keys: seq<SeriesKey>, values: map<SeriesKey, Info>): nat
    requires forall i :: 0 <= i < |keys| ==> keys[i] in values
    decreases |keys|
  {
    if |keys| == 0 then 0
    else Total(keys[..|keys| - 1], values) + values[keys[|keys| - 1]].count
  }

  /** The total only looks at the listed keys' entries. */
  lemma {:induction false} TotalFrame(keys: seq<SeriesKey>, m: map<SeriesKey, Info>, m': map<SeriesKey, Info>)
    requires forall i :: 0 <= i < |keys| ==> keys[i] in m && keys[i] in m' && m[keys[i]] == m'[keys[i]]
    ensures Total(keys, m) == Total(keys, m')
    decreases |keys|
  {
    if |keys| > 0 {
      TotalFrame(keys[..|keys| - 1], m, m');
    }
  }

  /** Changing the entry of one listed key changes the total by the
      difference of its counts. */
  lemma {:induction false} TotalUpdate(keys: seq<SeriesKey>, m: map<SeriesKey, Info>, k: SeriesKey, info: Info)
    requires forall i, j :: 0 <= i < j < |keys| ==> keys[i] != keys[j]
    requires forall i :: 0 <= i < |keys| ==> keys[i] in m
    requires k in keys
    ensures Total(keys, m[k := info]) == Total(keys, m) - m[k].count + info.count
    decreases |keys|
  {
    var init := keys[..|keys| - 1];
    var last := keys[|keys| - 1];
    if last == k {
      assert k !in init;
      TotalFrame(init, m, m[k := info]);
    } else {
      assert k in init;
      TotalUpdate(init, m, k, info);
    }
  }

  /** One tally adds the key if new, bumps its count by one, and leaves
      every other entry alone. */
  lemma TallyEffect(h: Histogram, key: SeriesKey)
    requires Valid(h)
    ensures forall k :: k in Tally(h, key).values <==> k in h.values || k == key
    ensures forall k :: k in h.values && k != key ==> Tally(h, key).values[k] == h.values[k]
    ensures key in h.values ==> Tally(h, key).values[key] == h.values[key].(count := h.values[key].count + 1)
    ensures key !in h.values ==> Tally(h, key).values[key] == Info(key.description, key.number, 1)
  {
  }

  /** `h` is the histogram of `keys`: one entry per distinct key, each
      repeating its key's components, counting the key's occurrences. */
  ghost predicate Tabulates(h: Histogram, keys: seq<SeriesKey>) {
    && (forall k :: k in h.values <==> k in keys)
    && (forall k :: k in h.values ==>
          && h.values[k].description == k.description
          && h.values[k].number == k.number
          && h.values[k].count == multiset(keys)[k])
  }

  /** Tallying one more key extends the histogram of the keys before it. */
  lemma TallyTabulates(h: Histogram, init: seq<SeriesKey>, key: SeriesKey)
    requires Valid(h) && Tabulates(h, init)
    ensures Tabulates(Tally(h, key), init + [key])
  {
    var keys := init + [key];
    TallyEffect(h, key);
    var r := Tally(h, key);
    assert multiset(keys) == multiset(init) + multiset{key};
    assert forall k :: k in keys <==> k in init || k == key;
    forall k | k in r.values
      ensures r.values[k].description == k.description && r.values[k].number == k.number
      ensures r.values[k].count == multiset(keys)[k]
    {
      if k != key {
        assert r.values[k] == h.values[k];
      }
    }
  }

  /** The reported dictionary has one entry per distinct pair among the
      files, each entry repeats its key's description and number, and its
      count is the number of files with that pair (so at least 1). */
  lemma TabulateCounts(keys: seq<SeriesKey>)
    ensures forall k :: k in Tabulate(keys).values <==> k in keys
    ensures forall k :: k in Tabulate(keys).values ==>
              && Tabulate(keys).values[k].description == k.description
              && Tabulate(keys).values[k].number == k.number
              && Tabulate(keys).values[k].count == multiset(keys)[k]
              && Tabulate(keys).values[k].count >= 1
  {
    TabulateIsHistogram(keys);
  }

  /** The dictionary's keys are the distinct pairs in order of their first
      file. */
  lemma {:induction false} TabulateKeys(keys: seq<SeriesKey>)
    ensures Tabulate(keys).keys == FirstOccurrences(keys)
    decreases |keys|
  {
    if |keys| > 0 {
      var init := keys[..|keys| - 1];
      var key := keys[|keys| - 1];
      TabulateKeys(init);
      assert keys == init + [key];
      FirstOccurrencesSnoc(init, key);
      var h := Tabulate(init);
      assert key in h.values <==> key in FirstOccurrences(init);
    }
  }

  lemma {:induction false} TabulateIsHistogram(keys: seq<SeriesKey>)
    ensures Tabulates(Tabulate(keys), keys)
    decreases |keys|
  {
    if |keys| > 0 {
      var init := keys[..|keys| - 1];
      var key := keys[|keys| - 1];
      TabulateIsHistogram(init);
      assert keys == init + [key];
      TallyTabulates(Tabulate(init), init, key);
    }
  }

  /** One tally adds one to the total. */
  lemma TallyTotal(h: Histogram, key: SeriesKey)
    requires Valid(h)
    ensures Valid(Tally(h, key))
    ensures Total(Tally(h, key).keys, Tally(h, key).values) == Total(h.keys, h.values) + 1
  {
    var r := Tally(h, key);
    if key in h.values {
      var info := h.values[key].(count := h.values[key].count + 1);
      assert r.keys == h.keys && r.values == h.values[key := info];
      TotalUpdate(h.keys, h.values, key, info);
    } else {
      assert r.keys == h.keys + [key] && r.values == h.values[key := Info(key.description, key.number, 1)];
      assert r.keys[..|r.keys| - 1] == h.keys;
      TotalFrame(h.keys, h.values, r.values);
    }
  }

  /** The counts add up to the number of files read. */
  lemma {:induction false} TabulateTotal(keys: seq<SeriesKey>)
    ensures Total(Tabulate(keys).keys, Tabulate(keys).values) == |keys|
    decreases |keys|
  {
    if |keys| > 0 {
      var init := keys[..|keys| - 1];
      TabulateTotal(init);
      TallyTotal(Tabulate(init), keys[|keys| - 1]);
    }
  }

  /** Whole-report form: a successful report has one entry per distinct
      pair among the directory's files, in order of the pair's first file,
      each count at least 1 and equal to that pair's number of files, the
      counts summing to the number of files. */
  lemma DisplaySeriesInfoReport(dir: Path, listing: seq<Entry>)
    requires DisplaySeriesInfo(dir, Some(listing)).Success?
    ensures var h := DisplaySeriesInfo(dir, Some(listing)).value;
      var keys := seq(|listing|, i requires 0 <= i < |listing| =>
        SeriesKey(listing[i].read.ds.seriesDescription.value, listing[i].read.ds.seriesNumber.value));
      && (forall k :: k in h.values <==> k in keys)
      && (forall k :: k in h.values ==>
            h.values[k].description == k.description && h.values[k].number == k.number &&
            h.values[k].count == multiset(keys)[k] && h.values[k].count >= 1)
      && Total(h.keys, h.values) == |listing|
      && h.keys == FirstOccurrences(keys)
  {
    var files := ReadAll(dir, listing).value;
    var keys := KeysOf(files).value;
    assert keys == seq(|listing|, i requires 0 <= i < |listing| =>
      SeriesKey(listing[i].read.ds.seriesDescription.value, listing[i].read.ds.seriesNumber.value));
    assert DisplaySeriesInfo(dir, Some(listing)).value == Tabulate(keys);
    TabulateCounts(keys);
    TabulateTotal(keys);
    TabulateKeys(keys);
  }
}
