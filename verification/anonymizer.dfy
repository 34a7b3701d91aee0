/** The field-level scrub the anonymising variant applies to every file it
    writes: three patient elements are overwritten, nothing else changes. */
module Anonymizer {
  import opened Wrappers
  import opened Dicom

  const PlaceholderId := "123456789"
  const PlaceholderName := "ANONYMOUS"

  /** Two data sets agree on everything except the three patient elements. */
  ghost predicate SameOutsidePatient(a: DataSet, b: DataSet) {
    && a.seriesDescription == b.seriesDescription
    && a.seriesNumber == b.seriesNumber
    && a.others == b.others
  }

  /** Sets PatientID, PatientName and PatientBirthDate (present or not
      before) on the copy being written; `birthDate` is the processing
      date as `%Y%m%d`. */
  function Anonymise(ds: DataSet, birthDate: string): (r: DataSet)
    ensures r.patientId == Some(PlaceholderId)
    ensures r.patientName == Some(PlaceholderName)
    ensures r.patientBirthDate == Some(birthDate)
    ensures SameOutsidePatient(r, ds)
  {
    ds.(patientId := Some(PlaceholderId),
        patientName := Some(PlaceholderName),
        patientBirthDate := Some(birthDate))
  }

  /** Scrubbing a scrubbed data set again with the same date changes nothing. */
  lemma AnonymiseIdempotent(ds: DataSet, birthDate: string)
    ensures Anonymise(Anonymise(ds, birthDate), birthDate) == Anonymise(ds, birthDate)
  {
  }

  /** The written data set does not depend on the original patient
      elements: two files that differ only there are written identically. */
  lemma AnonymiseForgetsPatient(a: DataSet, b: DataSet, birthDate: string)
    requires SameOutsidePatient(a, b)
    ensures Anonymise(a, birthDate) == Anonymise(b, birthDate)
  {
  }
}
