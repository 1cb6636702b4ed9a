/**
 * The new-treatment dialog: the input check that enables its add button, and
 * the add step that builds the treatment. Parsing a time text goes through
 * DateConverter, which is not part of this model: it is the parameter
 * `parseTime`, and a text it rejects stands for the exception the check catches.
 */
module NewTreatmentController {
  import opened JavaLang
  import opened JavaTime
  import opened TreatmentModel
  import opened CareGiverModel

  /**
   * areInputDataInvalid: a null begin or end text, a text that does not parse, an
   * end not strictly after the begin, a blank description or a missing date.
   */
  predicate AreInputDataInvalid(beginText: Option<string>, endText: Option<string>, description: string,
                                date: Option<Date>, parseTime: string -> Option<Time>)
  {
    if beginText.None? || endText.None? then true
    else
      var begin := parseTime(beginText.value);
      var end := parseTime(endText.value);
      if begin.None? || end.None? then true
      else if !IsAfter(end.value, begin.value) then true
      else IsBlank(description) || date.None?
  }

  /** The input is valid exactly when both times parse, end is after begin, and description and date are present. */
  lemma InputValidIff(beginText: Option<string>, endText: Option<string>, description: string,
                      date: Option<Date>, parseTime: string -> Option<Time>)
    ensures !AreInputDataInvalid(beginText, endText, description, date, parseTime) <==>
      && beginText.Some? && endText.Some?
      && parseTime(beginText.value).Some? && parseTime(endText.value).Some?
      && parseTime(endText.value).value.nanoOfDay > parseTime(beginText.value).value.nanoOfDay
      && (exists i :: 0 <= i < |description| && !IsJavaWhitespace(description[i]))
      && date.Some?
  {
  }

  /** A treatment that ends when it begins is rejected. */
  lemma EqualTimesRejected(beginText: string, endText: string, description: string, date: Option<Date>,
                           parseTime: string -> Option<Time>)
    requires parseTime(beginText).Some? && parseTime(endText) == parseTime(beginText)
    ensures AreInputDataInvalid(Some(beginText), Some(endText), description, date, parseTime)
  {
  }

  /** An empty or all-whitespace description is rejected, whatever the times. */
  lemma BlankDescriptionRejected(beginText: Option<string>, endText: Option<string>, description: string,
                                 date: Option<Date>, parseTime: string -> Option<Time>)
    requires forall i :: 0 <= i < |description| ==> IsJavaWhitespace(description[i])
    ensures AreInputDataInvalid(beginText, endText, description, date, parseTime)
  {
  }

  /** What handleAdd produced. */
  datatype AddOutcome =
    | Added(treatment: Treatment)
    /** careGiver.getCid() on a missing caregiver, or on one without a cid. */
    | NullCaregiver

  /**
   * handleAdd, reached only through the enabled add button (so the input is
   * valid): builds a new treatment for the patient and the selected caregiver.
   * Valid input does not depend on a caregiver being selected, so a missing one
   * fails here.
   */
  method HandleAdd(patientPid: int, careGiver: CareGiver?, date: Option<Date>, beginText: Option<string>,
                   endText: Option<string>, description: string, remarks: string,
                   parseTime: string -> Option<Time>)
    returns (outcome: AddOutcome)
    requires !AreInputDataInvalid(beginText, endText, description, date, parseTime)
    ensures outcome.NullCaregiver? <==> careGiver == null || careGiver.cid.None?
    ensures outcome.Added? ==> fresh(outcome.treatment)
    ensures outcome.Added? ==>
      outcome.treatment.View() == TreatmentView(0, patientPid, careGiver.cid.value, date.value,
                                                parseTime(beginText.value).value, parseTime(endText.value).value,
                                                description, remarks)
  {
    var begin := parseTime(beginText.value).value;
    var end := parseTime(endText.value).value;
    if careGiver == null || careGiver.cid.None? {
      return NullCaregiver;
    }
    var treatment := new Treatment.New(patientPid, careGiver.GetCid(), date.value, begin, end, description, remarks);
    outcome := Added(treatment);
  }
}
