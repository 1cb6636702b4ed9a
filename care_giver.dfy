/**
 * The CareGiver record of the treatment screens: a caregiver with an optional
 * id, a phone number, and the list of treatments assigned so far. The list
 * holds no treatment object twice; containment is object identity, because
 * Treatment does not override equals.
 */
module CareGiverModel {
  import opened JavaLang
  import opened TreatmentModel

  /** No treatment object occurs twice. */
  predicate NoDuplicates(treatments: seq<Treatment>) {
    forall i, j :: 0 <= i < |treatments| && 0 <= j < |treatments| && i != j ==> treatments[i] != treatments[j]
  }

  class CareGiver {
    /** Null until the caregiver has been stored. */
    var cid: Option<int>
    var firstName: string
    var surname: string
    var telephoneNumber: string
    var allTreatments: seq<Treatment>

    predicate Valid()
      reads this
    {
      NoDuplicates(allTreatments)
    }

    /** A caregiver not yet stored: no cid, no treatments. */
    constructor New(firstName: string, surname: string, telephoneNumber: string)
      ensures Valid()
      ensures cid.None? && this.firstName == firstName && this.surname == surname
      ensures this.telephoneNumber == telephoneNumber && allTreatments == []
    {
      cid := None;
      this.firstName := firstName;
      this.surname := surname;
      this.telephoneNumber := telephoneNumber;
      allTreatments := [];
    }

    /** A stored caregiver. */
    constructor Stored(cid: int, firstName: string, surname: string, telephoneNumber: string)
      ensures Valid()
      ensures this.cid == Some(cid) && this.firstName == firstName && this.surname == surname
      ensures this.telephoneNumber == telephoneNumber && allTreatments == []
    {
      this.cid := Some(cid);
      this.firstName := firstName;
      this.surname := surname;
      this.telephoneNumber := telephoneNumber;
      allTreatments := [];
    }

    /** getCid: only defined once a cid is set (the Java code dereferences a null property otherwise). */
    function GetCid(): int
      reads this
      requires cid.Some?
    {
      cid.value
    }

    /** setTelephoneNumber: only the phone number changes. */
    method SetTelephoneNumber(telephoneNumber: string)
      modifies this
      ensures this.telephoneNumber == telephoneNumber
      ensures cid == old(cid) && firstName == old(firstName) && surname == old(surname)
      ensures allTreatments == old(allTreatments)
    {
      this.telephoneNumber := telephoneNumber;
    }

    /**
     * add: a treatment already in the list is refused and the list stays as it
     * is; any other one is appended at the end.
     */
    method Add(treatment: Treatment) returns (added: bool)
      requires Valid()
      modifies this
      ensures Valid()
      ensures added <==> treatment !in old(allTreatments)
      ensures added ==> allTreatments == old(allTreatments) + [treatment]
      ensures !added ==> allTreatments == old(allTreatments)
      ensures cid == old(cid) && firstName == old(firstName) && surname == old(surname)
      ensures telephoneNumber == old(telephoneNumber)
    {
      if treatment in allTreatments {
        return false;
      }
      allTreatments := allTreatments + [treatment];
      added := true;
    }
  }

  /**
   * Two distinct treatment objects with the same values are both accepted, and a
   * second add of the same object is refused.
   */
  method AddTwoEqualTreatments(careGiver: CareGiver, pid: int, date: JavaTime.Date,
                               begin: JavaTime.Time, end: JavaTime.Time, description: string)
    requires careGiver.Valid()
    modifies careGiver
  {
    var first := new Treatment.New(pid, 1, date, begin, end, description, "");
    var second := new Treatment.New(pid, 1, date, begin, end, description, "");
    assert first.View() == second.View();
    var addedFirst := careGiver.Add(first);
    var addedSecond := careGiver.Add(second);
    assert addedFirst && addedSecond;
    var addedAgain := careGiver.Add(first);
    assert !addedAgain;
  }
}
