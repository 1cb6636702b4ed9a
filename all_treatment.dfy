/**
 * The treatment overview screen: the patient selection list ("alle" and one
 * "surname, firstName" entry per patient), the lookups by display name and by
 * surname, the filter of the treatment list, and deletion from it.
 *
 * Patient, PatientDao and TreatmentDao are not part of this model: a patient is
 * the three values the screen reads, and the DAO results are parameters.
 */
module AllTreatmentController {
  import opened JavaLang
  import opened TreatmentModel
  import opened CareGiverModel

  datatype Patient = Patient(pid: int, surname: string, firstName: string)

  const AllPatients: string := "alle"

  /** formatPatientDisplayName: `String.format("%s, %s", surname, firstName)`. */
  function FormatPatientDisplayName(patient: Patient): (name: string)
    ensures |name| == |patient.surname| + 2 + |patient.firstName|
    ensures name[..|patient.surname|] == patient.surname
    ensures name[|patient.surname|] == ',' && name[|patient.surname| + 1] == ' '
    ensures name[|patient.surname| + 2..] == patient.firstName
  {
    patient.surname + ", " + patient.firstName
  }

  /** The selection entries after "alle", one per patient in list order. */
  function DisplayNames(patients: seq<Patient>): (names: seq<string>)
    ensures |names| == |patients|
    ensures forall i :: 0 <= i < |patients| ==> names[i] == FormatPatientDisplayName(patients[i])
  {
    seq(|patients|, i requires 0 <= i < |patients| => FormatPatientDisplayName(patients[i]))
  }

  /** The position of the first patient in list order whose display name is `name` (|patients| if none). */
  function FirstWithDisplayName(patients: seq<Patient>, name: string): (k: nat)
    ensures k <= |patients|
    ensures forall j :: 0 <= j < k ==> FormatPatientDisplayName(patients[j]) != name
    ensures k < |patients| ==> FormatPatientDisplayName(patients[k]) == name
  {
    if patients == [] then 0
    else if FormatPatientDisplayName(patients[0]) == name then 0
    else 1 + FirstWithDisplayName(patients[1..], name)
  }

  /** The first patient in list order whose display name is `name`. */
  function FindByDisplayName(patients: seq<Patient>, name: string): (found: Option<Patient>)
    ensures found.None? <==> forall i :: 0 <= i < |patients| ==> FormatPatientDisplayName(patients[i]) != name
    ensures found.Some? ==> found.value == patients[FirstWithDisplayName(patients, name)]
  {
    var k := FirstWithDisplayName(patients, name);
    if k < |patients| then Some(patients[k]) else None
  }

  /** A position with a match and no match before it is the first match. */
  lemma FirstMatchIsFirst(patients: seq<Patient>, name: string, k: int)
    requires 0 <= k < |patients| && FormatPatientDisplayName(patients[k]) == name
    requires forall j :: 0 <= j < k ==> FormatPatientDisplayName(patients[j]) != name
    ensures FirstWithDisplayName(patients, name) == k
  {
  }

  /** Every display name contains ", ", so "alle" never resolves to a patient. */
  lemma AllPatientsNeverResolves(patients: seq<Patient>)
    ensures FindByDisplayName(patients, AllPatients).None?
  {
    forall i | 0 <= i < |patients| ensures FormatPatientDisplayName(patients[i]) != AllPatients {
    }
  }

  /** getPatientFromDisplayName: the loop returning the first patient with that display name. */
  method GetPatientFromDisplayName(patients: seq<Patient>, displayName: string) returns (patient: Option<Patient>)
    ensures patient == FindByDisplayName(patients, displayName)
  {
    var i := 0;
    while i < |patients|
      invariant 0 <= i <= |patients|
      invariant forall j :: 0 <= j < i ==> FormatPatientDisplayName(patients[j]) != displayName
    {
      if displayName == FormatPatientDisplayName(patients[i]) {
        FirstMatchIsFirst(patients, displayName, i);
        return Some(patients[i]);
      }
      i := i + 1;
    }
    return None;
  }

  /** searchPatientInList: the first patient with that surname, or null. */
  method SearchPatientInList(patients: seq<Patient>, surname: string) returns (patient: Option<Patient>)
    ensures patient.None? <==> forall i :: 0 <= i < |patients| ==> patients[i].surname != surname
    ensures patient.Some? ==> exists i :: (0 <= i < |patients| && patients[i] == patient.value
      && patients[i].surname == surname && forall j :: 0 <= j < i ==> patients[j].surname != surname)
  {
    var i := 0;
    while i < |patients|
      invariant 0 <= i <= |patients|
      invariant forall j :: 0 <= j < i ==> patients[j].surname != surname
    {
      if patients[i].surname == surname {
        return Some(patients[i]);
      }
      i := i + 1;
    }
    return None;
  }

  /** searchCareGiverInList: the first caregiver with that surname, or null. */
  method SearchCareGiverInList(careGivers: seq<CareGiver>, surname: string) returns (careGiver: CareGiver?)
    ensures careGiver == null <==> forall i :: 0 <= i < |careGivers| ==> careGivers[i].surname != surname
    ensures careGiver != null ==> exists i :: (0 <= i < |careGivers| && careGivers[i] == careGiver
      && careGivers[i].surname == surname && forall j :: 0 <= j < i ==> careGivers[j].surname != surname)
  {
    var i := 0;
    while i < |careGivers|
      invariant 0 <= i <= |careGivers|
      invariant forall j :: 0 <= j < i ==> careGivers[j].surname != surname
    {
      if careGivers[i].surname == surname {
        return careGivers[i];
      }
      i := i + 1;
    }
    return null;
  }

  /**
   * The treatments handleComboBox shows: all of them for no selection or "alle",
   * the patient's for a name that resolves, none for a name that does not (or
   * when the DAO raises an SQLException).
   */
  function ShownTreatments(selection: Option<string>, patients: seq<Patient>, readAll: Result<seq<Treatment>>,
                           readByPid: int -> Result<seq<Treatment>>): seq<Treatment>
  {
    if selection.None? || selection.value == AllPatients then
      (if readAll.Ok? then readAll.value else [])
    else
      match FindByDisplayName(patients, selection.value)
      case None => []
      case Some(p) => if readByPid(p.pid).Ok? then readByPid(p.pid).value else []
  }

  /** Choosing a patient's display name shows exactly that patient's treatments. */
  lemma SelectingPatientShowsTheirTreatments(patients: seq<Patient>, i: int, readAll: Result<seq<Treatment>>,
                                             readByPid: int -> Result<seq<Treatment>>)
    requires 0 <= i < |patients|
    requires forall j :: 0 <= j < |patients| && j != i ==> FormatPatientDisplayName(patients[j]) != FormatPatientDisplayName(patients[i])
    requires readByPid(patients[i].pid).Ok?
    ensures ShownTreatments(Some(FormatPatientDisplayName(patients[i])), patients, readAll, readByPid)
         == readByPid(patients[i].pid).value
  {
    var name := FormatPatientDisplayName(patients[i]);
    AllPatientsNeverResolves([patients[i]]);
    assert name != AllPatients;
    assert FirstWithDisplayName(patients, name) == i;
  }

  /** The treatment overview screen's lists. */
  class TreatmentOverview {
    var patientSelection: seq<string>
    var treatments: seq<Treatment>
    /** Null (None) until a read of the patients succeeds. */
    var patientList: Option<seq<Patient>>

    /** The field initialisers: two empty lists, and no patient list yet. */
    constructor ()
      ensures patientSelection == [] && treatments == [] && patientList.None?
    {
      patientSelection := [];
      treatments := [];
      patientList := None;
    }

    /**
     * createComboBoxData: "alle" first, then one display name per patient; when
     * reading the patients fails, only "alle" and the old patient list remain.
     */
    method CreateComboBoxData(readPatients: Result<seq<Patient>>)
      modifies this
      ensures treatments == old(treatments)
      ensures readPatients.Ok? ==> patientList == Some(readPatients.value)
      ensures readPatients.Ok? ==> patientSelection == [AllPatients] + DisplayNames(readPatients.value)
      ensures readPatients.SqlError? ==> patientList == old(patientList) && patientSelection == [AllPatients]
    {
      patientSelection := [AllPatients];
      if readPatients.SqlError? {
        return;
      }
      var patients := readPatients.value;
      patientList := Some(patients);
      for i := 0 to |patients|
        invariant patientList == Some(patients) && treatments == old(treatments)
        invariant patientSelection == [AllPatients] + DisplayNames(patients[..i])
      {
        assert DisplayNames(patients[..i + 1]) == DisplayNames(patients[..i]) + [FormatPatientDisplayName(patients[i])];
        patientSelection := patientSelection + [FormatPatientDisplayName(patients[i])];
      }
      assert patients[..|patients|] == patients;
    }

    /**
     * handleComboBox: clears the treatment list and refills it for the selection.
     * A patient's name is looked up in the patient list, which must have been read.
     */
    method HandleComboBox(selection: Option<string>, readAll: Result<seq<Treatment>>,
                          readByPid: int -> Result<seq<Treatment>>)
      requires selection.None? || selection.value == AllPatients || patientList.Some?
      modifies this
      ensures treatments == ShownTreatments(selection, if patientList.Some? then patientList.value else [],
                                            readAll, readByPid)
      ensures patientList == old(patientList) && patientSelection == old(patientSelection)
    {
      treatments := [];
      if selection.None? || selection.value == AllPatients {
        if readAll.Ok? {
          treatments := treatments + readAll.value;
        }
      } else {
        var patient := GetPatientFromDisplayName(patientList.value, selection.value);
        if patient.Some? {
          var result := readByPid(patient.value.pid);
          if result.Ok? {
            treatments := treatments + result.value;
          }
        }
      }
    }

    /**
     * handleNewTreatment: the dialog opens for the patient the selection names;
     * otherwise only the no-patient alert is shown (None). The lookup walks the
     * patient list, so the list must have been read.
     */
    method HandleNewTreatment(selection: string) returns (dialogFor: Option<Patient>)
      requires patientList.Some?
      ensures dialogFor == FindByDisplayName(patientList.value, selection)
      ensures selection == AllPatients ==> dialogFor.None?
    {
      dialogFor := GetPatientFromDisplayName(patientList.value, selection);
      if selection == AllPatients {
        AllPatientsNeverResolves(patientList.value);
      }
    }

    /**
     * handleDelete: removes the selected treatment from the list and returns the
     * tid that is passed to the DAO's deleteById.
     */
    method HandleDelete(index: int) returns (deletedTid: int)
      requires 0 <= index < |treatments|
      modifies this
      ensures treatments == old(treatments)[..index] + old(treatments)[index + 1..]
      ensures deletedTid == old(treatments)[index].tid
      ensures patientList == old(patientList) && patientSelection == old(patientSelection)
    {
      var removed := treatments[index];
      treatments := treatments[..index] + treatments[index + 1..];
      deletedTid := removed.tid;
    }
  }
}
