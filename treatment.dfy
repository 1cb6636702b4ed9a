/**
 * The Treatment record: one treatment of a patient by a caregiver on a date,
 * with begin and end times, a description and remarks. The patient and
 * caregiver ids are fixed at construction; the other fields have setters.
 *
 * The text setters go through DateConverter, which is not part of this model:
 * its parsing is the parameter `parse`, and a text it rejects (an exception in
 * Java) leaves the field as it was.
 */
module TreatmentModel {
  import opened JavaLang
  import opened JavaTime

  datatype TreatmentView = TreatmentView(
    tid: int,
    pid: int,
    cid: int,
    date: Date,
    begin: Time,
    end: Time,
    description: string,
    remarks: string)

  class Treatment {
    /** 0 until the treatment has been stored. */
    var tid: int
    const pid: int
    const cid: int
    var date: Date
    var begin: Time
    var end: Time
    var description: string
    var remarks: string

    function View(): TreatmentView
      reads this
    {
      TreatmentView(tid, pid, cid, date, begin, end, description, remarks)
    }

    /** A treatment not yet stored: tid keeps its default 0. */
    constructor New(pid: int, cid: int, date: Date, begin: Time, end: Time, description: string, remarks: string)
      ensures View() == TreatmentView(0, pid, cid, date, begin, end, description, remarks)
    {
      this.tid := 0;
      this.pid := pid;
      this.cid := cid;
      this.date := date;
      this.begin := begin;
      this.end := end;
      this.description := description;
      this.remarks := remarks;
    }

    /** A stored treatment: every id exactly as given. */
    constructor Stored(tid: int, pid: int, cid: int, date: Date, begin: Time, end: Time,
                       description: string, remarks: string)
      ensures View() == TreatmentView(tid, pid, cid, date, begin, end, description, remarks)
    {
      this.tid := tid;
      this.pid := pid;
      this.cid := cid;
      this.date := date;
      this.begin := begin;
      this.end := end;
      this.description := description;
      this.remarks := remarks;
    }

    /** setDate: the parsed date replaces the old one; an unparsable text changes nothing. */
    method SetDate(text: string, parse: string -> Option<Date>) returns (parsed: bool)
      modifies this
      ensures parsed <==> parse(text).Some?
      ensures parsed ==> View() == old(View()).(date := parse(text).value)
      ensures !parsed ==> View() == old(View())
    {
      var d := parse(text);
      if d.None? {
        return false;
      }
      date := d.value;
      parsed := true;
    }

    /** setBegin */
    method SetBegin(text: string, parse: string -> Option<Time>) returns (parsed: bool)
      modifies this
      ensures parsed <==> parse(text).Some?
      ensures parsed ==> View() == old(View()).(begin := parse(text).value)
      ensures !parsed ==> View() == old(View())
    {
      var t := parse(text);
      if t.None? {
        return false;
      }
      begin := t.value;
      parsed := true;
    }

    /** setEnd */
    method SetEnd(text: string, parse: string -> Option<Time>) returns (parsed: bool)
      modifies this
      ensures parsed <==> parse(text).Some?
      ensures parsed ==> View() == old(View()).(end := parse(text).value)
      ensures !parsed ==> View() == old(View())
    {
      var t := parse(text);
      if t.None? {
        return false;
      }
      end := t.value;
      parsed := true;
    }

    method SetDescription(description: string)
      modifies this
      ensures View() == old(View()).(description := description)
    {
      this.description := description;
    }

    method SetRemarks(remarks: string)
      modifies this
      ensures View() == old(View()).(remarks := remarks)
    {
      this.remarks := remarks;
    }
  }
}
