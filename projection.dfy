/** The label/value lines `download_requisition_pdf` prints for a stored
    requisition, in print order. Page layout and fonts are not modelled. */
module Projection {
  import opened Common
  import opened Text
  import opened Requisitions

  /** The labels, in the order the document prints them: the requisition
      itself, then "Requested By", then "Approval Details". */
  const PdfLabels: seq<string> := [
    "Requisition ID", "Date of Requisition", "Basin", "Block", "Area", "2D/3D",
    "Return Date (Data to GMS)", "Type of Data Required", "Objective", "Remarks",
    "Name", "Designation", "CPF No.", "Mobile No.", "Group",
    "Status", "Approved/Denied By", "Decision Date"]

  const StatusLine := 15
  const ApproverLine := 16
  const DecisionDateLine := 17

  /** `status.replace('_', ' ').title()`. */
  function HumanStatus(status: string): string {
    Title(ReplaceChar(status, '_', ' '))
  }

  /** `approver_name or approver_cpf_id or 'N/A'`. */
  function ApprovedBy(r: Requisition): (a: string)
    ensures a != ""
  {
    OrElse(r.approverName, OrElse(r.approverCpfId, "N/A"))
  }

  /** The printed lines. Every column of the row is in the dictionary, so
      `.get(column, 'N/A')` yields the column's value and a NULL prints as
      "None"; only the approver line falls back to "N/A". */
  function Project(r: Requisition): (doc: seq<(string, string)>)
    ensures |doc| == |PdfLabels|
    ensures forall i :: 0 <= i < |doc| ==> doc[i].0 == PdfLabels[i]
  {
    var f := r.fields;
    [ ("Requisition ID", r.id),
      ("Date of Requisition", Show(f.requisitionDate)),
      ("Basin", Show(f.basin)),
      ("Block", Show(f.block)),
      ("Area", Show(f.area)),
      ("2D/3D", Show(f.dimension)),
      ("Return Date (Data to GMS)", Show(f.returnDate)),
      ("Type of Data Required", Show(f.dataType)),
      ("Objective", Show(f.objective)),
      ("Remarks", Show(f.remarks)),
      ("Name", Show(f.userName)),
      ("Designation", Show(f.userDesignation)),
      ("CPF No.", Show(f.userCpfNo)),
      ("Mobile No.", Show(f.userMobileNo)),
      ("Group", Show(f.userGroup)),
      ("Status", HumanStatus(r.status)),
      ("Approved/Denied By", ApprovedBy(r)),
      ("Decision Date", Show(r.decisionAt)) ]
  }

  /** The approver line shows the approver's name if it is non-empty, else
      the approver's CPF id if that is non-empty, else "N/A". */
  lemma ApproverLineFallback(r: Requisition)
    ensures Project(r)[ApproverLine] == ("Approved/Denied By",
      if Present(r.approverName) then r.approverName.value
      else if Present(r.approverCpfId) then r.approverCpfId.value
      else "N/A")
  {
  }

  /** A humanised status keeps the length of the stored one and has no
      underscore left in it. */
  lemma HumanStatusHasNoUnderscore(status: string)
    ensures |HumanStatus(status)| == |status|
    ensures forall i :: 0 <= i < |status| ==> HumanStatus(status)[i] != '_'
  {
    var spaced := ReplaceChar(status, '_', ' ');
    forall i | 0 <= i < |status| ensures HumanStatus(status)[i] != '_' {
      TitleAt(spaced, i);
    }
  }

  /** Humanising is idempotent on its own output. */
  lemma HumanStatusStable(status: string)
    ensures HumanStatus(HumanStatus(status)) == HumanStatus(status)
  {
    var h := HumanStatus(status);
    HumanStatusHasNoUnderscore(status);
    assert ReplaceChar(h, '_', ' ') == h;
    TitleIdempotent(ReplaceChar(status, '_', ' '));
  }

  /** The initial status prints as "Pending Level2". */
  lemma PendingShown()
    ensures HumanStatus(PendingLevel2) == "Pending Level2"
  {
    PendingSpaced();
    PendingPieces();
    TitleFromConcat("pending", " level2", false);
    PendingWord();
    LevelPart();
  }

  lemma PendingSpaced()
    ensures ReplaceChar("pending_level2", '_', ' ') == "pending level2"
  {
  }

  lemma PendingPieces()
    ensures "pending level2" == "pending" + " level2" && IsLetter("pending"[6])
    ensures "Pending" + " Level2" == "Pending Level2"
  {
  }

  lemma PendingWord()
    ensures TitleFrom("pending", false) == "Pending"
  {
    assert "pending" == "pen" + "ding" && IsLetter("pen"[2]);
    assert "Pen" + "ding" == "Pending";
    TitleFromConcat("pen", "ding", false);
    TitleWords();
  }

  /** Title-casing the four-letter pieces of the initial status. */
  lemma TitleWords()
    ensures TitleFrom("pen", false) == "Pen" && TitleFrom("ding", true) == "ding"
    ensures TitleFrom("lev", false) == "Lev" && TitleFrom("el2", true) == "el2"
  {
  }

  lemma LevelPart()
    ensures TitleFrom(" level2", true) == " Level2"
  {
    LevelPieces();
    TitleFromConcat(" ", "level2", true);
    SpaceWord();
    LevelWord();
  }

  lemma LevelPieces()
    ensures " level2" == " " + "level2" && !IsLetter(" "[0])
    ensures " " + "Level2" == " Level2"
  {
  }

  lemma SpaceWord()
    ensures TitleFrom(" ", true) == " "
  {
  }

  lemma LevelWord()
    ensures TitleFrom("level2", false) == "Level2"
  {
    assert "level2" == "lev" + "el2" && IsLetter("lev"[2]);
    assert "Lev" + "el2" == "Level2";
    TitleFromConcat("lev", "el2", false);
    TitleWords();
  }

  /** A freshly created requisition prints as pending, with no approver
      ("N/A") and no decision date ("None"). */
  lemma ProjectNewRequisition(id: string, s: Submission, now: string)
    ensures var doc := Project(NewRequisition(id, s, now));
      && doc[0] == ("Requisition ID", id)
      && doc[StatusLine] == ("Status", "Pending Level2")
      && doc[ApproverLine] == ("Approved/Denied By", "N/A")
      && doc[DecisionDateLine] == ("Decision Date", "None")
  {
    PendingShown();
  }

  /** A decision changes only the "Approval Details" lines: the status as
      humanised, the approver by the fallback chain, and the decision time. */
  lemma ProjectAfterDecision(r: Requisition, d: Decision)
    ensures var before, after := Project(r), Project(ApplyDecision(r, d));
      && after[..StatusLine] == before[..StatusLine]
      && after[StatusLine] == ("Status", HumanStatus(d.status))
      && after[ApproverLine] == ("Approved/Denied By", OrElse(d.approverName, OrElse(d.approverCpfId, "N/A")))
      && after[DecisionDateLine] == ("Decision Date", d.at)
  {
  }
}
