/** Rows of the `requisitions` table, how `create_requisition` builds one and
    how `update_requisition_status` records a decision on one. */
module Requisitions {
  import opened Common
  import opened Text

  /** The fields a requester submits (the JSON body of the create request):
      descriptive fields followed by the requester snapshot. `None` is a field
      that was not sent or was null. */
  datatype Submission = Submission(
    requisitionDate: Option<string>,
    basin: Option<string>,
    block: Option<string>,
    area: Option<string>,
    dimension: Option<string>,
    returnDate: Option<string>,
    dataType: Option<string>,
    objective: Option<string>,
    remarks: Option<string>,
    userName: Option<string>,
    userDesignation: Option<string>,
    userCpfNo: Option<string>,
    userMobileNo: Option<string>,
    userGroup: Option<string>,
    requestedByUserId: Option<string>,
    requestedByUserCpfId: Option<string>)

  /** One row of `requisitions`: the submitted fields, the derived title and
      description, the lifecycle status, and the four decision columns. */
  datatype Requisition = Requisition(
    id: string,
    fields: Submission,
    title: string,
    description: Option<string>,
    status: string,
    createdAt: string,
    approverUserId: Option<string>,
    approverCpfId: Option<string>,
    approverName: Option<string>,
    decisionAt: Option<string>)

  const PendingLevel2 := "pending_level2"

  /** Every row is stored under its own primary key. */
  ghost predicate KeyedById(table: map<string, Requisition>) {
    forall k :: k in table ==> table[k].id == k
  }

  /** `requisition_data.get(column)` for the columns the mandatory check reads. */
  function Column(s: Submission, column: string): Option<string> {
    match column
    case "basin" => s.basin
    case "user_cpf_no" => s.userCpfNo
    case "user_mobile_no" => s.userMobileNo
    case "user_group" => s.userGroup
    case _ => None
  }

  /** The mandatory columns, in the order they are checked. */
  const MandatoryFields: seq<string> := ["basin", "user_cpf_no", "user_mobile_no", "user_group"]

  /** How a column name appears in a message: `column.replace('_', ' ').capitalize()`. */
  function Caption(column: string): (caption: string)
    ensures |caption| == |column|
    ensures forall i :: 0 <= i < |caption| ==> caption[i] != '_'
  {
    Capitalize(ReplaceChar(column, '_', ' '))
  }

  /** The 400 message naming a missing column. */
  function MissingMessage(column: string): string {
    "Mandatory field '" + Caption(column) + "' is missing"
  }

  /** The captions of the four mandatory columns, as the messages show them:
      "Mandatory field 'Basin' is missing", "Mandatory field 'User cpf no' is
      missing", and so on. */
  lemma MandatoryCaptions()
    ensures Caption(MandatoryFields[0]) == "Basin"
    ensures Caption(MandatoryFields[1]) == "User cpf no"
    ensures Caption(MandatoryFields[2]) == "User mobile no"
    ensures Caption(MandatoryFields[3]) == "User group"
  {
    BasinCaption();
    CpfCaption();
    MobileCaption();
    GroupCaption();
  }

  lemma BasinCaption()
    ensures Caption("basin") == "Basin"
  {
    assert ReplaceChar("basin", '_', ' ') == "basin" == ['b'] + "asin";
    assert Lower("asin") == "asin";
    assert "Basin" == ['B'] + "asin";
    CapitalizeSpaced("basin", 'b', "asin");
  }

  lemma CpfCaption()
    ensures Caption("user_cpf_no") == "User cpf no"
  {
    assert ReplaceChar("user_cpf_no", '_', ' ') == "user cpf no" == ['u'] + "ser cpf no";
    assert Lower("ser cpf no") == "ser cpf no";
    assert "User cpf no" == ['U'] + "ser cpf no";
    CapitalizeSpaced("user_cpf_no", 'u', "ser cpf no");
  }

  lemma MobileCaption()
    ensures Caption("user_mobile_no") == "User mobile no"
  {
    assert ReplaceChar("user_mobile_no", '_', ' ') == "user mobile no" == ['u'] + "ser mobile no";
    assert Lower("ser mobile no") == "ser mobile no";
    assert "User mobile no" == ['U'] + "ser mobile no";
    CapitalizeSpaced("user_mobile_no", 'u', "ser mobile no");
  }

  lemma GroupCaption()
    ensures Caption("user_group") == "User group"
  {
    assert ReplaceChar("user_group", '_', ' ') == "user group" == ['u'] + "ser group";
    assert Lower("ser group") == "ser group";
    assert "User group" == ['U'] + "ser group";
    CapitalizeSpaced("user_group", 'u', "ser group");
  }

  /** A column name whose spaced form is `head` followed by lower-case
      `tail` is captioned with `head` upper-cased. */
  lemma CapitalizeSpaced(column: string, head: char, tail: string)
    requires ReplaceChar(column, '_', ' ') == [head] + tail
    requires Lower(tail) == tail
    ensures Caption(column) == [ToUpper(head)] + tail
  {
    assert ([head] + tail)[1..] == tail;
  }

  predicate MandatoryPresent(s: Submission) {
    forall i :: 0 <= i < |MandatoryFields| ==> Present(Column(s, MandatoryFields[i]))
  }

  /** The `k`-th mandatory column is the first one that is missing or empty. */
  predicate FirstMissingAt(s: Submission, k: nat) {
    && k < |MandatoryFields|
    && !Present(Column(s, MandatoryFields[k]))
    && forall i :: 0 <= i < k ==> Present(Column(s, MandatoryFields[i]))
  }

  /** The loop over `mandatory_fields` with its early return: the index of
      the first missing field, or `None` when all four are present. */
  method FindMissingField(s: Submission) returns (missing: Option<nat>)
    ensures missing.None? <==> MandatoryPresent(s)
    ensures missing.Some? ==> FirstMissingAt(s, missing.value)
  {
    for k := 0 to |MandatoryFields|
      invariant forall i :: 0 <= i < k ==> Present(Column(s, MandatoryFields[i]))
    {
      if !Present(Column(s, MandatoryFields[k])) {
        return Some(k);
      }
    }
    return None;
  }

  /** The auto-generated title `f"Requisition for {basin} - {area or 'N/A'}"`. */
  function RequisitionTitle(basin: Option<string>, area: Option<string>): string {
    "Requisition for " + Show(basin) + " - " + OrElse(area, "N/A")
  }

  /** The row a successful create inserts. */
  function NewRequisition(id: string, s: Submission, now: string): Requisition {
    Requisition(id, s, RequisitionTitle(s.basin, s.area), s.objective, PendingLevel2, now,
                None, None, None, None)
  }

  /** Awaiting the level-2 decision, with no decision recorded. */
  predicate Undecided(r: Requisition) {
    && r.status == PendingLevel2
    && r.approverUserId.None? && r.approverCpfId.None? && r.approverName.None?
    && r.decisionAt.None?
  }

  /** A new row is pending, keeps the submission as its snapshot, is created
      now, and derives its title from basin and area and its description
      from the objective. */
  lemma NewRequisitionShape(id: string, s: Submission, now: string)
    requires Present(s.basin)
    ensures var r := NewRequisition(id, s, now);
      && Undecided(r) && r.id == id && r.fields == s && r.createdAt == now
      && r.title == "Requisition for " + s.basin.value + " - " + (if Present(s.area) then s.area.value else "N/A")
      && r.description == s.objective
  {
  }

  /** The values `update_requisition_status` writes: the new status, the
      approver's user id, CPF id and name (each possibly null) and the time. */
  datatype Decision = Decision(
    status: string,
    approverUserId: Option<string>,
    approverCpfId: Option<string>,
    approverName: Option<string>,
    at: string)

  /** The row after an `UPDATE` with a decision: exactly the five decision
      columns take the supplied values, whatever the row held before. */
  function ApplyDecision(r: Requisition, d: Decision): (decided: Requisition)
    ensures decided.id == r.id && decided.fields == r.fields && decided.createdAt == r.createdAt
    ensures decided.title == r.title && decided.description == r.description
    ensures decided.status == d.status && decided.decisionAt == Some(d.at)
    ensures decided.approverUserId == d.approverUserId && decided.approverCpfId == d.approverCpfId
    ensures decided.approverName == d.approverName
  {
    r.(status := d.status,
       approverUserId := d.approverUserId,
       approverCpfId := d.approverCpfId,
       approverName := d.approverName,
       decisionAt := Some(d.at))
  }

  /** A second decision overwrites the first completely. */
  lemma DecisionOverwrites(r: Requisition, d1: Decision, d2: Decision)
    ensures ApplyDecision(ApplyDecision(r, d1), d2) == ApplyDecision(r, d2)
  {
  }

  /** The prior status and decision of the row play no part in an update. */
  lemma DecisionIgnoresPriorState(r: Requisition, q: Requisition, d: Decision)
    requires r.id == q.id && r.fields == q.fields && r.title == q.title
    requires r.description == q.description && r.createdAt == q.createdAt
    ensures ApplyDecision(r, d) == ApplyDecision(q, d)
  {
  }
}
