/**
  The admin approvals page: splitting challenges by approval status, grouping
  assignment rows per challenge, validating the assignment form, and the
  wording of the success message.
*/
module AdminApprovals {
  import opened Wrappers
  import opened Strings
  import AssignmentService

  /** A challenge row as the page lists it. */
  datatype Challenge = Challenge(id: string, approvalStatus: string)

  /** `data.filter((c) => c.approval_status === status)`. */
  function WithStatus(data: seq<Challenge>, status: string): (r: seq<Challenge>)
    ensures |r| <= |data|
    ensures forall c :: c in r ==> c in data && c.approvalStatus == status
    ensures forall c :: c in data && c.approvalStatus == status ==> c in r
  {
    if |data| == 0 then []
    else (if data[0].approvalStatus == status then [data[0]] else []) + WithStatus(data[1..], status)
  }

  /** The three lists `loadAllChallenges` renders. */
  datatype Sections = Sections(pending: seq<Challenge>, approved: seq<Challenge>, denied: seq<Challenge>)

  function SplitByStatus(data: seq<Challenge>): (s: Sections)
    ensures forall c :: c in s.pending ==> c !in s.approved && c !in s.denied
    ensures forall c :: c in s.approved ==> c !in s.denied
    ensures forall c :: c in data ==>
      (c in s.pending || c in s.approved || c in s.denied
       <==> c.approvalStatus in {"pending", "approved", "denied"})
  {
    Sections(WithStatus(data, "pending"), WithStatus(data, "approved"), WithStatus(data, "denied"))
  }

  /** The three sections together never hold more rows than there are, and hold all of them exactly when every status is known. */
  lemma {:induction false} SectionsCount(data: seq<Challenge>)
    ensures var s := SplitByStatus(data);
      |s.pending| + |s.approved| + |s.denied| <= |data|
      && (|s.pending| + |s.approved| + |s.denied| == |data|
          <==> forall i :: 0 <= i < |data| ==> data[i].approvalStatus in {"pending", "approved", "denied"})
  {
    if |data| > 0 {
      SectionsCount(data[1..]);
      var s := SplitByStatus(data);
      var t := SplitByStatus(data[1..]);
      assert |s.pending| + |s.approved| + |s.denied|
          == |t.pending| + |t.approved| + |t.denied|
             + (if data[0].approvalStatus in {"pending", "approved", "denied"} then 1 else 0);
      if forall i :: 0 <= i < |data[1..]| ==> data[1..][i].approvalStatus in {"pending", "approved", "denied"} {
        forall i | 0 <= i < |data| ensures data[i].approvalStatus in {"pending", "approved", "denied"} || i == 0 {
          if i > 0 {
            assert data[i] == data[1..][i - 1];
          }
        }
      } else {
        var i :| 0 <= i < |data[1..]| && data[1..][i].approvalStatus !in {"pending", "approved", "denied"};
        assert data[i + 1] == data[1..][i];
      }
    }
  }

  /** An active assignment joined with its user, as the grouping reads it. */
  datatype AssignedUser = AssignedUser(challengeId: string, username: string, displayName: Option<string>)

  /** The entry pushed for one assignment: the display name falls back to the username. */
  datatype UserLabel = UserLabel(username: string, displayName: string)

  function LabelOf(a: AssignedUser): (l: UserLabel)
    ensures l.username == a.username
    ensures a.displayName.Some? && a.displayName.value != "" ==> l.displayName == a.displayName.value
    ensures a.displayName.None? || a.displayName.value == "" ==> l.displayName == a.username
  {
    UserLabel(a.username, if a.displayName.Some? && a.displayName.value != "" then a.displayName.value else a.username)
  }

  /** The reference: the labels of the rows of one challenge, in row order. */
  function Select(rows: seq<AssignedUser>, challengeId: string): (r: seq<UserLabel>)
    ensures |r| <= |rows|
  {
    if |rows| == 0 then []
    else Select(rows[..|rows| - 1], challengeId)
         + (if rows[|rows| - 1].challengeId == challengeId then [LabelOf(rows[|rows| - 1])] else [])
  }

  /** `assignmentsByChallenge`, built by one `forEach` over the rows. */
  function GroupByChallenge(rows: seq<AssignedUser>): map<string, seq<UserLabel>> {
    if |rows| == 0 then map[]
    else
      var groups := GroupByChallenge(rows[..|rows| - 1]);
      var a := rows[|rows| - 1];
      groups[a.challengeId := (if a.challengeId in groups then groups[a.challengeId] else []) + [LabelOf(a)]]
  }

  /** The groups are keyed by exactly the challenges that have rows, and each holds that challenge's rows in order. */
  lemma {:induction false} GroupsAreSelections(rows: seq<AssignedUser>, challengeId: string)
    ensures challengeId in GroupByChallenge(rows) <==> exists i :: 0 <= i < |rows| && rows[i].challengeId == challengeId
    ensures challengeId in GroupByChallenge(rows) ==> GroupByChallenge(rows)[challengeId] == Select(rows, challengeId)
    ensures challengeId !in GroupByChallenge(rows) ==> Select(rows, challengeId) == []
  {
    if |rows| > 0 {
      var init := rows[..|rows| - 1];
      GroupsAreSelections(init, challengeId);
      if exists i :: 0 <= i < |init| && init[i].challengeId == challengeId {
        var i :| 0 <= i < |init| && init[i].challengeId == challengeId;
        assert rows[i] == init[i];
      }
      if exists i :: 0 <= i < |rows| && rows[i].challengeId == challengeId {
        var i :| 0 <= i < |rows| && rows[i].challengeId == challengeId;
        if i < |init| {
          assert init[i] == rows[i];
        }
      }
    }
  }

  /** The number of rows of one challenge. */
  function Occurrences(keys: seq<string>, k: string): nat {
    if |keys| == 0 then 0 else (if keys[0] == k then 1 else 0) + Occurrences(keys[1..], k)
  }

  /** The sizes of the groups of the listed challenges. */
  function GroupSizes(rows: seq<AssignedUser>, keys: seq<string>): nat {
    if |keys| == 0 then 0 else |Select(rows, keys[0])| + GroupSizes(rows, keys[1..])
  }

  lemma {:induction false} GroupSizesSnoc(rows: seq<AssignedUser>, a: AssignedUser, keys: seq<string>)
    ensures GroupSizes(rows + [a], keys) == GroupSizes(rows, keys) + Occurrences(keys, a.challengeId)
  {
    if |keys| > 0 {
      GroupSizesSnoc(rows, a, keys[1..]);
      assert (rows + [a])[..|rows + [a]| - 1] == rows;
    }
  }

  lemma {:induction false} OccursOnce(keys: seq<string>, k: string)
    requires forall i, j :: 0 <= i < j < |keys| ==> keys[i] != keys[j]
    requires k in keys
    ensures Occurrences(keys, k) == 1
  {
    if keys[0] == k {
      NotOccurring(keys[1..], k);
    } else {
      OccursOnce(keys[1..], k);
    }
  }

  lemma {:induction false} NotOccurring(keys: seq<string>, k: string)
    requires k !in keys
    ensures Occurrences(keys, k) == 0
  {
    if |keys| > 0 {
      NotOccurring(keys[1..], k);
    }
  }

  /**
    Given the challenge ids each listed once, the groups together hold every
    assignment row exactly once.
  */
  lemma {:induction false} GroupsCoverRows(rows: seq<AssignedUser>, keys: seq<string>)
    requires forall i, j :: 0 <= i < j < |keys| ==> keys[i] != keys[j]
    requires forall i :: 0 <= i < |rows| ==> rows[i].challengeId in keys
    ensures GroupSizes(rows, keys) == |rows|
  {
    if |rows| == 0 {
      EmptyGroups(keys);
    } else {
      var init := rows[..|rows| - 1];
      var a := rows[|rows| - 1];
      GroupsCoverRows(init, keys);
      assert rows == init + [a];
      GroupSizesSnoc(init, a, keys);
      OccursOnce(keys, a.challengeId);
    }
  }

  lemma {:induction false} EmptyGroups(keys: seq<string>)
    ensures GroupSizes([], keys) == 0
  {
    if |keys| > 0 {
      EmptyGroups(keys[1..]);
    }
  }

  /** `hasChanges`: the selection differs in size or misses a current id. */
  predicate HasChanges(current: seq<string>, selected: seq<string>) {
    var cur := set x | x in current;
    var sel := set x | x in selected;
    |cur| != |sel| || exists x :: x in cur && x !in sel
  }

  /** A subset of the same size is the whole set. */
  lemma SubsetSameSize(a: set<string>, b: set<string>)
    requires a <= b && |a| == |b|
    ensures a == b
  {
    if a != b {
      var x :| x in b && x !in a;
      SubsetCard(a, b - {x});
    }
  }

  lemma SubsetCard(a: set<string>, b: set<string>)
    requires a <= b
    ensures |a| <= |b|
  {
    assert b == a + (b - a);
  }

  /** There are no changes exactly when the selected ids are the current ids as sets. */
  lemma HasChangesIffSetsDiffer(current: seq<string>, selected: seq<string>)
    ensures HasChanges(current, selected) <==> (set x | x in current) != (set x | x in selected)
  {
    var cur := set x | x in current;
    var sel := set x | x in selected;
    if !HasChanges(current, selected) {
      assert cur <= sel;
      SubsetSameSize(cur, sel);
    }
  }

  const NoChangesMessage := "No changes detected. " + "Please check or uncheck users to modify assignments."
  const ApprovedNeedsUserMessage := "Approved challenges " + "must have at least one user assigned."
  const SelectUserMessage := "Please select " + "at least one user to assign this challenge to."

  lemma MessagesDistinct()
    ensures NoChangesMessage != ApprovedNeedsUserMessage && NoChangesMessage != SelectUserMessage
  {
    assert NoChangesMessage[0] == 'N';
    assert ApprovedNeedsUserMessage[0] == 'A';
    assert SelectUserMessage[0] == 'P';
  }

  /** `isApproval`: approval mode on a pending challenge. */
  predicate IsApproval(approvalMode: bool, status: string) {
    approvalMode && status == "pending"
  }

  /** The checks before anything is sent; `Ok` carries `isApproval`. */
  function ValidateSelection(current: seq<string>, selected: seq<string>, approvalMode: bool, status: string): (r: Result<bool, string>)
    ensures r == Err(NoChangesMessage) <==> (set x | x in current) == (set x | x in selected)
    ensures r.Ok? <==> HasChanges(current, selected) && |selected| > 0
    ensures r.Ok? ==> r.value == IsApproval(approvalMode, status)
    ensures HasChanges(current, selected) && |selected| == 0 ==>
      r == Err(if IsApproval(approvalMode, status) then SelectUserMessage else ApprovedNeedsUserMessage)
  {
    HasChangesIffSetsDiffer(current, selected);
    MessagesDistinct();
    if !HasChanges(current, selected) then Err(NoChangesMessage)
    else if |selected| == 0 then
      Err(if IsApproval(approvalMode, status) then SelectUserMessage else ApprovedNeedsUserMessage)
    else Ok(IsApproval(approvalMode, status))
  }

  /**
    An empty selection is reported as no change exactly when the challenge
    had no users, and as an empty selection otherwise.
  */
  lemma EmptyToEmptyIsNoChange(current: seq<string>, approvalMode: bool, status: string)
    ensures ValidateSelection(current, [], approvalMode, status) == Err(NoChangesMessage) <==> |current| == 0
    ensures |current| > 0 ==>
      ValidateSelection(current, [], approvalMode, status) ==
      Err(if IsApproval(approvalMode, status) then SelectUserMessage else ApprovedNeedsUserMessage)
    ensures ValidateSelection([], [], approvalMode, status) == Err(NoChangesMessage)
  {
    var none: seq<string> := [];
    var cur := set x | x in current;
    var sel := set x | x in none;
    assert sel == {};
    if |current| > 0 {
      assert current[0] in cur;
      HasChangesIffSetsDiffer(current, none);
    } else {
      assert current == none;
    }
  }

  /** How many operations carry a given name. */
  function Count(ops: seq<AssignmentService.Operation>, name: string): (n: nat)
    ensures n <= |ops|
  {
    if |ops| == 0 then 0 else (if ops[0].operation == name then 1 else 0) + Count(ops[1..], name)
  }

  lemma {:induction false} CountAppend(a: seq<AssignmentService.Operation>, b: seq<AssignmentService.Operation>, name: string)
    ensures Count(a + b, name) == Count(a, name) + Count(b, name)
  {
    if |a| == 0 {
      assert a + b == b;
    } else {
      assert (a + b)[1..] == a[1..] + b;
      CountAppend(a[1..], b, name);
    }
  }

  /** `"s"` exactly when the count is not 1. */
  function Plural(n: int): (s: string)
    ensures s == "s" <==> n != 1
    ensures s == "" <==> n == 1
  {
    if n != 1 then "s" else ""
  }

  /** The phrases for the recognised operation counts, in the fixed order created, reactivated, deactivated. */
  function Phrases(created: nat, reactivated: nat, deactivated: nat): (p: seq<string>)
    ensures |p| == (if created > 0 then 1 else 0) + (if reactivated > 0 then 1 else 0) + (if deactivated > 0 then 1 else 0)
    ensures created > 0 ==> p[0] == "assigned to " + NatToString(created) + " new user" + Plural(created)
    ensures created == 0 && reactivated > 0 ==> p[0] == "reactivated " + NatToString(reactivated) + " user" + Plural(reactivated)
  {
    (if created > 0 then ["assigned to " + NatToString(created) + " new user" + Plural(created)] else [])
    + (if reactivated > 0 then ["reactivated " + NatToString(reactivated) + " user" + Plural(reactivated)] else [])
    + (if deactivated > 0 then ["unassigned " + NatToString(deactivated) + " user" + Plural(deactivated)] else [])
  }

  /** The counts of created, reactivated and deactivated operations; `None` stands for a `null` reply. */
  datatype Tally = Tally(created: nat, reactivated: nat, deactivated: nat)

  function TallyOf(ops: Option<seq<AssignmentService.Operation>>): (t: Tally)
    ensures ops.None? ==> t == Tally(0, 0, 0)
  {
    var o := ops.GetOr([]);
    Tally(Count(o, "created"), Count(o, "reactivated"), Count(o, "deactivated"))
  }

  /** The action part of the message, which depends on the operations only through their tally. */
  function ActionMessage(ops: Option<seq<AssignmentService.Operation>>, finalCount: nat): (m: string)
    ensures TallyOf(ops) == Tally(0, 0, 0) ==>
      m == "assigned to " + NatToString(finalCount) + " user" + Plural(finalCount)
  {
    TallyMessage(TallyOf(ops), finalCount)
  }

  function TallyMessage(t: Tally, finalCount: nat): string {
    var p := Phrases(t.created, t.reactivated, t.deactivated);
    if |p| > 0 then Join(p, " and ")
    else "assigned to " + NatToString(finalCount) + " user" + Plural(finalCount)
  }

  const ApprovedPrefix := "Challenge approved and "
  const UpdatedPrefix := "Challenge assignments updated - "

  /** `generateSuccessMessage`: the prefix depends only on `isApproval`. */
  function SuccessMessage(isApproval: bool, ops: Option<seq<AssignmentService.Operation>>, finalCount: nat): (m: string)
    ensures isApproval ==> m == ApprovedPrefix + ActionMessage(ops, finalCount) + "!"
    ensures !isApproval ==> m == UpdatedPrefix + ActionMessage(ops, finalCount) + "!"
  {
    (if isApproval then ApprovedPrefix else UpdatedPrefix) + ActionMessage(ops, finalCount) + "!"
  }

  /** An operation with any other name leaves the message as it was. */
  lemma UnknownOperationIgnored(ops: seq<AssignmentService.Operation>, op: AssignmentService.Operation, finalCount: nat)
    requires op.operation != "created" && op.operation != "reactivated" && op.operation != "deactivated"
    ensures ActionMessage(Some(ops + [op]), finalCount) == ActionMessage(Some(ops), finalCount)
  {
    CountAppend(ops, [op], "created");
    CountAppend(ops, [op], "reactivated");
    CountAppend(ops, [op], "deactivated");
    assert TallyOf(Some(ops + [op])) == TallyOf(Some(ops));
  }

  /** The message does not depend on the order the operations are reported in. */
  lemma ReportOrderIrrelevant(a: seq<AssignmentService.Operation>, b: seq<AssignmentService.Operation>, finalCount: nat)
    ensures ActionMessage(Some(a + b), finalCount) == ActionMessage(Some(b + a), finalCount)
  {
    CountAppend(a, b, "created");
    CountAppend(b, a, "created");
    CountAppend(a, b, "reactivated");
    CountAppend(b, a, "reactivated");
    CountAppend(a, b, "deactivated");
    CountAppend(b, a, "deactivated");
    assert TallyOf(Some(a + b)) == TallyOf(Some(b + a));
  }

  /** One created assignment reads in the singular. */
  lemma SingleCreation(finalCount: nat)
    ensures ActionMessage(Some([AssignmentService.Operation("created", "u")]), finalCount) == "assigned to 1 new user"
  {
    assert NatToString(1) == "1";
  }

  /** What the form shows after a submit, and the approval write it made. */
  datatype FormOutcome = FormOutcome(message: Result<string, string>, approvalSuggestedFor: Option<Option<string>>,
                                     update: Option<AssignmentService.Update>)

  const ConflictMessage := "Another user modified these assignments. Please close this dialog and try again."
  const DefaultFailure := "Failed to update assignments. Please try again."
  const BtoaMessage := "The string to be encoded contains characters outside of the Latin1 range."

  /** `err.message || default`. */
  function FailureMessage(e: AssignmentService.UpdateError): string {
    match e
    case ConflictError => ConflictMessage
    case QueryError(m) => if m != "" then m else DefaultFailure
    case InvalidCharacterError => BtoaMessage
    case RpcError(m) => if m != "" then m else DefaultFailure
  }

  /**
    `handleAssignmentFormSubmit` after the checkbox read: validate, approve
    the challenge first when approving (its first selected user becomes
    `suggested_for`), update the assignments and word the result.
  */
  function SubmitAssignments(service: string, challengeId: string, status: string, approvalMode: bool,
                             current: seq<string>, selected: seq<string>, version: Option<string>,
                             approveError: Option<string>,
                             currentRows: Result<seq<AssignmentService.AssignmentRow>, string>,
                             rpcReply: Result<seq<AssignmentService.Operation>, string>): (o: FormOutcome)
    ensures ValidateSelection(current, selected, approvalMode, status).Err? ==>
      o.message == Err(ValidateSelection(current, selected, approvalMode, status).error)
      && o.approvalSuggestedFor.None? && o.update.None?
    ensures o.approvalSuggestedFor.Some? <==>
      ValidateSelection(current, selected, approvalMode, status).Ok? && IsApproval(approvalMode, status)
    ensures o.approvalSuggestedFor.Some? ==>
      o.approvalSuggestedFor.value == (if selected[0] != "" then Some(selected[0]) else None)
    ensures o.update.Some? <==>
      ValidateSelection(current, selected, approvalMode, status).Ok? && (!IsApproval(approvalMode, status) || approveError.None?)
    ensures o.update.Some? && o.update.value.result.Ok? ==>
      o.message == Ok(SuccessMessage(IsApproval(approvalMode, status), Some(o.update.value.result.value), |selected|))
    ensures o.update.Some? && o.update.value.result == Err(AssignmentService.ConflictError) ==>
      o.message == Err(ConflictMessage)
  {
    match ValidateSelection(current, selected, approvalMode, status)
    case Err(e) => FormOutcome(Err(e), None, None)
    case Ok(isApproval) =>
      var approval := if isApproval then Some(if selected[0] != "" then Some(selected[0]) else None) else None;
      if isApproval && approveError.Some? then
        FormOutcome(Err("Failed to approve challenge: " + approveError.value), approval, None)
      else
        var ids := seq(|selected|, i requires 0 <= i < |selected| => AssignmentService.TextId(selected[i]));
        var u := AssignmentService.UpdateAssignments(service, challengeId, ids, version, currentRows, rpcReply);
        var message := match u.result
          case Ok(ops) => Ok(SuccessMessage(isApproval, Some(ops), |selected|))
          case Err(e) => Err(FailureMessage(e));
        FormOutcome(message, approval, Some(u))
  }
}
