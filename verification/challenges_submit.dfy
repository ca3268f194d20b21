/**
  The challenge workshop form: required fields, the assignee resolved
  through the users datalist, the optional columns, and the row sent
  as a pending suggestion. HTML escaping is the `escape` parameter and the
  random challenge id is the `challengeId` parameter.
*/
module ChallengesSubmit {
  import opened Wrappers
  import opened Strings

  /** A datalist `<option>`: its value and its `data-user-id`. */
  datatype DatalistOption = DatalistOption(value: string, userId: Option<string>)

  const RequiredMessage := "Please fill in all required fields " + "(Name and Description)."
  const SuccessMessage := "Challenge submitted successfully! " + "Awaiting admin approval."
  const SubmitLabel := "SUBMIT CHALLENGE"

  function NotFoundMessage(assignee: string): string {
    "User \"" + assignee + "\" not found. Please select a valid user from the list."
  }

  /** The index of the first option whose value is exactly `v`. */
  function FindOption(options: seq<DatalistOption>, v: string): (r: Option<nat>)
    ensures r.None? <==> forall j :: 0 <= j < |options| ==> options[j].value != v
    ensures r.Some? ==> r.value < |options| && options[r.value].value == v
    ensures r.Some? ==> forall j :: 0 <= j < r.value ==> options[j].value != v
  {
    if |options| == 0 then None
    else if options[0].value == v then Some(0)
    else
      var r := FindOption(options[1..], v);
      if r.None? then None else Some(r.value + 1)
  }

  predicate Truthy(s: Option<string>) {
    s.Some? && s.value != ""
  }

  /**
    The user id for a trimmed assignee: none for an empty one; otherwise the
    `data-user-id` of the first exact match, which must be present.
  */
  function ResolveAssignee(datalist: Option<seq<DatalistOption>>, assignee: string): (r: Result<Option<string>, string>)
    ensures assignee == "" ==> r == Ok(None)
    ensures assignee != "" && r.Ok? ==> r.value.Some? && r.value.value != ""
    ensures assignee != "" ==>
      (r.Ok? <==> datalist.Some? && FindOption(datalist.value, assignee).Some?
                  && Truthy(datalist.value[FindOption(datalist.value, assignee).value].userId))
    ensures assignee != "" && r.Ok? ==> r.value == datalist.value[FindOption(datalist.value, assignee).value].userId
    ensures r.Err? ==> r.error == NotFoundMessage(assignee)
  {
    if assignee == "" then Ok(None)
    else if datalist.None? then Err(NotFoundMessage(assignee))
    else
      var i := FindOption(datalist.value, assignee);
      if i.Some? && Truthy(datalist.value[i.value].userId) then Ok(datalist.value[i.value].userId)
      else Err(NotFoundMessage(assignee))
  }

  /** Only the first option with the assignee's text decides: a later duplicate carrying a user id is not consulted. */
  lemma FirstMatchDecides(first: DatalistOption, later: DatalistOption, assignee: string)
    requires assignee != "" && first.value == assignee && later.value == assignee
    requires !Truthy(first.userId) && Truthy(later.userId)
    ensures ResolveAssignee(Some([first, later]), assignee).Err?
  {
  }

  /** The raw form fields; `brianMode` is `None` when its element is absent. */
  datatype Form = Form(name: string, description: string, metric: string, assignedTo: string, brianMode: Option<string>)

  /** The `challenges` row sent. */
  datatype ChallengeData = ChallengeData(
    id: string,
    title: string,
    description: string,
    kind: string,
    createdBy: string,
    suggestedFor: Option<string>,
    approvalStatus: string,
    successMetric: Option<string>,
    brianMode: Option<string>)

  /** The submit button's state after the handler. */
  datatype Button = Button(disabled: bool, caption: string)

  /** The message shown, the row sent, the `challenge:submitted` event and the button. */
  datatype SubmitOutcome = SubmitOutcome(
    message: Result<string, string>,
    sent: Option<ChallengeData>,
    event: Option<(string, string)>,
    button: Button)

  function BrianModeValue(form: Form): string {
    if form.brianMode.Some? then Trim(form.brianMode.value) else ""
  }

  /** The row for valid trimmed fields and a resolved assignee. */
  function Row(form: Form, userId: string, isAdmin: bool, challengeId: string,
               escape: string -> string, suggestedFor: Option<string>): (c: ChallengeData)
    ensures c.kind == "assigned" && c.approvalStatus == "pending" && c.createdBy == userId && c.id == challengeId
    ensures c.title == escape(Trim(form.name)) && c.description == escape(Trim(form.description))
    ensures c.suggestedFor == suggestedFor
    ensures c.successMetric.Some? <==> Trim(form.metric) != ""
    ensures c.successMetric.Some? ==> c.successMetric.value == escape(Trim(form.metric))
    ensures c.brianMode.Some? <==> BrianModeValue(form) != "" && isAdmin
    ensures c.brianMode.Some? ==> c.brianMode.value == BrianModeValue(form)
  {
    var metric := Trim(form.metric);
    var brian := BrianModeValue(form);
    ChallengeData(challengeId, escape(Trim(form.name)), escape(Trim(form.description)), "assigned", userId,
      suggestedFor, "pending",
      if metric != "" then Some(escape(metric)) else None,
      if brian != "" && isAdmin then Some(brian) else None)
  }

  /**
    `handleSubmit`: required fields first, then the assignee, then the
    insert; `insertReply` is the insert's error, if any. The button is
    re-enabled with its label on every path.
  */
  function Submit(form: Form, datalist: Option<seq<DatalistOption>>, userId: string, isAdmin: bool,
                  challengeId: string, escape: string -> string, insertReply: Result<(), string>): (o: SubmitOutcome)
    ensures o.button == Button(false, SubmitLabel)
    ensures Trim(form.name) == "" || Trim(form.description) == "" ==>
      o.message == Err(RequiredMessage) && o.sent.None?
    ensures o.sent.Some? <==>
      Trim(form.name) != "" && Trim(form.description) != "" && ResolveAssignee(datalist, Trim(form.assignedTo)).Ok?
    ensures o.sent.Some? ==>
      o.sent.value == Row(form, userId, isAdmin, challengeId, escape, ResolveAssignee(datalist, Trim(form.assignedTo)).value)
    ensures o.message.Ok? <==> o.sent.Some? && insertReply.Ok?
    ensures o.message.Ok? ==> o.message.value == SuccessMessage && o.event == Some((userId, challengeId))
    ensures o.message.Err? ==> o.event.None?
    ensures o.sent.Some? && insertReply.Err? ==> o.message == Err("Failed to submit challenge: " + insertReply.error)
  {
    var done := Button(false, SubmitLabel);
    if Trim(form.name) == "" || Trim(form.description) == "" then SubmitOutcome(Err(RequiredMessage), None, None, done)
    else
      match ResolveAssignee(datalist, Trim(form.assignedTo))
      case Err(e) => SubmitOutcome(Err(e), None, None, done)
      case Ok(suggestedFor) =>
        var row := Row(form, userId, isAdmin, challengeId, escape, suggestedFor);
        if insertReply.Err? then SubmitOutcome(Err("Failed to submit challenge: " + insertReply.error), Some(row), None, done)
        else SubmitOutcome(Ok(SuccessMessage), Some(row), Some((userId, challengeId)), done)
  }

  /** An empty assignee inserts a challenge suggested for nobody. */
  lemma EmptyAssigneeSuggestsNobody(form: Form, datalist: Option<seq<DatalistOption>>, userId: string, isAdmin: bool,
                                    challengeId: string, escape: string -> string, insertReply: Result<(), string>)
    requires Trim(form.name) != "" && Trim(form.description) != "" && Trim(form.assignedTo) == ""
    ensures Submit(form, datalist, userId, isAdmin, challengeId, escape, insertReply).sent.Some?
    ensures Submit(form, datalist, userId, isAdmin, challengeId, escape, insertReply).sent.value.suggestedFor.None?
  {
  }

  /** A name typed that no option matches is refused before anything is sent. */
  lemma UnknownAssigneeRefused(form: Form, datalist: seq<DatalistOption>, userId: string, isAdmin: bool,
                               challengeId: string, escape: string -> string, insertReply: Result<(), string>)
    requires Trim(form.name) != "" && Trim(form.description) != "" && Trim(form.assignedTo) != ""
    requires forall j :: 0 <= j < |datalist| ==> datalist[j].value != Trim(form.assignedTo)
    ensures Submit(form, Some(datalist), userId, isAdmin, challengeId, escape, insertReply)
         == SubmitOutcome(Err(NotFoundMessage(Trim(form.assignedTo))), None, None, Button(false, SubmitLabel))
  {
  }

  /** A non-admin's Brian mode is never stored. */
  lemma NonAdminNoBrianMode(form: Form, datalist: Option<seq<DatalistOption>>, userId: string,
                            challengeId: string, escape: string -> string, insertReply: Result<(), string>)
    ensures var o := Submit(form, datalist, userId, false, challengeId, escape, insertReply);
      o.sent.Some? ==> o.sent.value.brianMode.None?
  {
  }
}
