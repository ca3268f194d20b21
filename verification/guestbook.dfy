/**
  The guestbook form: a per-browser rate limit kept in local storage,
  length limits on the trimmed fields, and the stateless `addComment`
  insert with its whitelist of columns.
*/
module Guestbook {
  import opened Wrappers
  import opened Strings
  import opened JsMath

  const RateLimitMs := 15000
  const MaxNameLength := 50
  const MaxMessageLength := 500
  const LastSubmitKey := "lastGuestbookSubmit"

  const FillBothMessage := "Please fill in " + "both fields!!!"
  const NameTooLongMessage := "Name must be " + "50 characters or less!!!"
  const MessageTooLongMessage := "Message must be " + "500 characters or less!!!"

  function WaitMessage(seconds: int): string {
    "Please wait " + IntToString(seconds) + " seconds before submitting again!!!"
  }

  lemma MessagesDistinct()
    ensures FillBothMessage != NameTooLongMessage && FillBothMessage != MessageTooLongMessage
    ensures NameTooLongMessage != MessageTooLongMessage
  {
    assert FillBothMessage[0] == 'P' && NameTooLongMessage[0] == 'N' && MessageTooLongMessage[0] == 'M';
  }

  /** The stored time of the last submission: absent, empty or unreadable counts as none. */
  function LastSubmit(storage: map<string, string>): (t: Option<int>)
    ensures LastSubmitKey !in storage || storage[LastSubmitKey] == "" ==> t.None?
  {
    if LastSubmitKey in storage && storage[LastSubmitKey] != "" then ParseInt(Some(storage[LastSubmitKey])) else None
  }

  /** `Math.ceil(ms / 1000)` for a positive number of milliseconds. */
  function CeilSeconds(ms: int): (s: int)
    requires ms > 0
    ensures s >= 1 && (s - 1) * 1000 < ms <= s * 1000
  {
    (ms + 999) / 1000
  }

  /** The seconds still to wait, or `None` when a submission is allowed now. */
  function WaitSeconds(last: Option<int>, now: int): (w: Option<int>)
    ensures w.Some? <==> last.Some? && now - last.value < RateLimitMs
    ensures w.Some? ==> w.value >= 1 && (w.value - 1) * 1000 < RateLimitMs - (now - last.value) <= w.value * 1000
    ensures w.Some? && now >= last.value ==> w.value <= 15
  {
    if last.Some? && now - last.value < RateLimitMs then Some(CeilSeconds(RateLimitMs - (now - last.value))) else None
  }

  /** The first validation message for trimmed fields: both filled, then the name length, then the message length. */
  function Validate(name: string, message: string): (e: Option<string>)
    ensures e.None? <==> name != "" && message != "" && |name| <= MaxNameLength && |message| <= MaxMessageLength
    ensures name == "" || message == "" ==> e == Some(FillBothMessage)
    ensures name != "" && message != "" && |name| > MaxNameLength ==> e == Some(NameTooLongMessage)
    ensures e == Some(MessageTooLongMessage) <==> name != "" && message != "" && |name| <= MaxNameLength && |message| > MaxMessageLength
  {
    MessagesDistinct();
    if name == "" || message == "" then Some(FillBothMessage)
    else if |name| > MaxNameLength then Some(NameTooLongMessage)
    else if |message| > MaxMessageLength then Some(MessageTooLongMessage)
    else None
  }

  /** What a caller hands to `addComment`; fields left out are `None`. */
  datatype CommentData = CommentData(
    name: Option<string>,
    message: Option<string>,
    userId: Option<string>,
    createdAt: Option<string>,
    eventId: Option<string>)

  /** The row inserted into `guestbook`: only these four columns. */
  datatype Entry = Entry(name: Option<string>, message: Option<string>, userId: Option<string>, createdAt: string)

  /** `addComment`: copy the whitelisted fields; a missing or empty `created_at` becomes the current time. */
  function AddComment(data: CommentData, nowIso: string): (e: Entry)
    ensures e.name == data.name && e.message == data.message && e.userId == data.userId
    ensures data.createdAt.Some? && data.createdAt.value != "" ==> e.createdAt == data.createdAt.value
    ensures data.createdAt.None? || data.createdAt.value == "" ==> e.createdAt == nowIso
  {
    Entry(data.name, data.message, data.userId,
      if data.createdAt.Some? && data.createdAt.value != "" then data.createdAt.value else nowIso)
  }

  /** Fields unknown to the table, such as `event_id`, never reach the row. */
  lemma ExtraFieldsDropped(data: CommentData, eventId: Option<string>, nowIso: string)
    ensures AddComment(data.(eventId := eventId), nowIso) == AddComment(data, nowIso)
  {
  }

  /** `{name, message, ...options}`: a field present in the options wins. */
  function Merge(name: string, message: string, options: CommentData): (d: CommentData)
    ensures d.name == (if options.name.Some? then options.name else Some(name))
    ensures d.message == (if options.message.Some? then options.message else Some(message))
    ensures d.userId == options.userId && d.createdAt == options.createdAt && d.eventId == options.eventId
  {
    options.(name := if options.name.Some? then options.name else Some(name),
             message := if options.message.Some? then options.message else Some(message))
  }

  /** The legacy `sign(name, message, options)`. */
  function LegacySign(name: string, message: string, options: CommentData, nowIso: string): (e: Entry)
    ensures e == AddComment(Merge(name, message, options), nowIso)
  {
    AddComment(Merge(name, message, options), nowIso)
  }

  /** Without a name or message in the options, the legacy call inserts exactly the given name and message. */
  lemma LegacySignKeepsArguments(name: string, message: string, options: CommentData, nowIso: string)
    requires options.name.None? && options.message.None?
    ensures LegacySign(name, message, options, nowIso)
         == Entry(Some(name), Some(message), options.userId,
              if options.createdAt.Some? && options.createdAt.value != "" then options.createdAt.value else nowIso)
  {
  }

  /** The `user:guestbook:sign` event. */
  datatype SignEvent = SignEvent(userId: Option<string>, commentId: Option<string>)

  /**
    The result of submitting the form: the error shown, the insert attempted,
    the event sent, and local storage afterwards.
  */
  datatype SignOutcome = SignOutcome(
    error: Option<string>,
    attempted: Option<Entry>,
    event: Option<SignEvent>,
    storage: map<string, string>)

  /**
    `sign`: rate limit first, then validation of the trimmed fields, then the
    insert. `reply` is the insert's result: the new row's id, or an error.
  */
  function SignForm(storage: map<string, string>, now: nat, rawName: string, rawMessage: string,
                    userId: Option<string>, nowIso: string, reply: Result<Option<string>, string>): (o: SignOutcome)
    ensures WaitSeconds(LastSubmit(storage), now).Some? ==>
      o == SignOutcome(Some(WaitMessage(WaitSeconds(LastSubmit(storage), now).value)), None, None, storage)
    ensures WaitSeconds(LastSubmit(storage), now).None? && Validate(Trim(rawName), Trim(rawMessage)).Some? ==>
      o == SignOutcome(Validate(Trim(rawName), Trim(rawMessage)), None, None, storage)
    ensures o.attempted.Some? <==> WaitSeconds(LastSubmit(storage), now).None? && Validate(Trim(rawName), Trim(rawMessage)).None?
    ensures o.attempted.Some? ==>
      o.attempted.value == Entry(Some(Trim(rawName)), Some(Trim(rawMessage)), userId, nowIso)
    ensures o.storage != storage ==> o.attempted.Some? && reply.Ok?
    ensures o.attempted.Some? && reply.Ok? ==>
      o.error.None? && o.storage == storage[LastSubmitKey := NatToString(now)]
      && o.event == Some(SignEvent(userId, reply.value))
    ensures o.attempted.Some? && reply.Err? ==>
      o.error == Some("Error: " + reply.error) && o.event.None? && o.storage == storage
  {
    var wait := WaitSeconds(LastSubmit(storage), now);
    if wait.Some? then SignOutcome(Some(WaitMessage(wait.value)), None, None, storage)
    else
      var name := Trim(rawName);
      var message := Trim(rawMessage);
      var invalid := Validate(name, message);
      if invalid.Some? then SignOutcome(invalid, None, None, storage)
      else
        var entry := AddComment(CommentData(Some(name), Some(message), userId, None, None), nowIso);
        match reply
        case Ok(id) => SignOutcome(None, Some(entry), Some(SignEvent(userId, id)), storage[LastSubmitKey := NatToString(now)])
        case Err(e) => SignOutcome(Some("Error: " + e), Some(entry), None, storage)
  }

  /** Even empty fields are answered with the wait message while the limit runs. */
  lemma RateLimitBeforeValidation(storage: map<string, string>, now: nat, userId: Option<string>, nowIso: string,
                                  reply: Result<Option<string>, string>)
    requires WaitSeconds(LastSubmit(storage), now).Some?
    ensures SignForm(storage, now, "", "", userId, nowIso, reply).error
         == Some(WaitMessage(WaitSeconds(LastSubmit(storage), now).value))
  {
  }

  /**
    After a signed entry at `now`, a submission within 15 seconds is refused
    with a wait of 1 to 15 seconds, and one at or after that time passes the limit.
  */
  lemma SignedThenLimited(storage: map<string, string>, now: nat, later: int, rawName: string, rawMessage: string,
                          userId: Option<string>, nowIso: string, id: Option<string>)
    requires SignForm(storage, now, rawName, rawMessage, userId, nowIso, Ok(id)).attempted.Some?
    requires later >= now
    ensures var s := SignForm(storage, now, rawName, rawMessage, userId, nowIso, Ok(id)).storage;
      var w := WaitSeconds(LastSubmit(s), later);
      (later < now + RateLimitMs ==> w.Some? && 1 <= w.value <= 15)
      && (later >= now + RateLimitMs ==> w.None?)
  {
    var s := SignForm(storage, now, rawName, rawMessage, userId, nowIso, Ok(id)).storage;
    ParseIntOfNat(now);
    assert LastSubmit(s) == Some(now);
  }
}
