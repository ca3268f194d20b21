/**
  `POST /api/users/:id/profile`: only the signed-in owner may replace the
  profile HTML, which is sanitised and upserted. Sanitising is the
  `sanitize` parameter.
*/
module ApiUsersRoute {
  import opened Wrappers
  import ServerUtils

  /** The body's `profile_html`: missing, a string, or some other JSON value. */
  datatype BodyField = Missing | Text(s: string) | NotText

  datatype Payload = Payload(userId: string, profileHtml: string, updatedAt: string)

  datatype Body = ErrorBody(error: string) | OkBody(profile: string)

  /** The status, the JSON body, and the upsert sent, if any. */
  datatype ApiOutcome = ApiOutcome(status: int, body: Body, upsert: Option<Payload>)

  /** How the upsert's promise settles: the stored row, an `error` in the reply, or a rejection. */
  datatype UpsertReply = Stored(row: string) | DbError(message: string) | Rejected

  const InternalError := ApiOutcome(500, ErrorBody("Internal server error"), None)

  /**
    The handler. `sanitize` is `createSanitizer().sanitize`, `None` when
    either throws; every throw inside the handler reaches the catch-all 500.
  */
  function PostProfile(targetId: string, req: Option<ServerUtils.Request>, profileHtml: BodyField,
                       sanitize: string -> Option<string>, nowIso: string, upsertReply: UpsertReply): (o: ApiOutcome)
    ensures ServerUtils.RequireSignedUser(req).None? ==> o == ApiOutcome(401, ErrorBody("Not authenticated"), None)
    ensures ServerUtils.RequireSignedUser(req).Some? && ServerUtils.RequireSignedUser(req).value != targetId ==>
      o == ApiOutcome(403, ErrorBody("Forbidden"), None)
    ensures ServerUtils.RequireSignedUser(req) == Some(targetId) && !profileHtml.Text? ==>
      o == ApiOutcome(400, ErrorBody("Invalid profile_html"), None)
    ensures ServerUtils.RequireSignedUser(req) == Some(targetId) && profileHtml.Text? && sanitize(profileHtml.s).None? ==>
      o == InternalError
    ensures o.upsert.Some? <==>
      ServerUtils.RequireSignedUser(req) == Some(targetId) && profileHtml.Text? && sanitize(profileHtml.s).Some?
    ensures o.upsert.Some? ==> o.upsert.value == Payload(targetId, sanitize(profileHtml.s).value, nowIso)
    ensures o.upsert.Some? && upsertReply.DbError? ==> o.status == 500 && o.body == ErrorBody("Database error")
    ensures o.upsert.Some? && upsertReply.Rejected? ==> o.status == 500 && o.body == ErrorBody("Internal server error")
    ensures o.upsert.Some? && upsertReply.Stored? ==> o.status == 200 && o.body == OkBody(upsertReply.row)
  {
    var signed := ServerUtils.RequireSignedUser(req);
    if signed.None? then ApiOutcome(401, ErrorBody("Not authenticated"), None)
    else if signed.value != targetId then ApiOutcome(403, ErrorBody("Forbidden"), None)
    else if !profileHtml.Text? then ApiOutcome(400, ErrorBody("Invalid profile_html"), None)
    else
      match sanitize(profileHtml.s)
      case None => InternalError
      case Some(clean) =>
        var payload := Payload(signed.value, clean, nowIso);
        match upsertReply
        case DbError(_) => ApiOutcome(500, ErrorBody("Database error"), Some(payload))
        case Rejected => ApiOutcome(500, ErrorBody("Internal server error"), Some(payload))
        case Stored(row) => ApiOutcome(200, OkBody(row), Some(payload))
  }

  /**
    The handler always answers one of its five statuses; it answers 200
    exactly when the owner sent text that was sanitised and stored, and 500
    exactly when, past the three checks, sanitising throws or the upsert
    does not store.
  */
  lemma StatusesAreExact(targetId: string, req: Option<ServerUtils.Request>, profileHtml: BodyField,
                         sanitize: string -> Option<string>, nowIso: string, upsertReply: UpsertReply)
    ensures var o := PostProfile(targetId, req, profileHtml, sanitize, nowIso, upsertReply);
      && o.status in {200, 400, 401, 403, 500}
      && (o.status == 200 <==> o.upsert.Some? && upsertReply.Stored?)
      && (o.status == 500 <==>
            ServerUtils.RequireSignedUser(req) == Some(targetId) && profileHtml.Text?
            && (sanitize(profileHtml.s).None? || !upsertReply.Stored?))
  {
  }

  /** Nobody writes another user's profile: every upsert is for the signed-in user. */
  lemma OnlyOwnerWrites(targetId: string, req: Option<ServerUtils.Request>, profileHtml: BodyField,
                        sanitize: string -> Option<string>, nowIso: string, upsertReply: UpsertReply)
    ensures var o := PostProfile(targetId, req, profileHtml, sanitize, nowIso, upsertReply);
      o.upsert.Some? ==> ServerUtils.RequireSignedUser(req) == Some(o.upsert.value.userId)
    ensures var o := PostProfile(targetId, req, profileHtml, sanitize, nowIso, upsertReply);
      o.status in {400, 401, 403} ==> o.upsert.None?
  {
  }

  /** Without a session the answer is 401 even when the body is also invalid: authentication is checked first. */
  lemma AuthenticationFirst(targetId: string, sanitize: string -> Option<string>, nowIso: string, upsertReply: UpsertReply)
    ensures PostProfile(targetId, None, NotText, sanitize, nowIso, upsertReply).status == 401
    ensures PostProfile(targetId, Some(ServerUtils.Request(Some(map["user_id" := ""]))), NotText, sanitize, nowIso, upsertReply).status == 401
  {
  }
}
