/**
  The assignment service: the version of a challenge's active assignments and
  the optimistic-lock check in front of the update RPC.
*/
module AssignmentService {
  import opened Wrappers
  import opened Strings
  import Sorting
  import Base64

  /** `btoa` fails when a code unit exceeds 255. */
  predicate Latin1(s: string) {
    forall i :: 0 <= i < |s| ==> s[i] as int < 256
  }

  function Bytes(s: string): (b: seq<Base64.Byte>)
    requires Latin1(s)
    ensures |b| == |s|
  {
    seq(|s|, i requires 0 <= i < |s| => s[i] as int)
  }

  /** `btoa(s)`; `None` is the `InvalidCharacterError` it throws. */
  function Btoa(s: string): (r: Option<string>)
    ensures Latin1(s) <==> r.Some?
    ensures r.Some? ==> Base64.Decode(r.value) == Some(Bytes(s))
    ensures r.Some? ==> |r.value| == 4 * ((|s| + 2) / 3)
  {
    if Latin1(s) then
      Base64.DecodeEncode(Bytes(s));
      Base64.EncodeLength(Bytes(s));
      Some(Base64.Encode(Bytes(s)))
    else None
  }

  /**
    `calculateVersion`: the first 8 characters of the Base64 form of the
    sorted `updated_at` values joined with `|`.
  */
  function CalculateVersion(updatedAt: seq<string>): (r: Option<string>)
    ensures r.Some? ==> |r.value| <= 8
    ensures r.Some? <==> Latin1(Join(Sorting.Sort(updatedAt), "|"))
    ensures r.Some? ==> r.value <= Btoa(Join(Sorting.Sort(updatedAt), "|")).value
  {
    match Btoa(Join(Sorting.Sort(updatedAt), "|"))
    case None => None
    case Some(encoded) => Some(Take(encoded, 8))
  }

  /** The version does not depend on the order the rows arrive in. */
  lemma VersionPermutationInvariant(a: seq<string>, b: seq<string>)
    requires multiset(a) == multiset(b)
    ensures CalculateVersion(a) == CalculateVersion(b)
  {
    Sorting.SortPermutationInvariant(a, b);
  }

  /** No active assignment gives the empty version. */
  lemma EmptyVersion()
    ensures CalculateVersion([]) == Some("")
  {
  }

  /** The version of a non-empty ASCII join has exactly 8 characters once it spans 6 bytes. */
  lemma VersionLength(updatedAt: seq<string>)
    requires Latin1(Join(Sorting.Sort(updatedAt), "|"))
    requires |Join(Sorting.Sort(updatedAt), "|")| >= 6
    ensures CalculateVersion(updatedAt).Some? && |CalculateVersion(updatedAt).value| == 8
  {
  }

  /** An active assignment row as `getCurrentAssignments` selects it. */
  datatype AssignmentRow = AssignmentRow(userId: string, updatedAt: string)

  datatype Current = Current(userIds: seq<string>, version: string)

  /** Why `updateAssignments` threw. */
  datatype UpdateError = ConflictError | QueryError(message: string) | InvalidCharacterError | RpcError(message: string)

  /** `getCurrentAssignments` on the reply of its query. */
  function GetCurrentAssignments(reply: Result<seq<AssignmentRow>, string>): (r: Result<Current, UpdateError>)
    ensures reply.Err? ==> r == Err(QueryError(reply.error))
    ensures r.Ok? ==> (|r.value.userIds| == |reply.value|
      && forall i :: 0 <= i < |reply.value| ==> r.value.userIds[i] == reply.value[i].userId)
    ensures r.Ok? ==> Some(r.value.version) == CalculateVersion(seq(|reply.value|, i requires 0 <= i < |reply.value| => reply.value[i].updatedAt))
    ensures reply.Ok? && r.Err? ==> r == Err(InvalidCharacterError)
  {
    if reply.Err? then Err(QueryError(reply.error))
    else
      var rows := reply.value;
      var ids := seq(|rows|, i requires 0 <= i < |rows| => rows[i].userId);
      match CalculateVersion(seq(|rows|, i requires 0 <= i < |rows| => rows[i].updatedAt))
      case None => Err(InvalidCharacterError)
      case Some(v) => Ok(Current(ids, v))
  }

  /** A user id as the checkbox or caller supplies it. */
  datatype UserId = TextId(text: string) | NumericId(n: int)

  /** `id.toString()`. */
  function IdString(id: UserId): string {
    match id
    case TextId(t) => t
    case NumericId(n) => IntToString(n)
  }

  /** The arguments of the `update_challenge_assignments` call. */
  datatype RpcCall = RpcCall(challengeId: string, userIds: seq<string>, updatedBy: string)

  /** One operation the RPC reports, such as `created` or `deactivated`. */
  datatype Operation = Operation(operation: string, userId: string)

  datatype Update = Update(rpc: Option<RpcCall>, result: Result<seq<Operation>, UpdateError>)

  /** JavaScript truthiness of an optional string. */
  predicate TruthyText(s: Option<string>) {
    s.Some? && s.value != ""
  }

  /**
    `updateAssignments`: with a truthy expected version the current version
    is fetched and compared first; a mismatch throws `ConflictError` before
    the RPC. `current` and `rpcReply` are the backend's replies.
  */
  function UpdateAssignments(service: string, challengeId: string, newUserIds: seq<UserId>,
                             expectedVersion: Option<string>, current: Result<seq<AssignmentRow>, string>,
                             rpcReply: Result<seq<Operation>, string>): (u: Update)
    ensures u.result == Err(ConflictError) <==>
      TruthyText(expectedVersion) && GetCurrentAssignments(current).Ok?
      && GetCurrentAssignments(current).value.version != expectedVersion.value
    ensures u.result == Err(ConflictError) ==> u.rpc.None?
    ensures !TruthyText(expectedVersion) ==> u.rpc.Some?
    ensures u.rpc.Some? ==> (u.rpc.value.challengeId == challengeId && u.rpc.value.updatedBy == service
      && |u.rpc.value.userIds| == |newUserIds|
      && forall i :: 0 <= i < |newUserIds| ==> u.rpc.value.userIds[i] == IdString(newUserIds[i]))
    ensures u.rpc.Some? ==> u.result == (if rpcReply.Ok? then Ok(rpcReply.value) else Err(RpcError(rpcReply.error)))
    ensures u.rpc.None? ==> u.result.Err?
  {
    var check := if TruthyText(expectedVersion) then
      match GetCurrentAssignments(current)
      case Err(e) => Some(e)
      case Ok(cur) => if cur.version != expectedVersion.value then Some(ConflictError) else None
    else None;
    if check.Some? then Update(None, Err(check.value))
    else
      var call := RpcCall(challengeId, seq(|newUserIds|, i requires 0 <= i < |newUserIds| => IdString(newUserIds[i])), service);
      Update(Some(call), if rpcReply.Ok? then Ok(rpcReply.value) else Err(RpcError(rpcReply.error)))
  }

  /** Passing the version that was read, with nothing changed since, never conflicts. */
  lemma UnchangedVersionPasses(service: string, challengeId: string, newUserIds: seq<UserId>,
                               current: Result<seq<AssignmentRow>, string>, rpcReply: Result<seq<Operation>, string>)
    requires GetCurrentAssignments(current).Ok?
    ensures UpdateAssignments(service, challengeId, newUserIds, Some(GetCurrentAssignments(current).value.version),
                              current, rpcReply).rpc.Some?
  {
  }
}
