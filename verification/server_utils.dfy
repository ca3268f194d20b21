/**
  Server helpers: the signed-cookie user, the shared Supabase client and
  the one-time Firebase Admin setup. Environment, SDKs and clients are
  parameters.
*/
module ServerUtils {
  import opened Wrappers
  import opened Strings

  /** The parts of an Express request the helpers read; `None` is a missing value. */
  datatype Request = Request(signedCookies: Option<map<string, string>>)

  /** `requireSignedUser`: the signed `user_id` when the request, its signed cookies and the id are all truthy. */
  function RequireSignedUser(req: Option<Request>): (r: Option<string>)
    ensures r.None? <==> (req.None? || req.value.signedCookies.None?
      || "user_id" !in req.value.signedCookies.value || req.value.signedCookies.value["user_id"] == "")
    ensures r.Some? ==> r.value == req.value.signedCookies.value["user_id"] && r.value != ""
  {
    if req.Some? && req.value.signedCookies.Some? && "user_id" in req.value.signedCookies.value
       && req.value.signedCookies.value["user_id"] != ""
    then Some(req.value.signedCookies.value["user_id"])
    else None
  }

  /** The module-level client slot; a client is named by the number it was created with. */
  datatype ClientSlot = ClientSlot(instance: Option<nat>)

  /** `getSupabase`: return the stored client, creating it (as client `newClient`) only when there is none. */
  function GetSupabase(slot: ClientSlot, newClient: nat): (r: (ClientSlot, nat))
    ensures slot.instance.Some? ==> r == (slot, slot.instance.value)
    ensures slot.instance.None? ==> r == (ClientSlot(Some(newClient)), newClient)
    ensures r.0.instance == Some(r.1)
  {
    if slot.instance.Some? then (slot, slot.instance.value) else (ClientSlot(Some(newClient)), newClient)
  }

  /** Any number of calls return the client of the first one. */
  lemma {:induction false} SameClientEveryTime(slot: ClientSlot, newClients: seq<nat>, first: nat)
    requires slot.instance == Some(first)
    ensures Calls(slot, newClients).0 == slot
    ensures forall i :: 0 <= i < |Calls(slot, newClients).1| ==> Calls(slot, newClients).1[i] == first
  {
    if |newClients| > 0 {
      SameClientEveryTime(GetSupabase(slot, newClients[0]).0, newClients[1..], first);
    }
  }

  /** The clients returned by successive calls. */
  function Calls(slot: ClientSlot, newClients: seq<nat>): (r: (ClientSlot, seq<nat>))
    ensures |r.1| == |newClients|
    decreases |newClients|
  {
    if |newClients| == 0 then (slot, [])
    else
      var (s, c) := GetSupabase(slot, newClients[0]);
      var (t, cs) := Calls(s, newClients[1..]);
      (t, [c] + cs)
  }

  /** How `initializeApp` was called: with a certificate, or with defaults. */
  datatype AdminInit = WithCertificate | WithDefaults

  /** The length of `admin.apps` after a call, and how that call initialised, if it did. */
  datatype AdminState = AdminState(apps: nat, init: Option<AdminInit>)

  /**
    What one call finds: the `FIREBASE_SERVICE_ACCOUNT` text, whether
    `JSON.parse` of it returns (with a truthy value or not) or throws, and
    whether `admin.credential.cert` accepts the parsed object or throws (as it
    does for an object without service-account fields, such as `{}`).
  */
  datatype AdminEnv = AdminEnv(serviceAccount: string, parsed: Result<bool, string>, certAccepted: bool)

  /** The trimmed service account text starts with `{`, so it is parsed. */
  predicate Braced(serviceAccount: string) {
    |Trim(serviceAccount)| > 0 && Trim(serviceAccount)[0] == '{'
  }

  /** The parse throws, or its truthy result is refused by `cert`: the catch is reached. */
  predicate SetupThrows(env: AdminEnv) {
    Braced(env.serviceAccount) && (env.parsed.Err? || (env.parsed == Ok(true) && !env.certAccepted))
  }

  /**
    `ensureFirebaseAdmin` given the number of existing apps. A throwing parse
    or `cert` call is caught and initialises nothing, so `admin.apps` stays
    as it was.
  */
  function EnsureFirebaseAdmin(apps: nat, env: AdminEnv): (r: AdminState)
    ensures r.apps == if r.init.Some? then apps + 1 else apps
    ensures apps > 0 ==> r.init.None?
    ensures apps == 0 && (env.serviceAccount == "" || !Braced(env.serviceAccount)) ==> r.init == Some(WithDefaults)
    ensures r.init == Some(WithCertificate) <==>
      apps == 0 && Braced(env.serviceAccount) && env.parsed == Ok(true) && env.certAccepted
    ensures r.init.None? <==> apps > 0 || SetupThrows(env)
  {
    if apps > 0 then AdminState(apps, None)
    else if env.serviceAccount == "" then AdminState(1, Some(WithDefaults))
    else if Braced(env.serviceAccount) then
      match env.parsed
      case Err(_) => AdminState(0, None)
      case Ok(truthy) =>
        if !truthy then AdminState(1, Some(WithDefaults))
        else if env.certAccepted then AdminState(1, Some(WithCertificate))
        else AdminState(0, None)
    else AdminState(1, Some(WithDefaults))
  }

  /** Once a call initialised, the next call, whatever the environment then holds, initialises nothing. */
  lemma EnsureOnce(apps: nat, env1: AdminEnv, env2: AdminEnv)
    ensures var first := EnsureFirebaseAdmin(apps, env1);
      first.init.Some? ==> EnsureFirebaseAdmin(first.apps, env2) == AdminState(first.apps, None)
  {
  }

  /**
    A service account whose parse or certificate throws leaves no app, so the
    next call tries again and initialises unless it throws too.
  */
  lemma FailedSetupRetries(env1: AdminEnv, env2: AdminEnv)
    requires SetupThrows(env1)
    ensures EnsureFirebaseAdmin(0, env1) == AdminState(0, None)
    ensures EnsureFirebaseAdmin(EnsureFirebaseAdmin(0, env1).apps, env2).init.Some? <==> !SetupThrows(env2)
  {
  }

  /** `{}` parses to a truthy object that `cert` refuses: nothing is initialised. */
  lemma EmptyObjectInitialisesNothing()
    ensures EnsureFirebaseAdmin(0, AdminEnv("{}", Ok(true), false)) == AdminState(0, None)
  {
    assert Trim("{}") == "{}" by { TrimUntouched("{}"); }
  }

  /** The app count and the number of initialisations after successive calls, each with its own environment. */
  function EnsureCalls(apps: nat, calls: seq<AdminEnv>): (r: (nat, nat))
    ensures r.0 == apps + r.1
    decreases |calls|
  {
    if |calls| == 0 then (apps, 0)
    else
      var first := EnsureFirebaseAdmin(apps, calls[0]);
      var rest := EnsureCalls(first.apps, calls[1..]);
      (rest.0, (if first.init.Some? then 1 else 0) + rest.1)
  }

  /** However often it is called, Firebase Admin is initialised at most once, and never when an app exists. */
  lemma {:induction false} InitialisedAtMostOnce(apps: nat, calls: seq<AdminEnv>)
    ensures EnsureCalls(apps, calls).1 <= 1
    ensures apps > 0 ==> EnsureCalls(apps, calls).1 == 0
    decreases |calls|
  {
    if |calls| > 0 {
      var first := EnsureFirebaseAdmin(apps, calls[0]);
      InitialisedAtMostOnce(first.apps, calls[1..]);
    }
  }
}
