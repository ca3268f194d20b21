/**
  `GET /users/:identifier`: a UUID-shaped identifier is looked up by
  `user_id` first, then by `username`; the row is normalised for the
  profile template.
*/
module UserProfileRoute {
  import opened Wrappers

  predicate IsHex(c: char) {
    '0' <= c <= '9' || 'a' <= c <= 'f' || 'A' <= c <= 'F'
  }

  predicate HexRun(s: string, from: nat, to: nat)
    requires from <= to <= |s|
  {
    forall i :: from <= i < to ==> IsHex(s[i])
  }

  /**
    The route's UUID pattern: 8-4-4-4-12 hex digits joined by hyphens, the
    third group led by a version digit 1 to 5 (section 4.1.3 of RFC 4122)
    and the fourth by a variant digit 8, 9, a or b (section 4.1.1 of RFC
    4122), in either case.
  */
  predicate UuidShaped(s: string) {
    |s| == 36
    && s[8] == '-' && s[13] == '-' && s[18] == '-' && s[23] == '-'
    && HexRun(s, 0, 8) && HexRun(s, 9, 13)
    && '1' <= s[14] <= '5' && HexRun(s, 15, 18)
    && s[19] in {'8', '9', 'a', 'b', 'A', 'B'} && HexRun(s, 20, 23)
    && HexRun(s, 24, 36)
  }

  function LowerChar(c: char): char {
    if 'A' <= c <= 'Z' then (c as int + 32) as char else c
  }

  /** ASCII lower case. */
  function Lower(s: string): (r: string)
    ensures |r| == |s| && forall i :: 0 <= i < |s| ==> r[i] == LowerChar(s[i])
  {
    seq(|s|, i requires 0 <= i < |s| => LowerChar(s[i]))
  }

  /** The match ignores case: an identifier and its lower-case form are accepted together. */
  lemma UuidIgnoresCase(s: string)
    ensures UuidShaped(s) <==> UuidShaped(Lower(s))
  {
    if |s| == 36 {
      assert forall i :: 0 <= i < 36 ==> (IsHex(s[i]) <==> IsHex(Lower(s)[i]));
    }
  }

  /** The five hyphen-separated groups. */
  function Groups(s: string): seq<string>
    requires |s| == 36
  {
    [s[..8], s[9..13], s[14..18], s[19..23], s[24..]]
  }

  /** A UUID-shaped identifier is its groups joined with hyphens, with the group lengths 8, 4, 4, 4 and 12. */
  lemma UuidIsGroups(s: string)
    requires UuidShaped(s)
    ensures var g := Groups(s);
      s == g[0] + "-" + g[1] + "-" + g[2] + "-" + g[3] + "-" + g[4]
      && |g[0]| == 8 && |g[1]| == 4 && |g[2]| == 4 && |g[3]| == 4 && |g[4]| == 12
  {
  }

  /** A `user_profile_view` row; every column may be missing. */
  datatype ProfileRow = ProfileRow(
    userId: Option<string>,
    id: Option<string>,
    displayName: Option<string>,
    userDisplayName: Option<string>,
    headshotUrl: Option<string>,
    userHeadshotUrl: Option<string>,
    headshot: Option<string>,
    profileHtml: Option<string>,
    promptHtml: Option<string>,
    promptHtmlSafe: Option<string>,
    profileBgUrl: Option<string>,
    profileBgMode: Option<string>,
    favoriteTrackUrl: Option<string>,
    favoriteTrack: Option<string>,
    profileTitle: Option<string>)

  /** `a || b` on optional text. */
  function Or(a: Option<string>, b: Option<string>): (r: Option<string>)
    ensures a.Some? && a.value != "" ==> r == a
    ensures !(a.Some? && a.value != "") ==> r == b
  {
    if a.Some? && a.value != "" then a else b
  }

  /** The user object the template gets. */
  datatype ProfileView = ProfileView(
    id: Option<string>,
    displayName: Option<string>,
    headshot: Option<string>,
    profileHtml: Option<string>,
    profileBgUrl: Option<string>,
    profileBgMode: string,
    favoriteTrack: Option<string>)

  /** The normalisation of a found row. */
  function Normalize(d: ProfileRow): (u: ProfileView)
    ensures u.id == Or(d.userId, d.id)
    ensures u.profileBgMode == (if d.profileBgMode.Some? && d.profileBgMode.value != "" then d.profileBgMode.value else "cover")
    ensures u.profileBgMode != ""
    ensures u.favoriteTrack.Some? ==> u.favoriteTrack.value != ""
    ensures u.favoriteTrack.None? <==> Or(d.favoriteTrackUrl, d.favoriteTrack).None? || Or(d.favoriteTrackUrl, d.favoriteTrack).value == ""
    ensures u.profileBgUrl == d.profileBgUrl
  {
    ProfileView(
      Or(d.userId, d.id),
      Or(d.displayName, d.userDisplayName),
      Or(Or(d.headshotUrl, d.userHeadshotUrl), d.headshot),
      Or(Or(d.profileHtml, d.promptHtml), d.promptHtmlSafe),
      d.profileBgUrl,
      if d.profileBgMode.Some? && d.profileBgMode.value != "" then d.profileBgMode.value else "cover",
      Or(Or(d.favoriteTrackUrl, d.favoriteTrack), None))
  }

  /** `req.cookies && req.cookies.edit_profile === "1"`. */
  predicate EditMode(cookies: Option<map<string, string>>) {
    cookies.Some? && "edit_profile" in cookies.value && cookies.value["edit_profile"] == "1"
  }

  datatype Response =
    | Render(user: ProfileView, profileTitle: Option<string>, editMode: bool)
    | Status(code: int, text: string)

  /** The response and the columns queried, in order. */
  datatype Outcome = Outcome(response: Response, queried: seq<string>)

  /**
    The handler. `byUserId` and `byUsername` are the replies of the two
    `maybeSingle` lookups; each is used only when that query is made.
  */
  function GetProfile(identifier: string, byUserId: Result<Option<ProfileRow>, string>,
                      byUsername: Result<Option<ProfileRow>, string>, cookies: Option<map<string, string>>): (o: Outcome)
    ensures UuidShaped(identifier) && byUserId.Err? ==> o == Outcome(Status(500, "Internal server error"), ["user_id"])
    ensures !UuidShaped(identifier) ==> o.queried == ["username"]
    ensures UuidShaped(identifier) && byUserId == Ok(None) ==> o.queried == ["user_id", "username"]
    ensures UuidShaped(identifier) && byUserId.Ok? && byUserId.value.Some? ==>
      o == Outcome(Render(Normalize(byUserId.value.value), byUserId.value.value.profileTitle, EditMode(cookies)), ["user_id"])
    ensures o.response.Status? && o.response.code == 404 <==>
      (!UuidShaped(identifier) || byUserId == Ok(None)) && (byUsername.Err? || byUsername.value.None?)
    ensures (!UuidShaped(identifier) || byUserId == Ok(None)) && byUsername.Ok? && byUsername.value.Some? ==>
      o.response == Render(Normalize(byUsername.value.value), byUsername.value.value.profileTitle, EditMode(cookies))
  {
    if UuidShaped(identifier) && byUserId.Err? then Outcome(Status(500, "Internal server error"), ["user_id"])
    else if UuidShaped(identifier) && byUserId.value.Some? then
      var d := byUserId.value.value;
      Outcome(Render(Normalize(d), d.profileTitle, EditMode(cookies)), ["user_id"])
    else
      var queried := if UuidShaped(identifier) then ["user_id", "username"] else ["username"];
      if byUsername.Ok? && byUsername.value.Some? then
        var d := byUsername.value.value;
        Outcome(Render(Normalize(d), d.profileTitle, EditMode(cookies)), queried)
      else Outcome(Status(404, "Profile not found"), queried)
  }

  /** A username that is not UUID-shaped is never looked up by `user_id`, and a failing username lookup means 404, not 500. */
  lemma UsernameErrorsAreNotFound(identifier: string, byUserId: Result<Option<ProfileRow>, string>, e: string,
                                  cookies: Option<map<string, string>>)
    requires !UuidShaped(identifier)
    ensures GetProfile(identifier, byUserId, Err(e), cookies) == Outcome(Status(404, "Profile not found"), ["username"])
  {
  }
}
