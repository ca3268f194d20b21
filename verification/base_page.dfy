/**
  The logic every page inherits from `BasePage`: the page title, the admin
  test, completing a challenge together with Brian's mirrored assignment,
  the per-user success counts on the scoreboard, and the user's stats.
  Backend replies are parameters.
*/
module BasePage {
  import opened Wrappers
  import opened Strings

  /** The part of the signed-in user these rules read. */
  datatype User = User(username: string, displayName: string)

  const TitleSuffix := " - Birthday Challenge Zone"

  /** `setPageTitle`: the document title for a page title and the current user. */
  function PageTitle(user: Option<User>, title: string): (r: string)
    ensures EndsWith(r, TitleSuffix)
    ensures user.None? || title != "Dashboard" ==> r[..|r| - |TitleSuffix|] == title
    ensures user.Some? && title == "Dashboard" ==>
      r[..|r| - |TitleSuffix|] == user.value.displayName + "'s " + title
  {
    var full := if user.Some? && title == "Dashboard" then user.value.displayName + "'s " + title else title;
    full + TitleSuffix
  }

  /** `isAdmin`: a user is signed in and their username is on the admin list. */
  predicate IsAdmin(user: Option<User>) {
    user.Some? && user.value.username in ["brianc", "admin"]
  }

  /** Only the two listed usernames are administrators, and nobody is without a user. */
  lemma AdminUsernames(user: Option<User>)
    ensures IsAdmin(user) <==> user.Some? && (user.value.username == "brianc" || user.value.username == "admin")
  {
  }

  /**
    Brian's outcome in `handleBrianChallenge`: the player's own outcome in
    "with" mode, the opposite one in "vs" mode, and none for any other mode.
  */
  function BrianOutcome(mode: Option<string>, outcome: string): (r: Option<string>)
    ensures mode == Some("with") ==> r == Some(outcome)
    ensures mode == Some("vs") ==> r.Some? && (r.value == "failure" <==> outcome == "success")
    ensures mode == Some("vs") ==> r.value == "failure" || r.value == "success"
    ensures mode != Some("with") && mode != Some("vs") ==> r == None
  {
    if mode == Some("with") then Some(outcome)
    else if mode == Some("vs") then Some(if outcome == "success" then "failure" else "success")
    else None
  }

  /** In "vs" mode, mirroring Brian's mirrored outcome gives back the player's own outcome. */
  lemma VsIsInvolution(outcome: string)
    requires outcome == "success" || outcome == "failure"
    ensures BrianOutcome(Some("vs"), BrianOutcome(Some("vs"), outcome).value) == Some(outcome)
  {
  }

  /** An outcome other than the two known ones is not recovered by mirroring twice. */
  lemma VsLosesUnknownOutcome()
    ensures BrianOutcome(Some("vs"), BrianOutcome(Some("vs"), "pending").value) == Some("failure")
  {
    assert "pending"[0] != "success"[0];
  }

  /** The writes `markChallengeComplete` issues. */
  datatype Write =
    | CompleteAssignment(assignmentId: string, completedAt: string, outcome: string)
    | UpsertBrianAssignment(userId: string, challengeId: string, completedAt: string, brianOutcome: Option<string>)

  /** Which step threw. */
  datatype Failure = UpdateFailed | BriancLookupFailed | UpsertFailed

  datatype Completion = Completion(writes: seq<Write>, result: Result<bool, Failure>)

  /**
    `markChallengeComplete` followed by `handleBrianChallenge`: update the
    assignment, then, only for a truthy Brian mode, look up brianc and upsert
    his assignment for the same challenge. `briancId` is the lookup's reply.
  */
  function MarkChallengeComplete(assignmentId: string, challengeId: string, outcome: string,
                                 brianMode: Option<string>, now: string, updateOk: bool,
                                 briancId: Result<string, string>, upsertOk: bool): (c: Completion)
    ensures |c.writes| >= 1 && c.writes[0] == CompleteAssignment(assignmentId, now, outcome)
    ensures !updateOk ==> c.writes == [c.writes[0]] && c.result == Err(UpdateFailed)
    ensures !TruthyText(brianMode) ==> c.writes == [c.writes[0]]
    ensures updateOk && TruthyText(brianMode) && briancId.Ok? ==>
      c.writes == [c.writes[0], UpsertBrianAssignment(briancId.value, challengeId, now, BrianOutcome(brianMode, outcome))]
    ensures c.result.Ok? <==> updateOk && (!TruthyText(brianMode) || (briancId.Ok? && upsertOk))
    ensures c.result.Ok? ==> c.result.value
  {
    var update := CompleteAssignment(assignmentId, now, outcome);
    if !updateOk then Completion([update], Err(UpdateFailed))
    else if !TruthyText(brianMode) then Completion([update], Ok(true))
    else if briancId.Err? then Completion([update], Err(BriancLookupFailed))
    else
      var writes := [update, UpsertBrianAssignment(briancId.value, challengeId, now, BrianOutcome(brianMode, outcome))];
      Completion(writes, if upsertOk then Ok(true) else Err(UpsertFailed))
  }

  /** JavaScript truthiness of an optional string. */
  predicate TruthyText(s: Option<string>) {
    s.Some? && s.value != ""
  }

  /** An assignment row as the scoreboard enrichment reads it. */
  datatype AssignmentRow = AssignmentRow(userId: string, completedAt: Option<string>, outcome: Option<string>)

  /** An assignment that counts as a successful completion. */
  predicate IsSuccess(a: AssignmentRow) {
    TruthyText(a.completedAt) && a.outcome == Some("success")
  }

  /** The number of successful completions of `user`: the reference count. */
  function SuccessCount(rows: seq<AssignmentRow>, user: string): (n: nat)
    ensures n <= |rows|
  {
    if |rows| == 0 then 0
    else SuccessCount(rows[..|rows| - 1], user)
         + (if rows[|rows| - 1].userId == user && IsSuccess(rows[|rows| - 1]) then 1 else 0)
  }

  /** The `completionCounts` object the `forEach` builds, one row after another. */
  function CompletionCounts(rows: seq<AssignmentRow>): map<string, nat> {
    if |rows| == 0 then map[]
    else
      var counts := CompletionCounts(rows[..|rows| - 1]);
      var a := rows[|rows| - 1];
      if IsSuccess(a) then counts[a.userId := (if a.userId in counts then counts[a.userId] else 0) + 1]
      else counts
  }

  /** `completionCounts[id] || 0`. */
  function CountOf(counts: map<string, nat>, user: string): nat {
    if user in counts then counts[user] else 0
  }

  /** The object built by `forEach` holds exactly the reference counts. */
  lemma {:induction false} CompletionCountsAgree(rows: seq<AssignmentRow>, user: string)
    ensures CountOf(CompletionCounts(rows), user) == SuccessCount(rows, user)
    ensures user in CompletionCounts(rows) ==> CompletionCounts(rows)[user] > 0
  {
    if |rows| > 0 {
      CompletionCountsAgree(rows[..|rows| - 1], user);
    }
  }

  /** A scoreboard row. */
  datatype ScoreRow = ScoreRow(userId: string, displayName: string, totalPoints: int, challengesCompleted: int)

  /**
    `enrichScoreboardWithCompletions`: every row keeps its place and fields,
    and its completion count becomes the user's successful completions.
  */
  function EnrichScoreboard(board: seq<ScoreRow>, assignments: Result<seq<AssignmentRow>, string>): (r: Result<seq<ScoreRow>, string>)
    ensures assignments.Err? <==> r.Err?
    ensures r.Ok? ==> |r.value| == |board|
    ensures r.Ok? ==> forall i :: 0 <= i < |board| ==>
      r.value[i] == board[i].(challengesCompleted := SuccessCount(assignments.value, board[i].userId))
  {
    if assignments.Err? then Err(assignments.error)
    else
      var counts := CompletionCounts(assignments.value);
      var rows := seq(|board|, i requires 0 <= i < |board| =>
        board[i].(challengesCompleted := CountOf(counts, board[i].userId)));
      assert forall i :: 0 <= i < |board| ==>
        rows[i] == board[i].(challengesCompleted := SuccessCount(assignments.value, board[i].userId)) by {
        forall i | 0 <= i < |board| {
          CompletionCountsAgree(assignments.value, board[i].userId);
        }
      }
      Ok(rows)
  }

  /** A user without any successful assignment gets 0. */
  lemma NoSuccessScoresZero(rows: seq<AssignmentRow>, user: string)
    requires forall i :: 0 <= i < |rows| ==> rows[i].userId != user || !IsSuccess(rows[i])
    ensures SuccessCount(rows, user) == 0
  {
    if |rows| > 0 {
      NoSuccessScoresZero(rows[..|rows| - 1], user);
    }
  }

  /** `findIndex` of the user's row, or -1. */
  function FindRow(board: seq<ScoreRow>, user: string): (k: int)
    ensures -1 <= k < |board|
    ensures k >= 0 ==> board[k].userId == user
    ensures forall j :: 0 <= j < |board| && (k == -1 || j < k) ==> board[j].userId != user
  {
    if |board| == 0 then -1
    else if board[0].userId == user then 0
    else
      var k := FindRow(board[1..], user);
      if k == -1 then -1 else k + 1
  }

  /** The number of assignments with a truthy `completed_at`. */
  function CompletedCount(completedAt: seq<Option<string>>): (n: nat)
    ensures n <= |completedAt|
  {
    if |completedAt| == 0 then 0
    else (if TruthyText(completedAt[0]) then 1 else 0) + CompletedCount(completedAt[1..])
  }

  /** Every assignment is completed exactly when the two totals agree. */
  lemma {:induction false} AllCompletedIff(completedAt: seq<Option<string>>)
    ensures CompletedCount(completedAt) == |completedAt| <==>
      forall i :: 0 <= i < |completedAt| ==> TruthyText(completedAt[i])
  {
    if |completedAt| > 0 {
      AllCompletedIff(completedAt[1..]);
      if CompletedCount(completedAt) == |completedAt| {
        forall i | 0 <= i < |completedAt| ensures TruthyText(completedAt[i]) {
          if i > 0 {
            assert completedAt[i] == completedAt[1..][i - 1];
          }
        }
      }
    }
  }

  /**
    What `loadUserStats` returns. `rank` is `None` where JavaScript computes
    `NaN` (no scoreboard data at all).
  */
  datatype UserStats = UserStats(userStats: Option<ScoreRow>, rank: Option<int>,
                                 totalAssigned: nat, totalCompleted: nat)

  /**
    `loadUserStats`: both queries run; the scoreboard error is reported
    first. `None` data stands for a `null` reply.
  */
  function LoadUserStats(user: string, board: Result<Option<seq<ScoreRow>>, string>,
                         completedRows: Result<Option<seq<Option<string>>>, string>): (r: Result<UserStats, string>)
    ensures board.Err? ==> r == Err(board.error)
    ensures board.Ok? && completedRows.Err? ==> r == Err(completedRows.error)
    ensures r.Ok? ==> r.value.totalCompleted <= r.value.totalAssigned
    ensures r.Ok? && completedRows.value.None? ==> r.value.totalAssigned == 0
    ensures r.Ok? && completedRows.value.Some? ==> r.value.totalAssigned == |completedRows.value.value|
    ensures r.Ok? && board.value.None? ==> r.value.rank.None? && r.value.userStats.None?
    ensures r.Ok? && board.value.Some? ==> r.value.rank.Some? && 0 <= r.value.rank.value <= |board.value.value|
    ensures r.Ok? && board.value.Some? ==>
      (r.value.rank.value == 0 <==> forall j :: 0 <= j < |board.value.value| ==> board.value.value[j].userId != user)
    ensures r.Ok? && board.value.Some? && r.value.rank.value > 0 ==>
      var rows := board.value.value; var k := r.value.rank.value;
      rows[k - 1].userId == user && r.value.userStats == Some(rows[k - 1])
      && forall j :: 0 <= j < k - 1 ==> rows[j].userId != user
    ensures r.Ok? ==> (r.value.userStats.Some? <==> r.value.rank.Some? && r.value.rank.value > 0)
  {
    if board.Err? then Err(board.error)
    else if completedRows.Err? then Err(completedRows.error)
    else
      var totalAssigned := if completedRows.value.Some? then |completedRows.value.value| else 0;
      var totalCompleted := if completedRows.value.Some? then CompletedCount(completedRows.value.value) else 0;
      match board.value
      case None => Ok(UserStats(None, None, totalAssigned, totalCompleted))
      case Some(rows) =>
        var k := FindRow(rows, user);
        Ok(UserStats(if k >= 0 then Some(rows[k]) else None, Some(k + 1), totalAssigned, totalCompleted))
  }
}
