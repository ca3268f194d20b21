/**
  The achievement service: awarding an achievement by key against the
  `achievements` and `user_achievements` tables, the threshold rules of the
  count-based triggers, the guestbook fallback, and the one-time `init`.
  The database is a value; each query's failure is an explicit input.
*/
module Achievements {
  import opened Wrappers

  /** A row of `achievements`. */
  datatype Achievement = Achievement(id: int, key: string, name: string, points: int)

  /** The `details` object stored with an award, one shape per trigger. */
  datatype Details =
    | SubmittedCount(submitted: int)
    | CompletedCount(completed: int)
    | CommentId(commentId: Option<string>)
    | CommentCount(commentCount: Option<int>)
    | GifSource(src: Option<string>)
    | TriggerDetail(detail: string)

  /** A row of `user_achievements`. */
  datatype Award = Award(id: nat, userId: string, achievementId: int, details: Details)

  datatype Db = Db(achievements: seq<Achievement>, awards: seq<Award>)

  /** The `achievement:awarded` event. */
  datatype Awarded = Awarded(userId: string, achievementKey: string, name: string, points: int, details: Details)

  /** Which of the three queries of `awardByKey` report an error. */
  datatype Faults = Faults(lookupFails: bool, existingFails: bool, insertFails: bool)

  const NoFaults := Faults(false, false, false)

  /** `appState.getUserId()` is truthy. */
  predicate SignedIn(userId: Option<string>) {
    userId.Some? && userId.value != ""
  }

  /** The achievements with a given key, in table order. */
  function WithKey(achievements: seq<Achievement>, key: string): (r: seq<Achievement>)
    ensures |r| <= |achievements|
    ensures forall a :: a in r <==> a in achievements && a.key == key
  {
    if |achievements| == 0 then []
    else (if achievements[0].key == key then [achievements[0]] else []) + WithKey(achievements[1..], key)
  }

  /** `.eq("key", key).maybeSingle()`: no row is `null`, more than one row is an error. */
  function LookupByKey(achievements: seq<Achievement>, key: string): (r: Result<Option<Achievement>, string>)
    ensures r == Ok(None) <==> forall a :: a in achievements ==> a.key != key
    ensures r.Ok? && r.value.Some? ==> r.value.value in achievements && r.value.value.key == key
    ensures r.Err? <==> |WithKey(achievements, key)| > 1
  {
    var rows := WithKey(achievements, key);
    if |rows| == 0 then Ok(None)
    else if |rows| == 1 then assert rows[0] in rows; Ok(Some(rows[0]))
    else Err("multiple rows returned")
  }

  /** The user already holds the achievement. */
  predicate Holds(db: Db, userId: string, achievementId: int) {
    exists i :: 0 <= i < |db.awards| && db.awards[i].userId == userId && db.awards[i].achievementId == achievementId
  }

  /** No user holds the same achievement twice. */
  predicate UniqueAwards(db: Db) {
    forall i, j :: 0 <= i < j < |db.awards| ==>
      db.awards[i].userId != db.awards[j].userId || db.awards[i].achievementId != db.awards[j].achievementId
  }

  /** What `awardByKey` returns, the database after it, and the events it emitted. */
  datatype AwardOutcome = AwardOutcome(inserted: Option<Award>, db: Db, events: seq<Awarded>)

  /** The achievement `awardByKey` would insert, if every query succeeds. */
  predicate Awardable(db: Db, userId: Option<string>, key: string) {
    SignedIn(userId)
    && LookupByKey(db.achievements, key).Ok?
    && LookupByKey(db.achievements, key).value.Some?
    && !Holds(db, userId.value, LookupByKey(db.achievements, key).value.value.id)
  }

  /**
    `awardByKey`: no user, an unknown key, an award already held and every
    query error all return `null` and change nothing; otherwise one row is
    inserted and returned and one event is emitted.
  */
  function AwardByKey(db: Db, userId: Option<string>, key: string, details: Details, f: Faults): (o: AwardOutcome)
    ensures o.inserted.None? ==> o.db == db && o.events == []
    ensures o.inserted.Some? <==> Awardable(db, userId, key) && f == NoFaults
    ensures o.inserted.Some? ==>
      var a := LookupByKey(db.achievements, key).value.value;
      o.inserted.value == Award(|db.awards|, userId.value, a.id, details)
      && o.db == db.(awards := db.awards + [o.inserted.value])
      && o.events == [Awarded(userId.value, a.key, a.name, a.points, details)]
  {
    if !SignedIn(userId) then AwardOutcome(None, db, [])
    else
      match LookupByKey(db.achievements, key)
      case Err(_) => AwardOutcome(None, db, [])
      case Ok(found) =>
        if f.lookupFails || found.None? then AwardOutcome(None, db, [])
        else
          var a := found.value;
          if f.existingFails || Holds(db, userId.value, a.id) || f.insertFails then AwardOutcome(None, db, [])
          else
            var row := Award(|db.awards|, userId.value, a.id, details);
            AwardOutcome(Some(row), db.(awards := db.awards + [row]), [Awarded(userId.value, a.key, a.name, a.points, details)])
  }

  /** Awarding twice inserts once: the second call returns `null` and leaves the tables alone. */
  lemma AwardIdempotent(db: Db, userId: Option<string>, key: string, d1: Details, d2: Details, f: Faults)
    requires AwardByKey(db, userId, key, d1, f).inserted.Some?
    ensures var o := AwardByKey(db, userId, key, d1, f);
      AwardByKey(o.db, userId, key, d2, f) == AwardOutcome(None, o.db, [])
  {
    var o := AwardByKey(db, userId, key, d1, f);
    var a := LookupByKey(db.achievements, key).value.value;
    assert o.db.awards[|db.awards|] == o.inserted.value;
    assert Holds(o.db, userId.value, a.id);
  }

  /** Awarding keeps every (user, achievement) pair held at most once. */
  lemma AwardKeepsUnique(db: Db, userId: Option<string>, key: string, d: Details, f: Faults)
    requires UniqueAwards(db)
    ensures UniqueAwards(AwardByKey(db, userId, key, d, f).db)
  {
    var o := AwardByKey(db, userId, key, d, f);
    if o.inserted.Some? {
      forall i, j | 0 <= i < j < |o.db.awards|
        ensures o.db.awards[i].userId != o.db.awards[j].userId || o.db.awards[i].achievementId != o.db.awards[j].achievementId
      {
        if j == |db.awards| {
          assert o.db.awards[i] == db.awards[i];
        } else {
          assert o.db.awards[i] == db.awards[i] && o.db.awards[j] == db.awards[j];
        }
      }
    }
  }

  /** Award each key in turn, as the trigger loops do. */
  function AwardAll(db: Db, userId: Option<string>, keys: seq<string>, d: Details, f: Faults): (o: AwardOutcome)
    ensures |o.db.awards| - |db.awards| <= |keys|
    ensures o.db.achievements == db.achievements
    ensures |o.events| == |o.db.awards| - |db.awards|
    decreases |keys|
  {
    if |keys| == 0 then AwardOutcome(None, db, [])
    else
      var first := AwardByKey(db, userId, keys[0], d, f);
      var rest := AwardAll(first.db, userId, keys[1..], d, f);
      AwardOutcome(rest.inserted, rest.db, first.events + rest.events)
  }

  /** However often a key is listed, the awards stay unique. */
  lemma {:induction false} AwardAllKeepsUnique(db: Db, userId: Option<string>, keys: seq<string>, d: Details, f: Faults)
    requires UniqueAwards(db)
    ensures UniqueAwards(AwardAll(db, userId, keys, d, f).db)
    decreases |keys|
  {
    if |keys| > 0 {
      AwardKeepsUnique(db, userId, keys[0], d, f);
      AwardAllKeepsUnique(AwardByKey(db, userId, keys[0], d, f).db, userId, keys[1..], d, f);
    }
  }

  /** `a.metadata?.threshold`, absent or a number. */
  datatype Configured = Configured(key: string, threshold: Option<int>)

  /** `threshold || (threshold === 0 ? 0 : null)` is truthy exactly for a present non-zero number. */
  predicate ThresholdSet(c: Configured) {
    c.threshold.Some? && c.threshold.value != 0
  }

  /** The keys `onChallengeSubmitted` awards, in configuration order. */
  function SubmittedKeys(configured: seq<Configured>, submittedCount: nat): (keys: seq<string>)
    ensures |keys| <= |configured|
    ensures forall c :: c in configured && ThresholdSet(c) && submittedCount >= c.threshold.value ==> c.key in keys
    ensures forall k :: k in keys ==> exists c :: c in configured && c.key == k && ThresholdSet(c) && submittedCount >= c.threshold.value
  {
    if |configured| == 0 then []
    else
      var c := configured[0];
      (if ThresholdSet(c) && submittedCount >= c.threshold.value then [c.key] else [])
      + SubmittedKeys(configured[1..], submittedCount)
  }

  /** A threshold of zero never awards, however many challenges were submitted. */
  lemma ZeroThresholdNeverAwards(key: string, submittedCount: nat)
    ensures SubmittedKeys([Configured(key, Some(0))], submittedCount) == []
  {
  }

  /**
    The keys `checkAndAwardCountBased` awards: the configured key once its
    threshold is met, and the fallback key for each achievement without a
    threshold once anything was completed.
  */
  function CountBasedKeys(configured: seq<Configured>, completed: nat, fallbackKey: string): (keys: seq<string>)
    ensures |keys| <= |configured|
    ensures forall k :: k in keys ==>
      (exists c :: c in configured && c.key == k && ThresholdSet(c) && completed >= c.threshold.value)
      || (k == fallbackKey && fallbackKey != "" && completed >= 1 && exists c :: c in configured && !ThresholdSet(c))
    ensures fallbackKey != "" && completed >= 1 && (exists c :: c in configured && !ThresholdSet(c)) ==> fallbackKey in keys
    ensures forall c :: c in configured && ThresholdSet(c) && completed >= c.threshold.value ==> c.key in keys
  {
    if |configured| == 0 then []
    else
      var c := configured[0];
      (if ThresholdSet(c) && completed >= c.threshold.value then [c.key]
       else if !ThresholdSet(c) && fallbackKey != "" && completed >= 1 then [fallbackKey]
       else [])
      + CountBasedKeys(configured[1..], completed, fallbackKey)
  }

  /** When every configured threshold is set but not reached, nothing is awarded, not even the fallback. */
  lemma {:induction false} UnmetThresholdNoFallback(configured: seq<Configured>, completed: nat, fallbackKey: string)
    requires forall i :: 0 <= i < |configured| ==> ThresholdSet(configured[i]) && completed < configured[i].threshold.value
    ensures CountBasedKeys(configured, completed, fallbackKey) == []
    decreases |configured|
  {
    if |configured| > 0 {
      UnmetThresholdNoFallback(configured[1..], completed, fallbackKey);
    }
  }

  /** Even when several thresholdless achievements name the fallback, it is held once. */
  lemma FallbackAwardedOnce(db: Db, userId: Option<string>, configured: seq<Configured>, completed: nat, fallbackKey: string, f: Faults)
    requires UniqueAwards(db)
    ensures UniqueAwards(AwardAll(db, userId, CountBasedKeys(configured, completed, fallbackKey), CompletedCount(completed), f).db)
  {
    AwardAllKeepsUnique(db, userId, CountBasedKeys(configured, completed, fallbackKey), CompletedCount(completed), f);
  }

  /**
    The reply of `rpc_award_on_comment_threshold`: whether it awarded, its
    `comment_count`, and the achievement the follow-up lookup by
    `achievement_id` found (`None` for a lookup error or no row).
  */
  datatype ThresholdReply = ThresholdReply(awarded: bool, commentCount: Option<int>, achievement: Option<Achievement>)

  /**
    `onGuestbookSign`: the server-side threshold award is reported when it
    happened; otherwise, and when the call fails, `first_comment` is awarded
    on the client.
  */
  function GuestbookSign(db: Db, userId: Option<string>, commentId: Option<string>,
                         rpc: Result<ThresholdReply, string>, f: Faults): (o: AwardOutcome)
    ensures !SignedIn(userId) ==> o == AwardOutcome(None, db, [])
    ensures SignedIn(userId) && rpc.Ok? && rpc.value.awarded ==> o.db == db && o.inserted.None?
    ensures SignedIn(userId) && rpc.Ok? && rpc.value.awarded && rpc.value.achievement.Some? ==>
      var a := rpc.value.achievement.value;
      o.events == [Awarded(userId.value, a.key, a.name, a.points, CommentCount(rpc.value.commentCount))]
    ensures SignedIn(userId) && rpc.Ok? && rpc.value.awarded && rpc.value.achievement.None? ==> o.events == []
    ensures SignedIn(userId) && (rpc.Err? || !rpc.value.awarded) ==>
      o == AwardByKey(db, userId, "first_comment", CommentId(commentId), f)
  {
    if !SignedIn(userId) then AwardOutcome(None, db, [])
    else
      match rpc
      case Err(_) => AwardByKey(db, userId, "first_comment", CommentId(commentId), f)
      case Ok(reply) =>
        if reply.awarded then
          match reply.achievement
          case Some(a) => AwardOutcome(None, db, [Awarded(userId.value, a.key, a.name, a.points, CommentCount(reply.commentCount))])
          case None => AwardOutcome(None, db, [])
        else AwardByKey(db, userId, "first_comment", CommentId(commentId), f)
  }

  /**
    Whatever the server replies, signing keeps awards unique, the client
    inserts a row only when the server did not award, and the one event
    there can be is either the server's award with its comment count or
    `first_comment` with the comment id.
  */
  lemma GuestbookSignEvents(db: Db, userId: Option<string>, commentId: Option<string>,
                            rpc: Result<ThresholdReply, string>, f: Faults)
    requires UniqueAwards(db)
    ensures var o := GuestbookSign(db, userId, commentId, rpc, f);
      && UniqueAwards(o.db)
      && |o.events| <= 1
      && (o.inserted.Some? ==> rpc.Err? || !rpc.value.awarded)
      && forall e :: e in o.events ==>
           (e.achievementKey == "first_comment" && e.details == CommentId(commentId))
           || (rpc.Ok? && rpc.value.awarded && e.details == CommentCount(rpc.value.commentCount))
  {
    if SignedIn(userId) && (rpc.Err? || !rpc.value.awarded) {
      AwardKeepsUnique(db, userId, "first_comment", CommentId(commentId), f);
    }
  }

  /** `onGifCompleted`: a signed-in user earns `gif_master`. */
  function GifCompleted(db: Db, userId: Option<string>, src: Option<string>, f: Faults): (o: AwardOutcome)
    ensures o.inserted.Some? ==> o.inserted.value.details == GifSource(src)
    ensures o.inserted.Some? <==> Awardable(db, userId, "gif_master") && f == NoFaults
  {
    AwardByKey(db, userId, "gif_master", GifSource(src), f)
  }

  /** The service's registration state: whether `init` ran and how many listeners it added. */
  datatype Service = Service(initialized: bool, listeners: nat)

  /** Six bus listeners and two window listeners. */
  const InitListeners := 8

  /** `init`: the first call registers the listeners, every later call returns at once. */
  function Init(s: Service): (r: Service)
    ensures r.initialized
    ensures s.initialized ==> r == s
    ensures !s.initialized ==> r.listeners == s.listeners + InitListeners
  {
    if s.initialized then s else Service(true, s.listeners + InitListeners)
  }

  /** Calling `init` again registers nothing more. */
  lemma InitIdempotent(s: Service)
    ensures Init(Init(s)) == Init(s)
    ensures Init(Init(Service(false, 0))).listeners == InitListeners
  {
  }
}
