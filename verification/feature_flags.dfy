/**
  App-wide feature flags: the `app_settings` table read into a key/value map
  and cached for one minute, with a forced refresh and an explicit
  invalidation. The clock is the `now` argument.
*/
module FeatureFlags {
  import opened Wrappers

  /** A JSON setting value. */
  datatype Json =
    | JNull
    | JBool(b: bool)
    | JNumber(n: int)
    | JString(s: string)
    | JObject(fields: map<string, Json>)

  datatype Row = Row(settingKey: string, settingValue: Json)

  /** The cache and its expiry time in milliseconds. */
  datatype Flags = Flags(cache: Option<map<string, Json>>, cacheExpiry: int)

  const CacheDuration := 60000

  /** A new instance: nothing cached. */
  const Initial := Flags(None, 0)

  /** The value of the last row carrying a key, as a left-to-right overwrite leaves it. */
  function LastValue(rows: seq<Row>, key: string): Option<Json> {
    if |rows| == 0 then None
    else if rows[|rows| - 1].settingKey == key then Some(rows[|rows| - 1].settingValue)
    else LastValue(rows[..|rows| - 1], key)
  }

  /** `data.reduce((acc, row) => { acc[row.setting_key] = row.setting_value; ... }, {})`. */
  function Collect(rows: seq<Row>): (m: map<string, Json>)
    ensures forall k :: k in m <==> exists i :: 0 <= i < |rows| && rows[i].settingKey == k
  {
    if |rows| == 0 then map[]
    else
      var m := Collect(rows[..|rows| - 1]);
      assert forall i :: 0 <= i < |rows| - 1 ==> rows[..|rows| - 1][i] == rows[i];
      m[rows[|rows| - 1].settingKey := rows[|rows| - 1].settingValue]
  }

  /** Each key maps to the value of its last row: later rows overwrite earlier ones. */
  lemma {:induction false} CollectKeepsLast(rows: seq<Row>, key: string)
    ensures key in Collect(rows) <==> LastValue(rows, key).Some?
    ensures key in Collect(rows) ==> Collect(rows)[key] == LastValue(rows, key).value
  {
    if |rows| > 0 {
      CollectKeepsLast(rows[..|rows| - 1], key);
    }
  }

  /** What `getSettings` returns and whether it queried the table. */
  datatype Answer = Answer(flags: Flags, settings: map<string, Json>, queried: bool)

  /** The cache is served without a query. */
  predicate Fresh(f: Flags, now: int, forceRefresh: bool) {
    !forceRefresh && f.cache.Some? && now < f.cacheExpiry
  }

  /**
    `getSettings`: a fresh cache is returned as is; otherwise the table is
    read, cached for `CacheDuration` from `now` and returned. A failed read
    (an error, or no data) gives `{}` and leaves the cache alone.
  */
  function GetSettings(f: Flags, now: int, forceRefresh: bool, reply: Result<Option<seq<Row>>, string>): (a: Answer)
    ensures a.queried <==> !Fresh(f, now, forceRefresh)
    ensures !a.queried ==> a.flags == f && a.settings == f.cache.value
    ensures a.queried && reply.Ok? && reply.value.Some? ==>
      a.flags == Flags(Some(Collect(reply.value.value)), now + CacheDuration) && a.settings == Collect(reply.value.value)
    ensures a.queried && (reply.Err? || reply.value.None?) ==> a.flags == f && a.settings == map[]
  {
    if Fresh(f, now, forceRefresh) then Answer(f, f.cache.value, false)
    else
      match reply
      case Ok(Some(rows)) =>
        var m := Collect(rows);
        Answer(Flags(Some(m), now + CacheDuration), m, true)
      case _ => Answer(f, map[], true)
  }

  /** `isEventStarted`: `event_started.enabled` must be exactly `true`. */
  predicate EventStarted(settings: map<string, Json>) {
    "event_started" in settings && settings["event_started"].JObject?
    && "enabled" in settings["event_started"].fields
    && settings["event_started"].fields["enabled"] == JBool(true)
  }

  function IsEventStarted(f: Flags, now: int, reply: Result<Option<seq<Row>>, string>): (r: (Flags, bool))
    ensures r.0 == GetSettings(f, now, false, reply).flags
    ensures r.1 <==> EventStarted(GetSettings(f, now, false, reply).settings)
  {
    var a := GetSettings(f, now, false, reply);
    (a.flags, EventStarted(a.settings))
  }

  /** A truthy value other than `true`, such as the string "true", does not start the event. */
  lemma TruthyIsNotTrue()
    ensures !EventStarted(map["event_started" := JObject(map["enabled" := JString("true")])])
    ensures !EventStarted(map["event_started" := JBool(true)])
  {
  }

  /** A failed read reports the event as not started. */
  lemma FailedReadNotStarted(f: Flags, now: int, e: string)
    requires !Fresh(f, now, false)
    ensures !IsEventStarted(f, now, Err(e)).1
  {
  }

  /** `invalidateCache`. */
  function InvalidateCache(f: Flags): (r: Flags)
    ensures r.cache.None? && r.cacheExpiry == 0
  {
    Flags(None, 0)
  }

  /** After invalidation the next call queries, whatever the time. */
  lemma InvalidateForcesQuery(f: Flags, now: int, forceRefresh: bool, reply: Result<Option<seq<Row>>, string>)
    ensures GetSettings(InvalidateCache(f), now, forceRefresh, reply).queried
  {
  }

  /** A forced refresh always queries. */
  lemma ForceAlwaysQueries(f: Flags, now: int, reply: Result<Option<seq<Row>>, string>)
    ensures GetSettings(f, now, true, reply).queried
  {
  }

  /** A successful read is served from the cache for the next minute and re-read after it. */
  lemma CachedForOneMinute(f: Flags, now: int, later: int, rows: seq<Row>, reply: Result<Option<seq<Row>>, string>)
    requires GetSettings(f, now, false, Ok(Some(rows))).queried
    ensures var g := GetSettings(f, now, false, Ok(Some(rows))).flags;
      (later < now + CacheDuration ==> GetSettings(g, later, false, reply) == Answer(g, Collect(rows), false))
      && (later >= now + CacheDuration ==> GetSettings(g, later, false, reply).queried)
  {
  }
}
