/**
  The dashboard's "your events" section: the user's going/interested RSVPs,
  sorted by event date, skipping RSVPs whose event is gone, each drawn as an
  event card with the event's RSVP tally.
*/
module UserEvents {
  import opened Wrappers
  import opened Strings
  import EventCard
  import Sorting

  /** An event as the join returns it; `date` is `"YYYY-MM-DD"` or absent. */
  datatype Event = Event(id: string, date: Option<string>)

  /** One of the user's RSVP rows with its joined event, which may be missing. */
  datatype Rsvp = Rsvp(eventId: string, userId: string, status: string, event: Option<Event>)

  /** `.eq("user_id", userId).in("status", ["going", "interested"])`. */
  function UserRsvps(rows: seq<Rsvp>, userId: string): (r: seq<Rsvp>)
    ensures |r| <= |rows|
    ensures forall x :: x in r <==> x in rows && x.userId == userId && x.status in ["going", "interested"]
  {
    if |rows| == 0 then []
    else
      var x := rows[0];
      (if x.userId == userId && x.status in ["going", "interested"] then [x] else []) + UserRsvps(rows[1..], userId)
  }

  /** `a.event?.date || ""`. */
  function DateKey(x: Rsvp): string {
    if x.event.Some? && x.event.value.date.Some? then x.event.value.date.value else ""
  }

  predicate SortedByDate(s: seq<Rsvp>) {
    Sorting.SortedBy(s, DateKey)
  }

  /** `rsvps.sort(...)` by date string: a stable sort in code-unit order. */
  function SortByDate(s: seq<Rsvp>): (r: seq<Rsvp>)
    ensures SortedByDate(r)
    ensures multiset(r) == multiset(s)
    ensures |r| == |s|
  {
    Sorting.SortBy(s, DateKey)
  }

  /** The four statuses `rsvpCounts` starts with. */
  const TalliedStatuses := ["going", "maybe", "interested", "not_going"]

  /** How many of the event's RSVP rows carry a status. */
  function StatusCount(statuses: seq<string>, status: string): (n: nat)
    ensures n <= |statuses|
  {
    if |statuses| == 0 then 0
    else (if statuses[0] == status then 1 else 0) + StatusCount(statuses[1..], status)
  }

  /** `rsvpCounts` after the `forEach`: only the four known statuses are counted. */
  function Tally(statuses: seq<string>): (counts: map<string, int>)
    ensures counts.Keys == set st | st in TalliedStatuses
    ensures forall st :: st in counts ==> counts[st] == StatusCount(statuses, st)
  {
    map st | st in TalliedStatuses :: StatusCount(statuses, st)
  }

  /** The tallied total. */
  function TallyTotal(statuses: seq<string>): nat {
    StatusCount(statuses, "going") + StatusCount(statuses, "maybe")
    + StatusCount(statuses, "interested") + StatusCount(statuses, "not_going")
  }

  /** The tally never exceeds the rows, and matches them exactly when every status is a known one. */
  lemma {:induction false} TallyBounded(statuses: seq<string>)
    ensures TallyTotal(statuses) <= |statuses|
    ensures TallyTotal(statuses) == |statuses| <==> forall i :: 0 <= i < |statuses| ==> statuses[i] in TalliedStatuses
  {
    if |statuses| > 0 {
      TallyBounded(statuses[1..]);
      if forall i :: 0 <= i < |statuses[1..]| ==> statuses[1..][i] in TalliedStatuses {
        forall i | 0 < i < |statuses| ensures statuses[i] in TalliedStatuses {
          assert statuses[i] == statuses[1..][i - 1];
        }
      } else {
        var i :| 0 <= i < |statuses[1..]| && statuses[1..][i] !in TalliedStatuses;
        assert statuses[i + 1] == statuses[1..][i];
      }
    }
  }

  /** The card's counts line shows the going and interested tallies only; "maybe" never appears. */
  lemma MaybeNotShown(statuses: seq<string>)
    ensures |EventCard.CountSpans(Tally(statuses))| ==
      (if StatusCount(statuses, "going") > 0 then 1 else 0) + (if StatusCount(statuses, "interested") > 0 then 1 else 0)
  {
  }

  /** One event card: the event, the user's status, the event's tally and every RSVP row of it. */
  datatype Card = Card(event: Event, status: string, counts: map<string, int>, users: seq<string>)

  /** The section's content. */
  datatype Section = Failed(message: string) | NoEvents | Cards(cards: seq<Card>)

  /** The cards for the sorted RSVPs, skipping those without an event. */
  function CardsFor(sorted: seq<Rsvp>, eventRows: map<string, seq<string>>): (cards: seq<Card>)
    ensures |cards| <= |sorted|
    ensures (forall i :: 0 <= i < |sorted| ==> sorted[i].event.Some?) ==> |cards| == |sorted|
    ensures forall c :: c in cards ==> exists x :: x in sorted && x.event == Some(c.event) && x.status == c.status
  {
    if |sorted| == 0 then []
    else
      var x := sorted[0];
      var rest := CardsFor(sorted[1..], eventRows);
      assert forall c :: c in rest ==> exists y :: y in sorted && y.event == Some(c.event) && y.status == c.status by {
        forall c | c in rest ensures exists y :: y in sorted && y.event == Some(c.event) && y.status == c.status {
          var y :| y in sorted[1..] && y.event == Some(c.event) && y.status == c.status;
          assert y in sorted;
        }
      }
      if x.event.None? then
        rest
      else
        var statuses := if x.event.value.id in eventRows then eventRows[x.event.value.id] else [];
        [Card(x.event.value, x.status, Tally(statuses), statuses)] + rest
  }

  /** `render`: a query error is shown as text, no RSVPs give the empty note, otherwise cards in date order. */
  function Render(userRsvps: Result<seq<Rsvp>, string>, eventRows: map<string, seq<string>>): (s: Section)
    ensures userRsvps.Err? <==> s.Failed?
    ensures s.Failed? ==> s.message == "Error loading your events: " + userRsvps.error
    ensures s.NoEvents? <==> userRsvps.Ok? && |userRsvps.value| == 0
    ensures s.Cards? ==> |s.cards| <= |userRsvps.value|
    ensures s.Cards? ==> Ascending(CardDates(s.cards))
  {
    match userRsvps
    case Err(e) => Failed("Error loading your events: " + e)
    case Ok(rows) =>
      if |rows| == 0 then NoEvents
      else
        CardsInDateOrder(SortByDate(rows), eventRows);
        Cards(CardsFor(SortByDate(rows), eventRows))
  }

  /** The date a card shows, or `""`. */
  function CardDate(c: Card): string {
    if c.event.date.Some? then c.event.date.value else ""
  }

  /** The dates of a run of cards. */
  function CardDates(cards: seq<Card>): (d: seq<string>)
    ensures |d| == |cards|
  {
    if |cards| == 0 then [] else [CardDate(cards[0])] + CardDates(cards[1..])
  }

  predicate Ascending(keys: seq<string>) {
    forall i, j :: 0 <= i < j < |keys| ==> LessEq(keys[i], keys[j])
  }

  lemma AscendingCons(k: string, keys: seq<string>)
    requires Ascending(keys)
    requires forall i :: 0 <= i < |keys| ==> LessEq(k, keys[i])
    ensures Ascending([k] + keys)
  {
    forall i, j | 0 <= i < j < |[k] + keys| ensures LessEq(([k] + keys)[i], ([k] + keys)[j]) {
      if i > 0 {
        assert ([k] + keys)[i] == keys[i - 1];
      }
    }
  }

  /** One step of `CardsFor`, seen through the card dates. */
  lemma CardDatesStep(sorted: seq<Rsvp>, eventRows: map<string, seq<string>>)
    requires |sorted| > 0
    ensures CardDates(CardsFor(sorted, eventRows))
         == (if sorted[0].event.Some? then [DateKey(sorted[0])] else []) + CardDates(CardsFor(sorted[1..], eventRows))
  {
    var cards := CardsFor(sorted, eventRows);
    if sorted[0].event.Some? {
      assert cards[1..] == CardsFor(sorted[1..], eventRows);
    }
  }

  lemma {:induction false} CardsAbove(sorted: seq<Rsvp>, eventRows: map<string, seq<string>>, low: string)
    requires forall i :: 0 <= i < |sorted| ==> LessEq(low, DateKey(sorted[i]))
    ensures forall i :: 0 <= i < |CardDates(CardsFor(sorted, eventRows))| ==>
      LessEq(low, CardDates(CardsFor(sorted, eventRows))[i])
  {
    if |sorted| > 0 {
      var tail := sorted[1..];
      assert forall i :: 0 <= i < |tail| ==> LessEq(low, DateKey(tail[i])) by {
        forall i | 0 <= i < |tail| ensures LessEq(low, DateKey(tail[i])) {
          assert tail[i] == sorted[i + 1];
        }
      }
      CardsAbove(tail, eventRows, low);
      assert LessEq(low, DateKey(sorted[0]));
      CardDatesStep(sorted, eventRows);
    }
  }

  lemma SortedTail(sorted: seq<Rsvp>)
    requires SortedByDate(sorted) && |sorted| > 0
    ensures SortedByDate(sorted[1..])
    ensures forall i :: 0 <= i < |sorted[1..]| ==> LessEq(DateKey(sorted[0]), DateKey(sorted[1..][i]))
  {
    var tail := sorted[1..];
    forall i, j | 0 <= i < j < |tail| ensures LessEq(DateKey(tail[i]), DateKey(tail[j])) {
      assert tail[i] == sorted[i + 1] && tail[j] == sorted[j + 1];
    }
    forall i | 0 <= i < |tail| ensures LessEq(DateKey(sorted[0]), DateKey(tail[i])) {
      assert tail[i] == sorted[i + 1];
    }
  }

  /** Cards come out in date order, since each is drawn from the sorted rows in turn. */
  lemma {:induction false} CardsInDateOrder(sorted: seq<Rsvp>, eventRows: map<string, seq<string>>)
    requires SortedByDate(sorted)
    ensures Ascending(CardDates(CardsFor(sorted, eventRows)))
  {
    if |sorted| > 0 {
      var tail := sorted[1..];
      SortedTail(sorted);
      CardsInDateOrder(tail, eventRows);
      var x := sorted[0];
      if x.event.Some? {
        CardsAbove(tail, eventRows, DateKey(x));
        AscendingCons(DateKey(x), CardDates(CardsFor(tail, eventRows)));
      }
      CardDatesStep(sorted, eventRows);
    }
  }
}
