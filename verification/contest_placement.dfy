/** The contest placement form: default points by place, and the points override. */
module ContestPlacement {
  import opened Wrappers

  /** `defaultPoints`: the points a place earns when no override is entered. */
  function DefaultPoints(place: int): (p: int)
    ensures 1 <= p <= 10
    ensures place == 1 ==> p == 10
    ensures 2 <= place <= 8 ==> p == 10 - place
    ensures place < 1 || place > 8 ==> p == 1
  {
    if place == 1 then 10
    else if place == 2 then 8
    else if place == 3 then 7
    else if place == 4 then 6
    else if place == 5 then 5
    else if place == 6 then 4
    else if place == 7 then 3
    else if place == 8 then 2
    else 1
  }

  /** A better (smaller) place never earns fewer default points. */
  lemma DefaultPointsNonIncreasing(a: int, b: int)
    requires 1 <= a <= b
    ensures DefaultPoints(b) <= DefaultPoints(a)
  {
  }

  /** The record handed to the `onSubmit` callback. */
  datatype Placement = Placement(eventId: Option<string>, userId: Option<string>, place: int, points: int)

  /**
    The submit handler. `pointsField` is `FormData.get("points")` (absent is
    `None`) and `number` is JavaScript's `Number` on the entered text.
  */
  function SubmitPlacement(eventId: Option<string>, userId: Option<string>, place: int,
                           pointsField: Option<string>, number: string -> int): (r: Placement)
    ensures r.eventId == eventId && r.userId == userId && r.place == place
    ensures pointsField == None || pointsField == Some("") ==> r.points == DefaultPoints(place)
    ensures pointsField.Some? && pointsField.value != "" ==> r.points == number(pointsField.value)
  {
    var points := if pointsField.Some? && pointsField.value != "" then number(pointsField.value) else DefaultPoints(place);
    Placement(eventId, userId, place, points)
  }

  /** With the field left empty the default for the place is used, so it is always in 1..10. */
  lemma EmptyOverrideInRange(eventId: Option<string>, userId: Option<string>, place: int, number: string -> int)
    ensures 1 <= SubmitPlacement(eventId, userId, place, Some(""), number).points <= 10
  {
  }
}
