/**
  The dashboard's challenge list: which card is revealable or locked, the
  reconciliation of existing cards with fresh data, the optimistic stats
  update and the unlock of the next card after a success.

  Cards are modelled by the two things reconciliation reads: the
  `data-assignment-id` attribute and the class list.
*/
module Dashboard {
  import opened Wrappers
  import opened ChallengeCard
  import opened Strings
  import JsMath

  /** An assignment row, with its challenge's Brian mode. */
  datatype Assignment = Assignment(id: string, completed: bool, outcome: Option<Outcome>, brianMode: Option<string>)

  /** `data.findIndex((a) => !a.completed_at)`. */
  function FirstIncomplete(data: seq<Assignment>): (k: int)
    ensures -1 <= k < |data|
    ensures k == -1 ==> forall i :: 0 <= i < |data| ==> data[i].completed
    ensures k >= 0 ==> !data[k].completed && forall i :: 0 <= i < k ==> data[i].completed
  {
    if |data| == 0 then -1
    else if !data[0].completed then 0
    else
      var k := FirstIncomplete(data[1..]);
      if k == -1 then -1 else k + 1
  }

  /** The state of the card at `index`, given the currently revealed assignment id. */
  function StateAt(data: seq<Assignment>, revealed: Option<string>, index: nat): (st: CardState)
    requires index < |data|
    ensures st.isCompleted == data[index].completed
    ensures st.isRevealed <==> revealed == Some(data[index].id)
    ensures !(st.canReveal && st.isLocked)
    ensures st.isCompleted ==> !st.canReveal && !st.isLocked
    ensures st.canReveal && !st.isRevealed ==> index == FirstIncomplete(data)
    ensures st.isLocked ==> 0 <= FirstIncomplete(data) < index
    ensures !st.isCompleted && !st.isRevealed && index != FirstIncomplete(data) ==> st.isLocked
  {
    var fi := FirstIncomplete(data);
    var a := data[index];
    var isRevealed := revealed == Some(a.id);
    var canReveal := !a.completed && (fi == index || isRevealed);
    var isLocked := !a.completed && fi < index && !isRevealed;
    CardState(a.completed, a.outcome, a.brianMode, isRevealed, canReveal, isLocked)
  }

  /** A card in the list: its `data-assignment-id`, if any, and its classes. */
  datatype Card = Card(assignmentId: Option<string>, classes: set<string>)

  /**
    A card built for an assignment. `tagIds` says whether the id attribute is
    set on it; `ChallengeCard.create` never sets it.
  */
  function NewCard(a: Assignment, st: CardState, tagIds: bool): (c: Card)
    ensures c.classes == CardClasses(st)
    ensures c.assignmentId.Some? <==> tagIds
    ensures tagIds ==> c.assignmentId == Some(a.id)
  {
    Card(if tagIds then Some(a.id) else None, CardClasses(st))
  }

  /** `existingCardMap`: each id to the position of the last card carrying it. */
  function IndexById(cards: seq<Card>): (m: map<string, nat>)
    ensures forall x :: x in m ==> m[x] < |cards| && cards[m[x]].assignmentId == Some(x)
    ensures forall x :: x in m ==> forall j :: m[x] < j < |cards| ==> cards[j].assignmentId != Some(x)
    ensures forall j :: 0 <= j < |cards| && cards[j].assignmentId.Some? ==> cards[j].assignmentId.value in m
  {
    if |cards| == 0 then map[]
    else
      var m := IndexById(cards[..|cards| - 1]);
      var last := cards[|cards| - 1];
      if last.assignmentId.Some? then m[last.assignmentId.value := |cards| - 1] else m
  }

  predicate PendingValid(cards: seq<Card>, pending: map<string, nat>) {
    forall x :: x in pending ==> pending[x] < |cards|
  }

  /**
    One iteration of the `data.forEach` loop: keep a matching card whose
    classes already agree, replace a matching card in place otherwise, and
    append a new card when no card matches. A matched id leaves the map.
  */
  function Step(cards: seq<Card>, pending: map<string, nat>, a: Assignment, st: CardState, tagIds: bool)
    : (r: (seq<Card>, map<string, nat>))
    requires PendingValid(cards, pending)
    ensures PendingValid(r.0, r.1)
    ensures r.1 == pending - {a.id}
    ensures a.id in pending ==> |r.0| == |cards|
    ensures a.id in pending && IsSameCardState(cards[pending[a.id]].classes, st) ==> r.0 == cards
    ensures a.id in pending && !IsSameCardState(cards[pending[a.id]].classes, st) ==>
      r.0 == cards[pending[a.id] := NewCard(a, st, tagIds)]
    ensures a.id !in pending ==> r.0 == cards + [NewCard(a, st, tagIds)]
  {
    if a.id in pending then
      var p := pending[a.id];
      if IsSameCardState(cards[p].classes, st) then (cards, pending - {a.id})
      else (cards[p := NewCard(a, st, tagIds)], pending - {a.id})
    else (cards + [NewCard(a, st, tagIds)], pending)
  }

  /** The ids of a list of assignments. */
  function Ids(data: seq<Assignment>): (s: set<string>)
    ensures forall i :: 0 <= i < |data| ==> data[i].id in s
  {
    if |data| == 0 then {} else {data[0].id} + Ids(data[1..])
  }

  /** The `data.forEach` loop from position `i` on. */
  function Walk(data: seq<Assignment>, revealed: Option<string>, tagIds: bool, i: nat,
                cards: seq<Card>, pending: map<string, nat>): (r: (seq<Card>, map<string, nat>))
    requires i <= |data|
    requires PendingValid(cards, pending)
    ensures PendingValid(r.0, r.1)
    ensures |r.0| >= |cards|
    ensures forall x :: x in r.1 <==> x in pending && x !in Ids(data[i..])
    ensures forall x :: x in r.1 ==> r.1[x] == pending[x]
    decreases |data| - i
  {
    if i == |data| then (cards, pending)
    else
      var s := Step(cards, pending, data[i], StateAt(data, revealed, i), tagIds);
      assert data[i..] == [data[i]] + data[i + 1..];
      Walk(data, revealed, tagIds, i + 1, s.0, s.1)
  }

  /** The cards left after removing the given positions, in order. */
  function KeepPositions(cards: seq<Card>, drop: set<nat>): (r: seq<Card>)
    ensures |r| <= |cards|
    ensures (forall j :: 0 <= j < |cards| ==> j !in drop) ==> r == cards
    ensures forall c :: c in r ==> c in cards
  {
    if |cards| == 0 then []
    else
      var rest := KeepPositions(cards[..|cards| - 1], drop);
      if |cards| - 1 in drop then rest else rest + [cards[|cards| - 1]]
  }

  /** Positions of cards still in the map whose id is not in the data: the ones `card.remove()` drops. */
  function Removed(pending: map<string, nat>, data: seq<Assignment>): set<nat> {
    set x | x in pending && x !in Ids(data) :: pending[x]
  }

  /** `renderChallenges`: reconcile the cards in the container with the new data. */
  function Render(container: seq<Card>, data: seq<Assignment>, revealed: Option<string>, tagIds: bool): (r: seq<Card>)
  {
    var w := Walk(data, revealed, tagIds, 0, container, IndexById(container));
    KeepPositions(w.0, Removed(w.1, data))
  }

  /**
    After the loop the map holds exactly the cards whose id is absent from the
    data, at their original positions, so a mapped card is removed exactly
    when its id is not in the new data.
  */
  lemma SurvivesIffInData(container: seq<Card>, data: seq<Assignment>, revealed: Option<string>, tagIds: bool, x: string)
    requires x in IndexById(container)
    ensures var w := Walk(data, revealed, tagIds, 0, container, IndexById(container));
      IndexById(container)[x] in Removed(w.1, data) <==> x !in Ids(data)
  {
    var m := IndexById(container);
    var w := Walk(data, revealed, tagIds, 0, container, m);
    assert data[0..] == data;
    if x !in Ids(data) {
      assert x in w.1 && w.1[x] == m[x];
    }
  }

  /** The cards a render from an empty list produces. */
  function Fresh(data: seq<Assignment>, revealed: Option<string>, tagIds: bool): (r: seq<Card>)
    ensures |r| == |data|
    ensures forall i :: 0 <= i < |data| ==> r[i] == NewCard(data[i], StateAt(data, revealed, i), tagIds)
  {
    seq(|data|, i requires 0 <= i < |data| => NewCard(data[i], StateAt(data, revealed, i), tagIds))
  }

  /** With nothing pending, every remaining assignment appends its fresh card. */
  lemma {:induction false} WalkAppends(data: seq<Assignment>, revealed: Option<string>, tagIds: bool, i: nat, cards: seq<Card>)
    requires i <= |data|
    ensures Walk(data, revealed, tagIds, i, cards, map[]).0 == cards + Fresh(data, revealed, tagIds)[i..]
    ensures Walk(data, revealed, tagIds, i, cards, map[]).1 == map[]
    decreases |data| - i
  {
    var f := Fresh(data, revealed, tagIds);
    if i == |data| {
      assert f[i..] == [];
      assert cards + f[i..] == cards;
    } else {
      var c := NewCard(data[i], StateAt(data, revealed, i), tagIds);
      var none: map<string, nat> := map[];
      assert none - {data[i].id} == none;
      assert Step(cards, none, data[i], StateAt(data, revealed, i), tagIds) == (cards + [c], none);
      assert Walk(data, revealed, tagIds, i, cards, none) == Walk(data, revealed, tagIds, i + 1, cards + [c], none);
      WalkAppends(data, revealed, tagIds, i + 1, cards + [c]);
      AppendShift(cards, f, i);
    }
  }

  lemma AppendShift(cards: seq<Card>, f: seq<Card>, i: nat)
    requires i < |f|
    ensures cards + [f[i]] + f[i + 1..] == cards + f[i..]
  {
    assert f[i..] == [f[i]] + f[i + 1..];
  }

  /** A render into an empty list shows one card per assignment, each with its state's classes. */
  lemma RenderFromEmpty(data: seq<Assignment>, revealed: Option<string>, tagIds: bool)
    ensures Render([], data, revealed, tagIds) == Fresh(data, revealed, tagIds)
  {
    WalkAppends(data, revealed, tagIds, 0, []);
    assert Fresh(data, revealed, tagIds)[0..] == Fresh(data, revealed, tagIds);
    assert Removed(map[], data) == {};
  }

  /** Untagged cards are invisible to the id map. */
  lemma {:induction false} UntaggedNotIndexed(cards: seq<Card>)
    requires forall j :: 0 <= j < |cards| ==> cards[j].assignmentId.None?
    ensures IndexById(cards) == map[]
  {
    if |cards| > 0 {
      UntaggedNotIndexed(cards[..|cards| - 1]);
    }
  }

  /**
    `renderChallenges` given a list of its own untagged cards, with the
    listener call fixed: created cards carry no `data-assignment-id`, so a
    second render with the same data matches nothing and appends a second
    copy of every card. `loadChallenges` never passes such a list, since it
    empties the container before every render (`LoadChallenges`).
  */
  lemma UntaggedRenderDuplicates(data: seq<Assignment>, revealed: Option<string>)
    ensures var once := Render([], data, revealed, false);
      Render(once, data, revealed, false) == once + once
  {
    var once := Render([], data, revealed, false);
    RenderFromEmpty(data, revealed, false);
    UntaggedNotIndexed(once);
    WalkAppends(data, revealed, false, 0, once);
    assert Fresh(data, revealed, false)[0..] == once;
    assert Removed(map[], data) == {};
  }

  /** An example of the same statement about `renderChallenges` on a list `loadChallenges` never passes: one assignment rendered twice gives two cards. */
  lemma UntaggedSecondRenderHasTwoCards(a: Assignment, revealed: Option<string>)
    ensures |Render(Render([], [a], revealed, false), [a], revealed, false)| == 2
  {
    UntaggedRenderDuplicates([a], revealed);
    RenderFromEmpty([a], revealed, false);
  }

  predicate DistinctIds(data: seq<Assignment>) {
    forall i, j :: 0 <= i < j < |data| ==> data[i].id != data[j].id
  }

  /** Extending a list by one card extends its id map by that card's id, if it has one. */
  lemma IndexByIdSnoc(cards: seq<Card>, k: nat)
    requires 0 < k <= |cards|
    ensures IndexById(cards[..k]) ==
      if cards[k - 1].assignmentId.Some? then IndexById(cards[..k - 1])[cards[k - 1].assignmentId.value := k - 1]
      else IndexById(cards[..k - 1])
  {
    assert cards[..k][..k - 1] == cards[..k - 1];
  }

  /** The ids mapped in a tagged fresh list are exactly the ids of the data. */
  lemma {:induction false} TaggedIndexKeys(data: seq<Assignment>, revealed: Option<string>, k: nat)
    requires k <= |data|
    ensures forall x :: x in IndexById(Fresh(data, revealed, true)[..k]) <==> x in Ids(data[..k])
  {
    var f := Fresh(data, revealed, true);
    if k > 0 {
      TaggedIndexKeys(data, revealed, k - 1);
      IndexByIdSnoc(f, k);
      SliceSnoc(data, k);
      IdsAppend(data[..k - 1], data[k - 1]);
    } else {
      assert data[..0] == [];
    }
  }

  /** In a list whose cards carry pairwise distinct ids, each id maps to its own position. */
  lemma {:induction false} DistinctIndexValues(cards: seq<Card>, k: nat)
    requires k <= |cards|
    requires forall j :: 0 <= j < |cards| ==> cards[j].assignmentId.Some?
    requires forall i, j :: 0 <= i < j < |cards| ==> cards[i].assignmentId != cards[j].assignmentId
    ensures var m := IndexById(cards[..k]);
      forall j :: 0 <= j < k ==> cards[j].assignmentId.value in m && m[cards[j].assignmentId.value] == j
  {
    if k > 0 {
      DistinctIndexValues(cards, k - 1);
      IndexByIdSnoc(cards, k);
    }
  }

  /** In a tagged fresh list with distinct ids, each id maps to its own position. */
  lemma TaggedIndexValues(data: seq<Assignment>, revealed: Option<string>)
    requires DistinctIds(data)
    ensures var m := IndexById(Fresh(data, revealed, true));
      forall j :: 0 <= j < |data| ==> data[j].id in m && m[data[j].id] == j
  {
    var f := Fresh(data, revealed, true);
    DistinctIndexValues(f, |f|);
    assert f[..|f|] == f;
  }

  lemma SliceSnoc<T>(s: seq<T>, k: nat)
    requires 0 < k <= |s|
    ensures s[..k] == s[..k - 1] + [s[k - 1]]
  {
  }

  lemma {:induction false} IdsAppend(s: seq<Assignment>, a: Assignment)
    ensures Ids(s + [a]) == Ids(s) + {a.id}
  {
    if |s| == 0 {
      assert s + [a] == [a];
    } else {
      assert (s + [a])[1..] == s[1..] + [a];
      IdsAppend(s[1..], a);
    }
  }

  /** Membership in `Ids` means some element carries that id. */
  lemma {:induction false} IdsMember(data: seq<Assignment>, x: string)
    requires x in Ids(data)
    ensures exists j :: 0 <= j < |data| && data[j].id == x
  {
    if data[0].id != x {
      IdsMember(data[1..], x);
      var j :| 0 <= j < |data[1..]| && data[1..][j].id == x;
      assert data[j + 1].id == x;
    }
  }

  /**
    The loop over a tagged, up-to-date list from position `i`: every card is
    found at its own position and either kept or replaced by an equal card.
  */
  lemma {:induction false} WalkTaggedStable(data: seq<Assignment>, revealed: Option<string>, i: nat, pending: map<string, nat>)
    requires DistinctIds(data) && i <= |data|
    requires PendingValid(Fresh(data, revealed, true), pending)
    requires forall x :: x in pending ==> x in Ids(data[i..])
    requires forall j :: i <= j < |data| ==> data[j].id in pending && pending[data[j].id] == j
    ensures Walk(data, revealed, true, i, Fresh(data, revealed, true), pending) == (Fresh(data, revealed, true), map[])
    decreases |data| - i
  {
    var f := Fresh(data, revealed, true);
    if i == |data| {
      assert data[i..] == [];
      assert pending == map[];
    } else {
      var a := data[i];
      var st := StateAt(data, revealed, i);
      assert pending[a.id] == i;
      assert f[i := NewCard(a, st, true)] == f;
      var rest := pending - {a.id};
      forall x | x in rest
        ensures x in Ids(data[i + 1..])
      {
        assert x in Ids(data[i..]) && x != a.id;
        assert data[i..] == [a] + data[i + 1..];
      }
      forall j | i + 1 <= j < |data|
        ensures data[j].id in rest && rest[data[j].id] == j
      {
        assert data[j].id != a.id;
      }
      WalkTaggedStable(data, revealed, i + 1, rest);
    }
  }

  /**
    With ids tagged on the cards and distinct assignment ids, re-rendering the
    same data leaves the list exactly as it is.
  */
  lemma TaggedRenderStable(data: seq<Assignment>, revealed: Option<string>)
    requires DistinctIds(data)
    ensures var once := Render([], data, revealed, true);
      Render(once, data, revealed, true) == once
  {
    var f := Fresh(data, revealed, true);
    RenderFromEmpty(data, revealed, true);
    TaggedIndexKeys(data, revealed, |data|);
    TaggedIndexValues(data, revealed);
    assert f[..|data|] == f;
    assert data[..|data|] == data && data[0..] == data;
    var m := IndexById(f);
    forall x | x in m
      ensures m[x] < |f|
    {
    }
    WalkTaggedStable(data, revealed, 0, m);
    assert Removed(map[], data) == {};
  }

  /**
    As written: `challengeCard.addEventListener` is called before a new or
    replacement card is built, and a `ChallengeCard` has no such method, so
    the first assignment whose card is not kept unchanged throws and the
    render is abandoned.
  */
  function WalkAsWritten(data: seq<Assignment>, revealed: Option<string>, i: nat,
                         cards: seq<Card>, pending: map<string, nat>): (r: Result<(seq<Card>, map<string, nat>), string>)
    requires i <= |data|
    requires PendingValid(cards, pending)
    ensures r.Ok? ==> r.value.0 == cards
    ensures i < |data| && data[i].id !in pending ==> r.Err?
    decreases |data| - i
  {
    if i == |data| then Ok((cards, pending))
    else
      var a := data[i];
      if a.id in pending && IsSameCardState(cards[pending[a.id]].classes, StateAt(data, revealed, i)) then
        WalkAsWritten(data, revealed, i + 1, cards, pending - {a.id})
      else Err("challengeCard.addEventListener is not a function")
  }

  function RenderAsWritten(container: seq<Card>, data: seq<Assignment>, revealed: Option<string>): (r: Result<seq<Card>, string>)
    ensures r.Ok? ==> |r.value| <= |container|
  {
    match WalkAsWritten(data, revealed, 0, container, IndexById(container))
    case Err(e) => Err(e)
    case Ok(w) => Ok(KeepPositions(w.0, Removed(w.1, data)))
  }

  /** The list a page starts with holds no tagged card, so any non-empty data makes the render throw. */
  lemma ListenerCallAborts(container: seq<Card>, data: seq<Assignment>, revealed: Option<string>)
    requires forall j :: 0 <= j < |container| ==> container[j].assignmentId.None?
    requires |data| > 0
    ensures RenderAsWritten(container, data, revealed).Err?
  {
    UntaggedNotIndexed(container);
  }

  /**
    `loadChallenges`: `setLoadingState(..., false)` empties the container just
    before the only call of `renderChallenges`, so every render starts from
    an empty list and shows one card per assignment in order.
  */
  function LoadChallenges(data: seq<Assignment>, revealed: Option<string>, tagIds: bool): (r: seq<Card>)
    ensures |r| == |data|
    ensures forall i :: 0 <= i < |data| ==> r[i].classes == CardClasses(StateAt(data, revealed, i))
    ensures forall i :: 0 <= i < |data| ==> (r[i].assignmentId.Some? <==> tagIds)
  {
    RenderFromEmpty(data, revealed, tagIds);
    Render([], data, revealed, tagIds)
  }

  /** `loadChallenges` as written: its render throws exactly when there is an assignment to show. */
  function LoadChallengesAsWritten(data: seq<Assignment>, revealed: Option<string>): (r: Result<seq<Card>, string>)
    ensures r.Err? <==> |data| > 0
    ensures r.Ok? ==> r.value == []
  {
    if |data| > 0 then
      ListenerCallAborts([], data, revealed);
      RenderAsWritten([], data, revealed)
    else
      RenderAsWritten([], data, revealed)
  }

  /**
    The one-shot listener `unlockNextChallenge` adds to the unlocked card:
    it emits a reveal for `dataset.assignmentId` when that is truthy.
  */
  function UnlockRevealClick(card: Card): (e: Option<string>)
    ensures e.Some? <==> card.assignmentId.Some? && card.assignmentId.value != ""
    ensures e.Some? ==> e.value == card.assignmentId.value
  {
    if card.assignmentId.Some? && card.assignmentId.value != "" then card.assignmentId else None
  }

  /**
    As written, `create` never sets `data-assignment-id`, so after any
    unlock of a loaded list no card's reveal click emits anything.
  */
  lemma UnlockedRevealSilent(data: seq<Assignment>, revealed: Option<string>, k: nat)
    requires k < |data|
    ensures var cards := UnlockNext(LoadChallenges(data, revealed, false), k);
      forall j :: 0 <= j < |cards| ==> UnlockRevealClick(cards[j]).None?
  {
  }

  /** With the id set on each card, the unlocked card's reveal click emits its own assignment. */
  lemma UnlockedRevealEmits(data: seq<Assignment>, revealed: Option<string>, k: nat)
    requires k + 1 < |data| && data[k + 1].id != ""
    ensures UnlockRevealClick(UnlockNext(LoadChallenges(data, revealed, true), k)[k + 1]) == Some(data[k + 1].id)
  {
    RenderFromEmpty(data, revealed, true);
  }

  /** `parseInt(el.textContent) || 0`: the number the counter's text starts with, 0 when there is none. */
  function Counter(text: string): (v: int)
    ensures JsMath.ParseInt(Some(text)).None? ==> v == 0
    ensures JsMath.ParseInt(Some(text)).Some? ==> v == JsMath.ParseInt(Some(text)).value
  {
    JsMath.ParseInt(Some(text)).GetOr(0)
  }

  /** The counter values written back; `None` where nothing is written. */
  datatype StatsUpdate = StatsUpdate(completed: Option<int>, points: Option<int>)

  /** `updateStatsOptimistically`, without the rounded success rate. */
  function UpdateStatsOptimistically(completedText: Option<string>, pointsText: Option<string>,
                                     outcome: Outcome): (u: StatsUpdate)
    ensures u.completed.Some? <==> completedText.Some?
    ensures u.completed.Some? ==> u.completed.value == Counter(completedText.value) + 1
    ensures u.points.Some? <==> pointsText.Some? && outcome == Success
    ensures u.points.Some? ==> u.points.value == Counter(pointsText.value) + 1
  {
    StatsUpdate(
      if completedText.Some? then Some(Counter(completedText.value) + 1) else None,
      if pointsText.Some? && outcome == Success then Some(Counter(pointsText.value) + 1) else None)
  }

  /** A counter showing a number reads back that number. */
  lemma CounterReadsBack(n: nat)
    ensures Counter(NatToString(n)) == n
  {
    JsMath.ParseIntOfNat(n);
  }

  /**
    Counters that show a number count up by one: the completed counter always,
    the points counter exactly on success.
  */
  lemma StatsCountUp(completed: nat, points: nat, outcome: Outcome)
    ensures var u := UpdateStatsOptimistically(Some(NatToString(completed)), Some(NatToString(points)), outcome);
      && u.completed == Some(completed + 1)
      && (outcome == Success ==> u.points == Some(points + 1))
      && (outcome != Success ==> u.points.None?)
  {
    CompletedCountsUp(completed, Some(NatToString(points)), outcome);
    PointsCountUp(Some(NatToString(completed)), points, outcome);
  }

  lemma CompletedCountsUp(completed: nat, pointsText: Option<string>, outcome: Outcome)
    ensures UpdateStatsOptimistically(Some(NatToString(completed)), pointsText, outcome).completed == Some(completed + 1)
  {
    CounterReadsBack(completed);
  }

  lemma PointsCountUp(completedText: Option<string>, points: nat, outcome: Outcome)
    ensures outcome == Success ==>
      UpdateStatsOptimistically(completedText, Some(NatToString(points)), outcome).points == Some(points + 1)
  {
    CounterReadsBack(points);
  }

  /** `unlockNextChallenge`: only the next card, and only a locked challenge card, goes from locked to unrevealed. */
  function UnlockNext(cards: seq<Card>, k: nat): (r: seq<Card>)
    requires k < |cards|
    ensures |r| == |cards|
    ensures forall j :: 0 <= j < |cards| && j != k + 1 ==> r[j] == cards[j]
    ensures k + 1 < |cards| ==> r[k + 1].assignmentId == cards[k + 1].assignmentId
    ensures k + 1 < |cards| && "challenge-card" in cards[k + 1].classes && "locked" in cards[k + 1].classes ==>
      r[k + 1].classes == cards[k + 1].classes - {"locked"} + {"unrevealed"}
    ensures !(k + 1 < |cards| && "challenge-card" in cards[k + 1].classes && "locked" in cards[k + 1].classes) ==> r == cards
  {
    if k + 1 < |cards| && "challenge-card" in cards[k + 1].classes && "locked" in cards[k + 1].classes then
      cards[k + 1 := cards[k + 1].(classes := cards[k + 1].classes - {"locked"} + {"unrevealed"})]
    else cards
  }

  /**
    The optimistic unlock agrees with a re-render: when the first incomplete
    card succeeds, the next card's recomputed state is revealable and unlocked,
    and its classes are exactly the unlocked ones.
  */
  lemma UnlockAgreesWithRerender(data: seq<Assignment>, revealed: Option<string>, k: nat, outcome: Outcome)
    requires k + 1 < |data| && FirstIncomplete(data) == k
    requires !data[k + 1].completed && revealed != Some(data[k + 1].id)
    ensures var after := data[k := data[k].(completed := true, outcome := Some(outcome))];
      var before := StateAt(data, revealed, k + 1);
      var now := StateAt(after, revealed, k + 1);
      before.isLocked && !now.isLocked && now.canReveal
      && CardClasses(now) == CardClasses(before) - {"locked"} + {"unrevealed"}
  {
    var after := data[k := data[k].(completed := true, outcome := Some(outcome))];
    assert FirstIncomplete(after) == k + 1 by {
      FirstIncompleteAt(after, k + 1);
    }
    var before := StateAt(data, revealed, k + 1);
    var now := StateAt(after, revealed, k + 1);
    assert after[k + 1] == data[k + 1];
    assert before.isLocked && !before.isCompleted;
    assert now.canReveal && !now.isLocked && !now.isRevealed && !now.isCompleted;
    LockedToUnrevealed(before, now);
  }

  /** The classes of a locked card and of an unrevealed one differ by exactly those two tokens. */
  lemma LockedToUnrevealed(before: CardState, now: CardState)
    requires !before.isCompleted && before.isLocked
    requires !now.isCompleted && !now.isLocked && !now.isRevealed && now.canReveal
    ensures CardClasses(now) == CardClasses(before) - {"locked"} + {"unrevealed"}
  {
    assert "locked"[0] == 'l' && "challenge-card"[0] == 'c' && "unrevealed"[0] == 'u';
  }

  lemma {:induction false} FirstIncompleteAt(data: seq<Assignment>, k: nat)
    requires k < |data| && !data[k].completed
    requires forall i :: 0 <= i < k ==> data[i].completed
    ensures FirstIncomplete(data) == k
  {
    if k > 0 {
      FirstIncompleteAt(data[1..], k - 1);
    }
  }
}
