/**
  The cocktail judging page: judgment completeness, entry status, the weighted
  card score, the single favorite with its optimistic update and rollback,
  and the insert-or-update choice when a judgment is submitted.
*/
module CocktailJudging {
  import opened Wrappers

  /** A score as stored: `null` or a number. */
  type Score = Option<int>

  /** A judge's judgment of one entry. */
  datatype Judgment = Judgment(id: string, taste: Score, presentation: Score, workmanship: Score, creativity: Score)

  /** JavaScript truthiness of a score: present and non-zero. */
  predicate Truthy(s: Score) {
    s.Some? && s.value != 0
  }

  /** `score || 0`. */
  function OrZero(s: Score): (v: int)
    ensures Truthy(s) ==> v == s.value
    ensures !Truthy(s) ==> v == 0
  {
    if Truthy(s) then s.value else 0
  }

  /** `isJudgmentComplete`: a judgment exists and all four scores are truthy. */
  predicate IsJudgmentComplete(j: Option<Judgment>) {
    j.Some? && Truthy(j.value.taste) && Truthy(j.value.presentation)
    && Truthy(j.value.workmanship) && Truthy(j.value.creativity)
  }

  datatype EntryStatus = NotStarted | InProgress | Completed

  /** `getEntryStatus`, with `myJudgments` as a map from entry id to judgment. */
  function GetEntryStatus(judgments: map<string, Judgment>, entryId: string): (s: EntryStatus)
    ensures s == NotStarted <==> entryId !in judgments
    ensures s == Completed <==> entryId in judgments && IsJudgmentComplete(Some(judgments[entryId]))
    ensures s == InProgress <==> entryId in judgments && !IsJudgmentComplete(Some(judgments[entryId]))
  {
    if entryId !in judgments then NotStarted
    else if IsJudgmentComplete(Some(judgments[entryId])) then Completed
    else InProgress
  }

  /** The weights of taste, presentation, workmanship and creativity. */
  const TasteWeight := 10
  const PresentationWeight := 4
  const WorkmanshipWeight := 3
  const CreativityWeight := 3

  /** The card's weighted total: missing or zero scores count 0, and no judgment scores 0. */
  function WeightedTotal(j: Option<Judgment>): (t: int)
    ensures j.None? ==> t == 0
  {
    match j
    case None => 0
    case Some(x) =>
      OrZero(x.taste) * TasteWeight + OrZero(x.presentation) * PresentationWeight
      + OrZero(x.workmanship) * WorkmanshipWeight + OrZero(x.creativity) * CreativityWeight
  }

  /** A score as the 1-5 selects allow. */
  predicate InSelectRange(s: Score) {
    s.Some? && 1 <= s.value <= 5
  }

  /** With every score chosen from the 1-5 selects, the total lies in the "/100 points" range. */
  lemma TotalWithinHundred(j: Judgment)
    requires InSelectRange(j.taste) && InSelectRange(j.presentation)
    requires InSelectRange(j.workmanship) && InSelectRange(j.creativity)
    ensures 20 <= WeightedTotal(Some(j)) <= 100
    ensures IsJudgmentComplete(Some(j))
  {
  }

  /** Raising one score never lowers the total, as long as scores are non-negative. */
  lemma TotalMonotoneInTaste(j: Judgment, better: int)
    requires j.taste.Some? && 0 <= j.taste.value <= better
    ensures WeightedTotal(Some(j)) <= WeightedTotal(Some(j.(taste := Some(better))))
  {
  }

  /** A missing score and a zero score weigh the same: both count 0. */
  lemma MissingCountsAsZero(j: Judgment)
    requires j.presentation.None? && j.creativity.None?
    ensures WeightedTotal(Some(j)) == WeightedTotal(Some(j.(presentation := Some(0), creativity := Some(0))))
    ensures WeightedTotal(Some(j)) == OrZero(j.taste) * TasteWeight + OrZero(j.workmanship) * WorkmanshipWeight
  {
  }

  /** Backend calls a favorite handler issues, in order. */
  datatype FavoriteOp =
    | DeleteMyFavorite             // delete the judge's favorite for the competition
    | DeleteFavoriteFor(entry: string)  // delete it only if it is this entry
    | InsertFavorite(entry: string)

  /**
    What a handler leaves behind: the new `myFavorite`, the backend calls, the
    favorite shown by each re-render in order, and whether the failure message appeared.
  */
  datatype FavoriteOutcome = FavoriteOutcome(favorite: Option<string>, ops: seq<FavoriteOp>,
                                             renders: seq<Option<string>>, failed: bool)

  /**
    `handleMarkFavorite` (the modal button). Removing the current favorite
    ignores the delete's result; marking deletes any old favorite and inserts,
    and an insert error leaves `myFavorite` as it was.
  */
  function MarkFavorite(my: Option<string>, entryId: string, insertOk: bool): (o: FavoriteOutcome)
    ensures |o.ops| > 0
    ensures my == Some(entryId) ==> o.favorite == None && o.ops == [DeleteMyFavorite] && !o.failed
    ensures my != Some(entryId) ==> o.ops[|o.ops| - 1] == InsertFavorite(entryId)
    ensures my != Some(entryId) ==> (DeleteMyFavorite in o.ops <==> my.Some?)
    ensures my != Some(entryId) && insertOk ==> o.favorite == Some(entryId) && !o.failed
    ensures my != Some(entryId) && !insertOk ==> o.favorite == my && o.failed
    ensures !o.failed ==> o.renders == [o.favorite]
  {
    if my == Some(entryId) then FavoriteOutcome(None, [DeleteMyFavorite], [None], false)
    else
      var ops := (if my.Some? then [DeleteMyFavorite] else []) + [InsertFavorite(entryId)];
      if insertOk then FavoriteOutcome(Some(entryId), ops, [Some(entryId)], false)
      else FavoriteOutcome(my, ops, [], true)
  }

  /**
    Two successful clicks of the modal button toggle twice: the entry ends as
    favorite exactly when it was the favorite before, and otherwise nothing is.
  */
  lemma MarkFavoriteTwice(my: Option<string>, entryId: string)
    ensures MarkFavorite(MarkFavorite(my, entryId, true).favorite, entryId, true).favorite
         == if my == Some(entryId) then Some(entryId) else None
  {
  }

  /**
    `handleMarkFavoriteFromCard`: optimistic mark, delete the previous favorite
    only if it is another entry, insert, and roll back on error.
  */
  function MarkFavoriteFromCard(my: Option<string>, entryId: string, insertOk: bool): (o: FavoriteOutcome)
    ensures |o.renders| > 0 && |o.ops| > 0
    ensures o.renders[0] == Some(entryId)
    ensures o.favorite == o.renders[|o.renders| - 1]
    ensures insertOk ==> o.favorite == Some(entryId) && !o.failed
    ensures !insertOk ==> o.favorite == my && o.failed
    ensures DeleteMyFavorite in o.ops <==> my.Some? && my.value != entryId
    ensures o.ops[|o.ops| - 1] == InsertFavorite(entryId)
  {
    var ops := (if my.Some? && my.value != entryId then [DeleteMyFavorite] else []) + [InsertFavorite(entryId)];
    if insertOk then FavoriteOutcome(Some(entryId), ops, [Some(entryId)], false)
    else FavoriteOutcome(my, ops, [Some(entryId), my], true)
  }

  /** `handleUnfavorite`: optimistic clear, delete that entry's favorite, roll back on error. */
  function Unfavorite(my: Option<string>, entryId: string, deleteOk: bool): (o: FavoriteOutcome)
    ensures |o.renders| > 0
    ensures o.renders[0] == None
    ensures o.favorite == o.renders[|o.renders| - 1]
    ensures o.ops == [DeleteFavoriteFor(entryId)]
    ensures deleteOk ==> o.favorite == None && !o.failed
    ensures !deleteOk ==> o.favorite == my && o.failed
  {
    if deleteOk then FavoriteOutcome(None, [DeleteFavoriteFor(entryId)], [None], false)
    else FavoriteOutcome(my, [DeleteFavoriteFor(entryId)], [None, my], true)
  }

  /** The favorite button on a card: unfavorite the current favorite, mark any other entry. */
  function CardFavoriteClick(my: Option<string>, entryId: string, backendOk: bool): (o: FavoriteOutcome)
    ensures backendOk && my == Some(entryId) ==> o.favorite == None
    ensures backendOk && my != Some(entryId) ==> o.favorite == Some(entryId)
    ensures !backendOk ==> o.favorite == my
  {
    if my == Some(entryId) then Unfavorite(my, entryId, backendOk)
    else MarkFavoriteFromCard(my, entryId, backendOk)
  }

  /** A card click either succeeds or leaves exactly the favorite there was before the click. */
  lemma CardClickRollsBack(my: Option<string>, entryId: string, backendOk: bool)
    ensures var o := CardFavoriteClick(my, entryId, backendOk);
      o.failed ==> o.favorite == my
  {
  }

  /** Two successful card clicks on the same entry restore the original favorite when it was that entry. */
  lemma CardClickTwice(entryId: string)
    ensures CardFavoriteClick(CardFavoriteClick(Some(entryId), entryId, true).favorite, entryId, true).favorite == Some(entryId)
    ensures CardFavoriteClick(CardFavoriteClick(None, entryId, true).favorite, entryId, true).favorite == None
  {
  }

  /** The scores submitted from the judging form. */
  datatype JudgmentData = JudgmentData(entryId: string, taste: Score, presentation: Score, workmanship: Score, creativity: Score, notes: Option<string>)

  /** The write a submission issues. */
  datatype JudgmentWrite = UpdateJudgment(id: string, data: JudgmentData) | InsertJudgment(data: JudgmentData)

  /** Submitting updates the judge's existing judgment of the entry, or inserts a new one. */
  function SubmitJudgment(judgments: map<string, Judgment>, data: JudgmentData): (w: JudgmentWrite)
    ensures w.data == data
    ensures w.UpdateJudgment? <==> data.entryId in judgments
    ensures w.UpdateJudgment? ==> w.id == judgments[data.entryId].id
  {
    if data.entryId in judgments then UpdateJudgment(judgments[data.entryId].id, data)
    else InsertJudgment(data)
  }

  /** An entry not yet started always gets a fresh judgment row. */
  lemma NotStartedInserts(judgments: map<string, Judgment>, data: JudgmentData)
    requires GetEntryStatus(judgments, data.entryId) == NotStarted
    ensures SubmitJudgment(judgments, data).InsertJudgment?
  {
  }
}
