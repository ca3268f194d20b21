/**
  A challenge card as `ChallengeCard.create` builds it: its CSS classes, its
  title, description, action area and click behaviour, all functions of the
  card state and the component options. Markup is abstracted into
  constructors; only the decisions are modelled.
*/
module ChallengeCard {
  import opened Strings
  import opened Wrappers

  datatype Outcome = Success | Failure

  /** The state `renderChallenges` computes for one card. */
  datatype CardState = CardState(isCompleted: bool, outcome: Option<Outcome>, brianMode: Option<string>,
                                 isRevealed: bool, canReveal: bool, isLocked: bool)

  /** Component options; each defaults to `true`. */
  datatype Options = Options(showActions: bool, allowReveal: bool, showBrianMode: bool, showIndex: bool)

  const Defaults := Options(true, true, true, true)

  /** The class token a template literal produces for an outcome (`null` for a missing one). */
  function OutcomeClass(o: Option<Outcome>): string {
    match o
    case Some(Success) => "success"
    case Some(Failure) => "failure"
    case None => "null"
  }

  /** The card's class list: completed, then locked, then revealed, then unrevealed when revealable. */
  function CardClasses(st: CardState): (cls: set<string>)
    ensures "challenge-card" in cls
    ensures "completed" in cls <==> st.isCompleted
    ensures "locked" in cls <==> !st.isCompleted && st.isLocked
    ensures "revealed" in cls <==> !st.isCompleted && !st.isLocked && st.isRevealed
    ensures "unrevealed" in cls <==> !st.isCompleted && !st.isLocked && !st.isRevealed && st.canReveal
    ensures st.isCompleted ==> cls == {"challenge-card", "completed", OutcomeClass(st.outcome)}
    ensures !st.isCompleted ==> cls <= {"challenge-card", "locked", "revealed", "unrevealed"}
  {
    if st.isCompleted then {"challenge-card", "completed", OutcomeClass(st.outcome)}
    else if st.isLocked then {"challenge-card", "locked"}
    else if st.isRevealed then {"challenge-card", "revealed"}
    else if st.canReveal then {"challenge-card", "unrevealed"}
    else {"challenge-card"}
  }

  /** The Brian-mode badge next to the title. */
  datatype Badge = NoBadge | VsBrian | WithBrian

  /** JavaScript truthiness of an optional string. */
  predicate TruthyText(s: Option<string>) {
    s.Some? && s.value != ""
  }

  function BrianBadge(mode: Option<string>, opts: Options): (b: Badge)
    ensures b == VsBrian <==> opts.showBrianMode && mode == Some("vs")
    ensures b == WithBrian <==> opts.showBrianMode && TruthyText(mode) && mode != Some("vs")
    ensures b == NoBadge <==> !opts.showBrianMode || !TruthyText(mode)
  {
    if TruthyText(mode) && opts.showBrianMode then (if mode.value == "vs" then VsBrian else WithBrian)
    else NoBadge
  }

  /** What the title area shows. */
  datatype Title = RealTitle(text: string, badge: Badge) | Numbered(caption: string) | HiddenTitle

  /** `getDisplayTitle`: the real title only once completed or revealed. */
  function DisplayTitle(st: CardState, title: string, index: nat, opts: Options): (t: Title)
    ensures t.RealTitle? <==> st.isCompleted || st.isRevealed
    ensures t.RealTitle? ==> t.text == title && t.badge == BrianBadge(st.brianMode, opts)
    ensures t.Numbered? <==> !st.isCompleted && !st.isRevealed && opts.showIndex
    ensures t.Numbered? ==> t.caption == "Challenge " + NatToString(index + 1)
  {
    if st.isCompleted || st.isRevealed then RealTitle(title, BrianBadge(st.brianMode, opts))
    else if opts.showIndex then Numbered("Challenge " + NatToString(index + 1))
    else HiddenTitle
  }

  /** `getDisplayDescription`: the paragraph text, or nothing while hidden. */
  function DisplayDescription(st: CardState, description: Option<string>): (d: Option<string>)
    ensures d.Some? <==> st.isCompleted || st.isRevealed
    ensures d.Some? && TruthyText(description) ==> d.value == description.value
    ensures d.Some? && !TruthyText(description) ==> d.value == "No description"
  {
    if st.isCompleted || st.isRevealed then
      Some(if TruthyText(description) then description.value else "No description")
    else None
  }

  /** The status badge under a card. */
  datatype StatusBadge = OutcomeBadge(success: bool) | RevealPrompt | LockedBadge | Blank

  /** `getStatusBadge`. */
  function GetStatusBadge(st: CardState, opts: Options): (b: StatusBadge)
    ensures b.OutcomeBadge? <==> st.isCompleted
    ensures b.OutcomeBadge? ==> (b.success <==> st.outcome == Some(Success))
    ensures b == RevealPrompt <==> !st.isCompleted && st.canReveal && !st.isRevealed && opts.allowReveal
    ensures b == LockedBadge ==> st.isLocked
  {
    if st.isCompleted then OutcomeBadge(st.outcome == Some(Success))
    else if st.canReveal && !st.isRevealed && opts.allowReveal then RevealPrompt
    else if st.isLocked then LockedBadge
    else Blank
  }

  /** The action area: the SUCCESS/FAILURE buttons, or the status badge. */
  datatype Actions = OutcomeButtons | Status(badge: StatusBadge)

  /** `getActionsHTML`. */
  function GetActions(st: CardState, opts: Options): (a: Actions)
    ensures a == OutcomeButtons <==> opts.showActions && !st.isCompleted && st.isRevealed
    ensures a.Status? ==> a.badge == GetStatusBadge(st, opts)
  {
    if opts.showActions && !st.isCompleted && st.isRevealed then OutcomeButtons
    else Status(GetStatusBadge(st, opts))
  }

  /** `addEventListeners`: whether clicking the card reveals it. */
  predicate HasRevealListener(st: CardState, opts: Options) {
    !st.isCompleted && st.canReveal && !st.isRevealed && opts.allowReveal
  }

  /** The CLICK TO REVEAL prompt appears exactly on the cards whose click reveals them. */
  lemma RevealPromptMatchesListener(st: CardState, opts: Options)
    ensures GetActions(st, opts) == Status(RevealPrompt) <==> HasRevealListener(st, opts)
  {
  }

  /** A card built for a state, and whether a click on it reveals it. */
  datatype CardView = CardView(classes: set<string>, title: Title, description: Option<string>,
                               actions: Actions, revealOnClick: bool)

  /** `create`: the whole card for one state. */
  function Create(st: CardState, title: string, description: Option<string>, index: nat, opts: Options): (c: CardView)
    ensures c.classes == CardClasses(st)
    ensures c.revealOnClick <==> c.actions == Status(RevealPrompt)
    ensures c.revealOnClick && !st.isLocked ==> "unrevealed" in c.classes
    ensures c.actions == OutcomeButtons ==> "revealed" in c.classes || "locked" in c.classes
  {
    CardView(CardClasses(st), DisplayTitle(st, title, index, opts), DisplayDescription(st, description),
             GetActions(st, opts), HasRevealListener(st, opts))
  }

  /** `isSameCardState`: compares only the completed, revealed and locked classes. */
  predicate IsSameCardState(classes: set<string>, st: CardState) {
    ("completed" in classes <==> st.isCompleted)
    && ("revealed" in classes <==> st.isRevealed)
    && ("locked" in classes <==> st.isLocked)
  }

  /** At most one of completed, revealed and locked holds. */
  predicate AtMostOneFlag(st: CardState) {
    !(st.isCompleted && st.isRevealed) && !(st.isCompleted && st.isLocked) && !(st.isRevealed && st.isLocked)
  }

  /** A freshly built card matches its own state exactly when at most one of the three flags holds. */
  lemma CreatedCardMatches(st: CardState)
    ensures IsSameCardState(CardClasses(st), st) <==> AtMostOneFlag(st)
  {
  }
}
