/**
  The mobile bottom menu: four items, the active one read off the path, the
  cocktail item revealed only when a competition exists, and the menu
  revealed once that check is over.
*/
module BottomMenu {
  import opened Wrappers
  import opened Strings
  import Navigation

  /** Path fragments looked for by the bottom menu's `getCurrentPage`, in order. */
  const MenuPages: seq<(string, string)> := [
    ("dashboard", "dashboard"),
    ("leaderboard", "leaderboard"),
    ("challenges-submit", "challenges-submit"),
    ("cocktail-judging", "cocktail-judging")]

  /** The `data-page` of each item, in markup order. */
  const Items: seq<string> := ["dashboard", "leaderboard", "challenges-submit", "cocktail-judging"]

  /** `getCurrentPage`: the first fragment found, else `null`. */
  function CurrentPage(path: string): (page: Option<string>)
    ensures page.None? <==> forall i :: 0 <= i < |MenuPages| ==> !Includes(path, MenuPages[i].0)
    ensures page.Some? ==> page.value in Items
  {
    var m := Navigation.FirstMatch(path, MenuPages);
    assert m.Some? ==> m.value in Items;
    m
  }

  /** `updateActivePage`: an item is active iff its page is the current one. */
  function ActiveItems(current: Option<string>): (active: seq<bool>)
    ensures |active| == |Items|
    ensures forall i :: 0 <= i < |Items| ==> (active[i] <==> current == Some(Items[i]))
  {
    seq(|Items|, i requires 0 <= i < |Items| => current == Some(Items[i]))
  }

  /** At most one item is active, and none when no page matched. */
  lemma AtMostOneActive(path: string)
    ensures var active := ActiveItems(CurrentPage(path));
      forall i, j :: 0 <= i < j < |Items| ==> !(active[i] && active[j])
    ensures CurrentPage(path).None? ==> forall i :: 0 <= i < |Items| ==> !ActiveItems(CurrentPage(path))[i]
  {
    assert Items[0] != Items[1] && Items[0] != Items[2] && Items[0] != Items[3];
    assert Items[1] != Items[2] && Items[1] != Items[3] && Items[2] != Items[3];
  }

  /** The menu after it is connected: whether the cocktail item is shown and whether the menu is revealed. */
  datatype Menu = Menu(active: seq<bool>, cocktailShown: bool, loaded: bool)

  /**
    `connectedCallback` up to the end of the competition check; `reply` is
    the latest competition rows, or the query's error.
  */
  function Connect(path: string, reply: Result<seq<string>, string>): (m: Menu)
    ensures m.active == ActiveItems(CurrentPage(path))
    ensures m.cocktailShown <==> reply.Ok? && |reply.value| > 0
    ensures m.loaded
  {
    Menu(ActiveItems(CurrentPage(path)), reply.Ok? && |reply.value| > 0, true)
  }

  /** A failed check leaves the cocktail item hidden but still reveals the menu. */
  lemma FailedCheckStillRevealed(path: string, e: string)
    ensures !Connect(path, Err(e)).cocktailShown && Connect(path, Err(e)).loaded
  {
  }

  /** What `getAttribute` can return: a string or `null`, never `undefined`. */
  datatype AttrValue = Undefined | Null | Str(s: string)

  function GetAttribute(attrs: map<string, string>, name: string): (v: AttrValue)
    ensures v != Undefined
    ensures v == Null <==> name !in attrs
  {
    if name in attrs then Str(attrs[name]) else Null
  }

  const SoundAttr := "data-sound"

  /** The item's click listener as written: it tests `getAttribute` against `undefined`. */
  function ItemClickAsWritten(attrs: map<string, string>): (r: map<string, string>)
  {
    if GetAttribute(attrs, SoundAttr) == Undefined then attrs[SoundAttr := "menu"] else attrs
  }

  /** The test never succeeds: an item without `data-sound` never gets `data-sound="menu"`. */
  lemma MenuSoundNeverSet(attrs: map<string, string>)
    ensures ItemClickAsWritten(attrs) == attrs
    ensures SoundAttr !in attrs ==> SoundAttr !in ItemClickAsWritten(attrs)
  {
  }

  /** The listener testing for a missing attribute, as intended. */
  function ItemClick(attrs: map<string, string>): (r: map<string, string>)
    ensures SoundAttr in r
    ensures SoundAttr !in attrs ==> r == attrs[SoundAttr := "menu"]
    ensures SoundAttr in attrs ==> r == attrs
  {
    if GetAttribute(attrs, SoundAttr) == Null then attrs[SoundAttr := "menu"] else attrs
  }

  /**
    The intended listener differs from the one as written exactly on items
    without their own sound, and a second click changes nothing more.
  */
  lemma ItemClickFixesOnlyMissing(attrs: map<string, string>)
    ensures ItemClick(attrs) != ItemClickAsWritten(attrs) <==> SoundAttr !in attrs
    ensures ItemClick(ItemClick(attrs)) == ItemClick(attrs)
  {
    if SoundAttr !in attrs {
      assert SoundAttr in ItemClick(attrs);
    }
  }
}
