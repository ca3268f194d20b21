/**
  The top navigation: the current page read off the path, its title, which
  tabs and controls are shown for the signed-in state, and which tab is
  active. Each optional element of the page is taken to be present.
*/
module Navigation {
  import opened Wrappers
  import opened Strings

  /** The value of the first entry whose fragment occurs in `path`. */
  function FirstMatch(path: string, table: seq<(string, string)>): (r: Option<string>)
    ensures r.None? <==> forall i :: 0 <= i < |table| ==> !Includes(path, table[i].0)
    ensures r.Some? ==> exists i :: (0 <= i < |table| && Includes(path, table[i].0) && r.value == table[i].1
      && forall j :: 0 <= j < i ==> !Includes(path, table[j].0))
  {
    if |table| == 0 then None
    else if Includes(path, table[0].0) then Some(table[0].1)
    else
      var r := FirstMatch(path, table[1..]);
      assert forall i :: 0 <= i < |table| - 1 ==> table[1..][i] == table[i + 1];
      r
  }

  /** Path fragments and the pages they name, in the order `getCurrentPage` tests them. */
  const NavPages: seq<(string, string)> := [
    ("dashboard", "dashboard"),
    ("leaderboard", "leaderboard"),
    ("event-info", "event-info"),
    ("cocktail-judging", "cocktail-judging"),
    ("cocktail-rubric", "rubric"),
    ("challenges-submit", "challenges-submit"),
    ("admin-approvals", "admin-approvals")]

  /** `getCurrentPage`: the first fragment found, else "dashboard". */
  function CurrentPage(path: string): (page: string)
    ensures page in PageNames
    ensures FirstMatch(path, NavPages).None? ==> page == "dashboard"
    ensures FirstMatch(path, NavPages).Some? ==> page == FirstMatch(path, NavPages).value
  {
    var m := FirstMatch(path, NavPages);
    if m.Some? then m.value else "dashboard"
  }

  const PageNames: set<string> := {"dashboard", "leaderboard", "event-info", "cocktail-judging", "rubric", "challenges-submit", "admin-approvals"}

  /** The `pageTitles` table. */
  const Titles: map<string, string> := map[
    "dashboard" := "Dashboard",
    "leaderboard" := "Leaderboard",
    "event-info" := "Event Info",
    "cocktail-judging" := "Cocktail Judging",
    "rubric" := "Cocktail Rubric",
    "challenges-submit" := "Challenge Workshop",
    "admin-approvals" := "Admin Approvals"]

  /** `getPageTitle`: the table's title, "Dashboard" for any other page. */
  function PageTitle(page: string): (t: string)
    ensures page in Titles ==> t == Titles[page]
    ensures page !in Titles ==> t == "Dashboard"
    ensures t != ""
  {
    if page in Titles && Titles[page] != "" then Titles[page] else "Dashboard"
  }

  /** Every page `getCurrentPage` can name has its own title: the fallback is never needed for it. */
  lemma TitleForEveryPage(path: string)
    ensures CurrentPage(path) in Titles
    ensures PageTitle(CurrentPage(path)) == Titles[CurrentPage(path)]
  {
    assert Titles.Keys == PageNames;
  }

  /** A path naming no known page is titled as the dashboard. */
  lemma UnknownPathIsDashboard(path: string)
    requires forall i :: 0 <= i < |NavPages| ==> !Includes(path, NavPages[i].0)
    ensures CurrentPage(path) == "dashboard" && PageTitle(CurrentPage(path)) == "Dashboard"
  {
  }

  datatype Tab = Tab(page: string, shown: bool, active: bool)

  datatype NavUser = NavUser(isAdmin: bool)

  datatype Nav = Nav(
    currentUser: Option<NavUser>,
    currentPage: string,
    title: string,
    adminShown: bool,
    logoutShown: bool,
    tabs: seq<Tab>)

  /** The tabs an anonymous visitor sees. */
  predicate PublicPage(page: string) {
    page == "dashboard" || page == "home" || page == "index"
  }

  /** `updateMenuOptions`. */
  function UpdateMenuOptions(n: Nav): (r: Nav)
    ensures |r.tabs| == |n.tabs|
    ensures forall i :: 0 <= i < |r.tabs| ==> r.tabs[i] == n.tabs[i].(shown := n.currentUser.Some? || PublicPage(n.tabs[i].page))
    ensures n.currentUser.None? ==> !r.adminShown && !r.logoutShown
    ensures n.currentUser.Some? ==> r.logoutShown && r.adminShown == n.adminShown
    ensures r.currentUser == n.currentUser && r.currentPage == n.currentPage && r.title == n.title
  {
    var tabs := seq(|n.tabs|, i requires 0 <= i < |n.tabs| => n.tabs[i].(shown := n.currentUser.Some? || PublicPage(n.tabs[i].page)));
    if n.currentUser.None? then n.(tabs := tabs, adminShown := false, logoutShown := false)
    else n.(tabs := tabs, logoutShown := true)
  }

  /** `updateAdminVisibility`. */
  function UpdateAdminVisibility(n: Nav): (r: Nav)
    ensures r.adminShown <==> n.currentUser.Some? && n.currentUser.value.isAdmin
    ensures r == n.(adminShown := r.adminShown)
  {
    n.(adminShown := n.currentUser.Some? && n.currentUser.value.isAdmin)
  }

  /** `updatePageTitle`. */
  function UpdatePageTitle(n: Nav): (r: Nav)
    ensures r.title == PageTitle(n.currentPage) && r == n.(title := r.title)
  {
    n.(title := PageTitle(n.currentPage))
  }

  /** `setCurrentUser` (also run on `user:loaded`). */
  function SetCurrentUser(n: Nav, user: NavUser): (r: Nav)
    ensures r.currentUser == Some(user) && r.title == PageTitle(n.currentPage)
    ensures |r.tabs| == |n.tabs| && forall i :: 0 <= i < |r.tabs| ==> r.tabs[i] == n.tabs[i].(shown := true)
    ensures r.logoutShown && (r.adminShown <==> user.isAdmin)
  {
    UpdateMenuOptions(UpdateAdminVisibility(UpdatePageTitle(n.(currentUser := Some(user)))))
  }

  /** `setNoUser`. */
  function SetNoUser(n: Nav): (r: Nav)
    ensures r.currentUser.None? && r.title == PageTitle(n.currentPage)
    ensures |r.tabs| == |n.tabs| && forall i :: 0 <= i < |r.tabs| ==> (r.tabs[i].shown <==> PublicPage(n.tabs[i].page))
    ensures !r.adminShown && !r.logoutShown
  {
    UpdateMenuOptions(UpdateAdminVisibility(UpdatePageTitle(n.(currentUser := None))))
  }

  /** The `user:logout` listener: title and admin link only. */
  function OnLogout(n: Nav): (r: Nav)
    ensures r.currentUser.None? && !r.adminShown && r.title == PageTitle(n.currentPage)
    ensures r.tabs == n.tabs && r.logoutShown == n.logoutShown
  {
    UpdateAdminVisibility(UpdatePageTitle(n.(currentUser := None)))
  }

  /** The admin link is shown exactly for an admin after any of the user transitions. */
  lemma AdminLinkIffAdmin(n: Nav, user: NavUser)
    ensures SetCurrentUser(n, user).adminShown <==> user.isAdmin
    ensures !SetNoUser(n).adminShown && !OnLogout(n).adminShown
    ensures forall m :: m in [SetCurrentUser(n, user), SetNoUser(n), OnLogout(n)] ==>
      (m.adminShown <==> m.currentUser.Some? && m.currentUser.value.isAdmin)
  {
  }

  /** Logging out leaves the signed-in tabs and the logout button as they were, unlike `setNoUser`. */
  lemma LogoutKeepsSignedInMenu(n: Nav, user: NavUser)
    ensures var out := OnLogout(SetCurrentUser(n, user));
      out.logoutShown && |out.tabs| == |n.tabs| && forall i :: 0 <= i < |out.tabs| ==> out.tabs[i].shown
  {
  }

  /** `updateActiveTab`. */
  function UpdateActiveTab(n: Nav): (r: Nav)
    ensures |r.tabs| == |n.tabs|
    ensures forall i :: 0 <= i < |r.tabs| ==> r.tabs[i] == n.tabs[i].(active := n.tabs[i].page == n.currentPage)
    ensures r == n.(tabs := r.tabs)
  {
    n.(tabs := seq(|n.tabs|, i requires 0 <= i < |n.tabs| => n.tabs[i].(active := n.tabs[i].page == n.currentPage)))
  }

  /** `handlePageChange`: nothing for the current page; otherwise switch, retitle and move the active tab. */
  function HandlePageChange(n: Nav, page: string): (r: Nav)
    ensures page == n.currentPage ==> r == n
    ensures page != n.currentPage ==> r.currentPage == page && r.title == PageTitle(page)
    ensures page != n.currentPage ==> |r.tabs| == |n.tabs| && forall i :: 0 <= i < |r.tabs| ==> (r.tabs[i].active <==> r.tabs[i].page == page)
    ensures r.currentUser == n.currentUser && r.adminShown == n.adminShown
  {
    if page == n.currentPage then n else UpdateActiveTab(UpdatePageTitle(n.(currentPage := page)))
  }

  /** With tabs for distinct pages, at most one is active after a page change. */
  lemma OneActiveTab(n: Nav, page: string)
    requires page != n.currentPage
    requires forall i, j :: 0 <= i < j < |n.tabs| ==> n.tabs[i].page != n.tabs[j].page
    ensures var r := HandlePageChange(n, page);
      forall i, j :: 0 <= i < j < |r.tabs| ==> !(r.tabs[i].active && r.tabs[j].active)
  {
  }
}
