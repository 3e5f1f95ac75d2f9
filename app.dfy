/**
 * The application shell: who is signed in, which screen is shown and which
 * project the matcher is open on. Signing in and out writes the stored user.
 */
module AppShell {
  import opened Base
  import opened Types
  import opened LocalStore
  import opened StorageService

  const AuthKey: string := "garden_auth"

  /** The sign-in key, when present, holds a user. */
  ghost predicate AuthWellFormed(items: map<string, Entry>)
  {
    AuthKey in items ==> items[AuthKey].UserEntry?
  }

  /** The three conditions under which the main area shows a panel. */
  predicate ShowsProjectList(view: View) { view == ProjectsView }
  predicate ShowsMatcher(view: View, activeProjectId: Option<string>) { view == MatcherView && Truthy(activeProjectId) }
  predicate ShowsInventory(view: View) { view == InventoryView }

  /** What is on screen. */
  datatype Panel = ProjectListPanel | MatcherPanel(projectId: string) | InventoryPanel | EmptyPanel
  datatype Screen = LoginScreen | Workspace(panel: Panel)

  /** The rendering rule: the login screen without a user, otherwise the panel of the current view. */
  function Render(user: Option<User>, view: View, activeProjectId: Option<string>): (s: Screen)
    ensures user.None? <==> s == LoginScreen
    ensures s.Workspace? && s.panel.MatcherPanel? <==> user.Some? && ShowsMatcher(view, activeProjectId)
    ensures s.Workspace? && s.panel.MatcherPanel? ==> Some(s.panel.projectId) == activeProjectId
    ensures s.Workspace? && s.panel == ProjectListPanel <==> user.Some? && ShowsProjectList(view)
    ensures s.Workspace? && s.panel == InventoryPanel <==> user.Some? && ShowsInventory(view)
  {
    if user.None? then LoginScreen
    else if ShowsProjectList(view) then Workspace(ProjectListPanel)
    else if ShowsMatcher(view, activeProjectId) then Workspace(MatcherPanel(activeProjectId.value))
    else if ShowsInventory(view) then Workspace(InventoryPanel)
    else Workspace(EmptyPanel)
  }

  /** The three panel conditions test distinct views, so they exclude one another: immediate from the constructors of `View`. */
  lemma AtMostOnePanel(view: View, activeProjectId: Option<string>)
    ensures !(ShowsProjectList(view) && ShowsMatcher(view, activeProjectId))
    ensures !(ShowsProjectList(view) && ShowsInventory(view))
    ensures !(ShowsMatcher(view, activeProjectId) && ShowsInventory(view))
  {
  }

  /** The sign-in key is neither of the gateway's keys, so signing in or out leaves the catalog and the projects alone. */
  lemma AuthKeySeparate(items: map<string, Entry>, e: Entry)
    requires WellFormed(items)
    ensures WellFormed(items[AuthKey := e]) && WellFormed(items - {AuthKey})
    ensures StoredProducts(items[AuthKey := e]) == StoredProducts(items)
    ensures StoredProjects(items[AuthKey := e]) == StoredProjects(items)
    ensures StoredProducts(items - {AuthKey}) == StoredProducts(items)
    ensures StoredProjects(items - {AuthKey}) == StoredProjects(items)
  {
    assert |AuthKey| != |ProductsKey| && |AuthKey| != |ProjectsKey|;
  }

  class App {
    const store: BrowserStore
    var currentView: View
    var activeProjectId: Option<string>
    var user: Option<User>

    /** A project is only ever active in the matcher view. */
    ghost predicate Valid()
      reads this, store
    {
      && AuthWellFormed(store.items)
      && (activeProjectId.Some? ==> currentView == MatcherView)
    }

    function Screen(): Screen
      reads this
    {
      Render(user, currentView, activeProjectId)
    }

    /** Start-up: the projects view, no active project, and the stored user if there is one. */
    constructor(store: BrowserStore)
      requires AuthWellFormed(store.items)
      ensures this.store == store && Valid()
      ensures currentView == ProjectsView && activeProjectId == None
      ensures user == if AuthKey in store.items then Some(store.items[AuthKey].user) else None
    {
      this.store := store;
      currentView := ProjectsView;
      activeProjectId := None;
      new;
      var saved := store.GetItem(AuthKey);
      user := if saved.Some? then Some(saved.value.user) else None;
    }

    /** `handleLogin`: sign in and remember the user. */
    method HandleLogin(name: string, email: string)
      requires Valid()
      modifies this, store
      ensures Valid()
      ensures user == Some(User(email, name))
      ensures store.items == old(store.items)[AuthKey := UserEntry(User(email, name))]
      ensures currentView == old(currentView) && activeProjectId == old(activeProjectId)
    {
      var newUser := User(email, name);
      user := Some(newUser);
      store.SetItem(AuthKey, UserEntry(newUser));
    }

    /** `handleLogout`: sign out and forget the user. */
    method HandleLogout()
      requires Valid()
      modifies this, store
      ensures Valid()
      ensures user == None && Screen() == LoginScreen
      ensures store.items == old(store.items) - {AuthKey}
      ensures currentView == old(currentView) && activeProjectId == old(activeProjectId)
    {
      user := None;
      store.RemoveItem(AuthKey);
    }

    /** `handleSelectProject`: open the matcher on that project. */
    method HandleSelectProject(id: string)
      requires Valid()
      modifies this
      ensures Valid()
      ensures activeProjectId == Some(id) && currentView == MatcherView && user == old(user)
      ensures user.Some? && id != "" ==> Screen() == Workspace(MatcherPanel(id))
    {
      activeProjectId := Some(id);
      currentView := MatcherView;
    }

    /** `handleBackToProjects`. */
    method HandleBackToProjects()
      requires Valid()
      modifies this
      ensures Valid()
      ensures activeProjectId == None && currentView == ProjectsView && user == old(user)
      ensures user.Some? ==> Screen() == Workspace(ProjectListPanel)
    {
      activeProjectId := None;
      currentView := ProjectsView;
    }

    /** The sidebar's `onViewChange`: leaving the matcher forgets the active project. */
    method ChangeView(view: View)
      requires Valid()
      modifies this
      ensures Valid()
      ensures currentView == view && user == old(user)
      ensures activeProjectId == if view == MatcherView then old(activeProjectId) else None
    {
      currentView := view;
      if view != MatcherView {
        activeProjectId := None;
      }
    }
  }
}
