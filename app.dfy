/** The top-level page of App.tsx: the catalogue filter, the category bar,
    the authentication state with its session key, and the choice of the main
    panel. The browser's `active_session` key is a field of the shell. */
module App {
  import opened JsValues
  import opened Seqs
  import opened Text
  import opened Types
  import opened Enrollment

  /** `'home' | 'admin' | 'info'`. */
  datatype View = Home | AdminView | Info

  datatype AuthState = AuthState(user: Option<User>, isAuthenticated: bool)

  /** The category chip admits the course. */
  predicate MatchesCategory(c: Course, selectedCategory: string)
  {
    selectedCategory == "All" || c.category == selectedCategory
  }

  /** The lower-cased query occurs in the lower-cased title or description. */
  predicate MatchesSearch(c: Course, searchQuery: string)
  {
    Includes(ToLower(c.title), ToLower(searchQuery)) || Includes(ToLower(c.description), ToLower(searchQuery))
  }

  /** `filteredCourses`: the courses both tests admit, in catalogue order. */
  function FilteredCourses(courses: seq<Course>, selectedCategory: string, searchQuery: string): (r: seq<Course>)
    ensures |r| <= |courses|
    ensures forall i :: 0 <= i < |r| ==> r[i] in courses && MatchesCategory(r[i], selectedCategory) && MatchesSearch(r[i], searchQuery)
    ensures selectedCategory != "All" ==> forall i :: 0 <= i < |r| ==> r[i].category == selectedCategory
  {
    Filter(courses, c => MatchesCategory(c, selectedCategory) && MatchesSearch(c, searchQuery))
  }

  /** The filter keeps the catalogue's order: the result is a subsequence. */
  lemma FilteredCoursesKeepOrder(courses: seq<Course>, selectedCategory: string, searchQuery: string)
    ensures IsSubsequence(FilteredCourses(courses, selectedCategory, searchQuery), courses)
  {
    FilterIsSubsequence(courses, c => MatchesCategory(c, selectedCategory) && MatchesSearch(c, searchQuery));
  }

  /** A course is shown exactly when its category matches and the query occurs,
      case-insensitively, at some position of its title or description. */
  lemma FilteredCoursesExactly(courses: seq<Course>, selectedCategory: string, searchQuery: string, c: Course)
    ensures c in FilteredCourses(courses, selectedCategory, searchQuery) <==>
      c in courses && MatchesCategory(c, selectedCategory)
      && ((exists i :: OccursAt(ToLower(c.title), ToLower(searchQuery), i))
          || (exists i :: OccursAt(ToLower(c.description), ToLower(searchQuery), i)))
  {
    FilterMembership(courses, c => MatchesCategory(c, selectedCategory) && MatchesSearch(c, searchQuery), c);
    IncludesIffOccurs(ToLower(c.title), ToLower(searchQuery));
    IncludesIffOccurs(ToLower(c.description), ToLower(searchQuery));
  }

  /** The search box is case-insensitive: typing the query in lower case shows
      the same courses as typing it in any case. */
  lemma SearchIgnoresQueryCase(courses: seq<Course>, selectedCategory: string, searchQuery: string, c: Course)
    ensures MatchesSearch(c, ToLower(searchQuery)) == MatchesSearch(c, searchQuery)
    ensures c in FilteredCourses(courses, selectedCategory, ToLower(searchQuery)) <==>
      c in FilteredCourses(courses, selectedCategory, searchQuery)
  {
    ToLowerIdempotent(searchQuery);
    FilterMembership(courses, c => MatchesCategory(c, selectedCategory) && MatchesSearch(c, searchQuery), c);
    FilterMembership(courses, c => MatchesCategory(c, selectedCategory) && MatchesSearch(c, ToLower(searchQuery)), c);
  }

  /** With the 'All' chip and an empty search box every course is shown, in order. */
  lemma UnfilteredCatalogue(courses: seq<Course>)
    ensures FilteredCourses(courses, "All", "") == courses
  {
    forall i | 0 <= i < |courses|
      ensures MatchesSearch(courses[i], "")
    {
      IncludesEmpty(ToLower(courses[i].title));
    }
    FilterAll(courses, c => MatchesCategory(c, "All") && MatchesSearch(c, ""));
  }

  /** `availableCategories`: 'All' in front of the configured categories. */
  function AvailableCategories(settings: Option<Settings>): (r: seq<string>)
    ensures |r| >= 1 && r[0] == "All"
    ensures settings.None? ==> r == ["All"]
    ensures settings.Some? ==> |r| == 1 + |settings.value.categories|
                               && forall i :: 0 <= i < |settings.value.categories| ==> r[i + 1] == settings.value.categories[i]
  {
    ["All"] + (if settings.Some? then settings.value.categories else [])
  }

  /** What the main area shows. */
  datatype Panel = Dashboard | InfoPage | Catalogue

  /** The main area's choice: the dashboard only for the administrator on the
      admin view, the info page only with a topic, otherwise the catalogue. */
  function MainPanel(currentView: View, auth: AuthState, activeInfoTopic: Option<string>): (p: Panel)
    ensures p == Dashboard <==> currentView == AdminView && auth.user.Some? && auth.user.value.role == ADMIN
    ensures p == InfoPage <==> currentView == Info && activeInfoTopic.Some?
    ensures auth.user.None? ==> p != Dashboard
  {
    if currentView == AdminView && auth.user.Some? && auth.user.value.role == ADMIN then Dashboard
    else if currentView == Info && activeInfoTopic.Some? then InfoPage
    else Catalogue
  }

  /** The page's state that the modelled handlers change. */
  class Shell {
    var auth: AuthState
    var currentView: View
    var showAuthModal: bool
    /** The `active_session` key; `None` while absent. */
    var session: Option<User>

    /** Authenticated exactly when a user is held. */
    ghost predicate Valid()
      reads this
    {
      auth.isAuthenticated <==> auth.user.Some?
    }

    /** The page as first rendered, with whatever session the browser kept. */
    constructor (session: Option<User>)
      ensures Valid()
      ensures auth == AuthState(None, false) && currentView == Home && !showAuthModal
      ensures this.session == session
    {
      auth := AuthState(None, false);
      currentView := Home;
      showAuthModal := false;
      this.session := session;
    }

    /** `handleLogin`: authenticated as `user`, session stored, dialog closed. */
    method HandleLogin(user: User)
      modifies this
      ensures Valid()
      ensures auth == AuthState(Some(user), true) && session == Some(user) && !showAuthModal
      ensures currentView == old(currentView)
    {
      auth := AuthState(Some(user), true);
      session := Some(user);
      showAuthModal := false;
    }

    /** `handleLogout`: no user, session removed, back on the home view. */
    method HandleLogout()
      modifies this
      ensures Valid()
      ensures auth == AuthState(None, false) && session == None && currentView == Home
      ensures showAuthModal == old(showAuthModal)
    {
      auth := AuthState(None, false);
      session := None;
      currentView := Home;
    }

    /** Session restoration in `initApp`: with a saved session whose id is
        still among `users` (the list `getStoredUsers` yielded), the fresh
        record becomes the authenticated user; otherwise nothing changes. */
    method RestoreSession(users: seq<User>)
      requires Valid()
      modifies this
      ensures Valid()
      ensures session == old(session) && currentView == old(currentView) && showAuthModal == old(showAuthModal)
      ensures old(session).Some? && !UnknownUser(users, old(session).value.id) ==>
        auth.isAuthenticated && auth.user.Some? && auth.user.value in users
        && auth.user.value.id == old(session).value.id
        && auth.user.value == users[FindById(users, old(session).value.id).value]
      ensures old(session).None? || UnknownUser(users, old(session).value.id) ==> auth == old(auth)
    {
      if session.Some? {
        var k := FindById(users, session.value.id);
        if k.Some? {
          auth := AuthState(Some(users[k.value]), true);
        }
      }
    }

    /** `refreshUserData`: the held user is replaced by its fresh record, if any. */
    method RefreshUser(users: seq<User>)
      requires Valid()
      modifies this
      ensures Valid()
      ensures session == old(session) && currentView == old(currentView) && showAuthModal == old(showAuthModal)
      ensures auth.isAuthenticated == old(auth.isAuthenticated)
      ensures old(auth.user).Some? && !UnknownUser(users, old(auth.user).value.id) ==>
        auth.user == Some(users[FindById(users, old(auth.user).value.id).value])
      ensures old(auth.user).None? || UnknownUser(users, old(auth.user).value.id) ==> auth == old(auth)
    {
      if auth.user.Some? {
        var k := FindById(users, auth.user.value.id);
        if k.Some? {
          auth := auth.(user := Some(users[k.value]));
        }
      }
    }
  }

  /** Logging out always takes the dashboard away, whatever view was open. */
  method LogoutHidesDashboard(shell: Shell, topic: Option<string>)
    modifies shell
    ensures MainPanel(shell.currentView, shell.auth, topic) != Dashboard
  {
    shell.HandleLogout();
  }
}
