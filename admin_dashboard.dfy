/** The derived views of the administrator console in
    components/AdminDashboard.tsx: the pending-request table, the seeker
    search, the "last seen" label, the manual-grant list and the presence
    counters. Parsing an ISO timestamp is a parameter `toMs` (`None` for a
    string that is not a date); the current time is `now`, in milliseconds. */
module AdminDashboard {
  import opened JsValues
  import opened Seqs
  import opened Text
  import opened Types
  import opened Enrollment

  // ---------------------------------------------------------------- requests

  /** The first course of `catalogue` with this id. */
  function FindCourse(catalogue: seq<Course>, courseId: string): (k: Option<nat>)
    ensures k.Some? ==> k.value < |catalogue| && catalogue[k.value].id == courseId
    ensures k.Some? ==> forall j :: 0 <= j < k.value ==> catalogue[j].id != courseId
    ensures k.None? <==> forall j :: 0 <= j < |catalogue| ==> catalogue[j].id != courseId
  {
    if catalogue == [] then None
    else if catalogue[0].id == courseId then Some(0)
    else
      match FindCourse(catalogue[1..], courseId)
      case None => None
      case Some(k) => Some(k + 1)
  }

  /** Position `k` holds the first course with this id. */
  predicate IsFirstWithId(catalogue: seq<Course>, k: int, courseId: string)
    requires 0 <= k < |catalogue|
  {
    catalogue[k].id == courseId && forall j :: 0 <= j < k ==> catalogue[j].id != courseId
  }

  const UnknownCourse: string := "Unknown Course"

  /** `find(c => c.id === courseId)?.title || 'Unknown Course'`. */
  function CourseTitle(catalogue: seq<Course>, courseId: string): (t: string)
    ensures (forall j :: 0 <= j < |catalogue| ==> catalogue[j].id != courseId) ==> t == UnknownCourse
    ensures forall k :: 0 <= k < |catalogue| && IsFirstWithId(catalogue, k, courseId) && catalogue[k].title != "" ==>
      t == catalogue[k].title
    ensures forall k :: 0 <= k < |catalogue| && IsFirstWithId(catalogue, k, courseId) && catalogue[k].title == "" ==>
      t == UnknownCourse
    ensures t != ""
  {
    var k := FindCourse(catalogue, courseId);
    if k.Some? && catalogue[k.value].title != "" then catalogue[k.value].title else UnknownCourse
  }

  /** Against the built-in catalogue: known ids get their title, others the fallback. */
  lemma CatalogueTitles()
    ensures CourseTitle(MockCourses, "2") == "Advanced Java Spring Boot Microservices"
    ensures CourseTitle(MockCourses, "courseA") == UnknownCourse
  {
    assert MockCourses[0].id == "1";
    assert MockCourses[1].id == "2";
    assert MockCourses[2].id == "3";
  }

  /** One row of the pending-request table. */
  datatype PendingRequest = PendingRequest(userId: string, userEmail: string, courseId: string, courseTitle: string)

  /** The rows for one user, in the order of its pending list. */
  function RequestsOf(u: User, catalogue: seq<Course>): (r: seq<PendingRequest>)
    ensures |r| == |u.pendingUnlocks|
    ensures forall i :: 0 <= i < |r| ==>
      r[i] == PendingRequest(u.id, u.email, u.pendingUnlocks[i], CourseTitle(catalogue, u.pendingUnlocks[i]))
  {
    seq(|u.pendingUnlocks|, i requires 0 <= i < |u.pendingUnlocks| =>
      PendingRequest(u.id, u.email, u.pendingUnlocks[i], CourseTitle(catalogue, u.pendingUnlocks[i])))
  }

  /** How many requests are pending over all users. */
  function TotalPending(users: seq<User>): nat
    decreases |users|
  {
    if users == [] then 0 else |users[0].pendingUnlocks| + TotalPending(users[1..])
  }

  /** `pendingRequests`: the rows of every user, users in list order. */
  function PendingRequests(users: seq<User>, catalogue: seq<Course>): (r: seq<PendingRequest>)
    ensures |r| == TotalPending(users)
    decreases |users|
  {
    if users == [] then [] else RequestsOf(users[0], catalogue) + PendingRequests(users[1..], catalogue)
  }

  /** The table of a concatenation is the two tables one after the other:
      rows are grouped by user, in user order. */
  lemma {:induction false} PendingRequestsAppend(a: seq<User>, b: seq<User>, catalogue: seq<Course>)
    ensures PendingRequests(a + b, catalogue) == PendingRequests(a, catalogue) + PendingRequests(b, catalogue)
    decreases |a|
  {
    if a != [] {
      assert (a + b)[1..] == a[1..] + b;
      PendingRequestsAppend(a[1..], b, catalogue);
    } else {
      assert a + b == b;
    }
  }

  /** Every pending (user, course) pair has its row. */
  lemma {:induction false} PendingRequestsComplete(users: seq<User>, catalogue: seq<Course>, u: User, c: string)
    requires u in users && c in u.pendingUnlocks
    ensures PendingRequest(u.id, u.email, c, CourseTitle(catalogue, c)) in PendingRequests(users, catalogue)
    decreases |users|
  {
    if users[0] == u {
      var i :| 0 <= i < |u.pendingUnlocks| && u.pendingUnlocks[i] == c;
      assert RequestsOf(u, catalogue)[i] == PendingRequest(u.id, u.email, c, CourseTitle(catalogue, c));
    } else {
      PendingRequestsComplete(users[1..], catalogue, u, c);
    }
  }

  /** Every row comes from a pending (user, course) pair. */
  lemma {:induction false} PendingRequestsSound(users: seq<User>, catalogue: seq<Course>, e: PendingRequest)
    requires e in PendingRequests(users, catalogue)
    ensures exists u :: u in users && e.courseId in u.pendingUnlocks
                        && e == PendingRequest(u.id, u.email, e.courseId, CourseTitle(catalogue, e.courseId))
    decreases |users|
  {
    if e in RequestsOf(users[0], catalogue) {
      var i :| 0 <= i < |users[0].pendingUnlocks| && RequestsOf(users[0], catalogue)[i] == e;
      assert users[0] in users && e.courseId in users[0].pendingUnlocks;
    } else {
      PendingRequestsSound(users[1..], catalogue, e);
      var u :| u in users[1..] && e.courseId in u.pendingUnlocks
               && e == PendingRequest(u.id, u.email, e.courseId, CourseTitle(catalogue, e.courseId));
      assert u in users;
    }
  }

  /** Approving a request takes its row out of the table. */
  lemma ApprovedRequestLeavesTable(u: User, courseId: string, now: string, catalogue: seq<Course>)
    ensures forall e :: e in RequestsOf(Approved(u, courseId, now), catalogue) ==> e.courseId != courseId
  {
  }

  // ------------------------------------------------------------------ seekers

  /** The lower-cased query occurs in the lower-cased email. */
  predicate EmailMatches(u: User, searchQuery: string)
  {
    Includes(ToLower(u.email), ToLower(searchQuery))
  }

  /** `filteredUsers`: the users whose email contains the query, case-insensitively. */
  function FilteredUsers(users: seq<User>, searchQuery: string): (r: seq<User>)
    ensures |r| <= |users|
    ensures forall i :: 0 <= i < |r| ==> r[i] in users && EmailMatches(r[i], searchQuery)
  {
    Filter(users, u => EmailMatches(u, searchQuery))
  }

  /** The search keeps the users' order and keeps exactly the users whose
      email has an occurrence of the query. */
  lemma FilteredUsersExactly(users: seq<User>, searchQuery: string, u: User)
    ensures IsSubsequence(FilteredUsers(users, searchQuery), users)
    ensures u in FilteredUsers(users, searchQuery) <==>
      u in users && exists i :: OccursAt(ToLower(u.email), ToLower(searchQuery), i)
  {
    FilterIsSubsequence(users, u => EmailMatches(u, searchQuery));
    FilterMembership(users, u => EmailMatches(u, searchQuery), u);
    IncludesIffOccurs(ToLower(u.email), ToLower(searchQuery));
  }

  /** An empty search box lists every user. */
  lemma EmptySearchListsAll(users: seq<User>)
    ensures FilteredUsers(users, "") == users
  {
    forall i | 0 <= i < |users|
      ensures EmailMatches(users[i], "")
    {
      IncludesEmpty(ToLower(users[i].email));
    }
    FilterAll(users, u => EmailMatches(u, ""));
  }

  // ---------------------------------------------------------------- last seen

  /** The label `formatLastSeen` chooses. */
  datatype LastSeen =
    | Never
    | JustNow
    | MinutesAgo(minutes: nat)
    | ClockTime(at: string)   // the locale time of day of `at`

  /** `formatLastSeen(lastActive)`; `toMs` parses the timestamp. */
  function FormatLastSeen(lastActive: Option<string>, toMs: string -> Option<int>, now: int): (r: LastSeen)
    ensures r == Never <==> lastActive.None? || lastActive.value == ""
    ensures r == JustNow <==>
      lastActive.Some? && lastActive.value != "" && toMs(lastActive.value).Some? && now - toMs(lastActive.value).value < 60000
    ensures r.MinutesAgo? ==> 1 <= r.minutes <= 59
    ensures r.MinutesAgo? ==>
      lastActive.Some? && toMs(lastActive.value).Some?
      && var diff := now - toMs(lastActive.value).value;
         60000 <= diff < 3600000 && r.minutes * 60000 <= diff < (r.minutes + 1) * 60000
    ensures r.ClockTime? ==> lastActive == Some(r.at)
    ensures r.ClockTime? <==>
      lastActive.Some? && lastActive.value != ""
      && (toMs(lastActive.value).None? || now - toMs(lastActive.value).value >= 3600000)
  {
    if lastActive.None? || lastActive.value == "" then Never
    else
      var date := toMs(lastActive.value);
      if date.None? then ClockTime(lastActive.value)   // NaN fails both comparisons
      else
        var diff := now - date.value;
        if diff < 60000 then JustNow
        else if diff < 3600000 then MinutesAgo(diff / 60000)
        else ClockTime(lastActive.value)
  }

  /** The text of a minutes label: the decimal count followed by "m ago". */
  function MinutesLabel(minutes: nat): (s: string)
    ensures s == Decimal(minutes) + "m ago"
    ensures |s| > 5 && s[|s| - 5..] == "m ago"
    ensures forall i :: 0 <= i < |s| - 5 ==> '0' <= s[i] <= '9'
    ensures |s| > 6 ==> s[0] != '0'
    ensures DigitsValue(s[..|s| - 5]) == minutes
  {
    DecimalRoundTrip(minutes);
    assert (Decimal(minutes) + "m ago")[..|Decimal(minutes)|] == Decimal(minutes);
    Decimal(minutes) + "m ago"
  }

  /** The text of the labels other than the clock time. */
  function Label(ls: LastSeen): (s: Option<string>)
    ensures ls == Never ==> s == Some("Never")
    ensures ls == JustNow ==> s == Some("Just now")
    ensures ls.MinutesAgo? ==> s == Some(MinutesLabel(ls.minutes))
    ensures ls.ClockTime? <==> s.None?
  {
    match ls
    case Never => Some("Never")
    case JustNow => Some("Just now")
    case MinutesAgo(m) => Some(MinutesLabel(m))
    case ClockTime(_) => None
  }

  /** A timestamp ahead of the clock reads "Just now". */
  lemma FutureTimestampIsJustNow(at: string, toMs: string -> Option<int>, now: int)
    requires at != "" && toMs(at).Some? && toMs(at).value >= now
    ensures FormatLastSeen(Some(at), toMs, now) == JustNow
  {
  }

  /** Labels only move forward as the clock advances: never back from minutes
      to "Just now", and the minute count does not decrease. */
  lemma LastSeenAdvances(lastActive: Option<string>, toMs: string -> Option<int>, now: int, later: int)
    requires now <= later
    requires FormatLastSeen(lastActive, toMs, now).MinutesAgo?
    ensures FormatLastSeen(lastActive, toMs, later) != JustNow
    ensures FormatLastSeen(lastActive, toMs, later).MinutesAgo? ==>
      FormatLastSeen(lastActive, toMs, now).minutes <= FormatLastSeen(lastActive, toMs, later).minutes
  {
  }

  // ------------------------------------------------------------------- grant

  predicate NotEnrolled(c: Course, u: User)
  {
    c.id !in u.enrolledCourses
  }

  /** The manual-grant list: the catalogue courses the user is not enrolled in. */
  function GrantableCourses(catalogue: seq<Course>, u: User): (r: seq<Course>)
    ensures IsSubsequence(r, catalogue)
    ensures forall i :: 0 <= i < |r| ==> r[i] in catalogue && r[i].id !in u.enrolledCourses
  {
    FilterIsSubsequence(catalogue, (c: Course) => NotEnrolled(c, u));
    Filter(catalogue, (c: Course) => NotEnrolled(c, u))
  }

  /** A course is offered exactly when it is in the catalogue and not enrolled. */
  lemma GrantableExactly(catalogue: seq<Course>, u: User, c: Course)
    ensures c in GrantableCourses(catalogue, u) <==> c in catalogue && c.id !in u.enrolledCourses
  {
    FilterMembership(catalogue, (c: Course) => NotEnrolled(c, u), c);
  }

  /** Once granted, a course is no longer offered; after a lock it is offered again. */
  lemma GrantThenLockOffersAgain(catalogue: seq<Course>, u: User, c: Course, now: string)
    requires c in catalogue
    ensures c !in GrantableCourses(catalogue, Approved(u, c.id, now))
    ensures c in GrantableCourses(catalogue, Locked(Approved(u, c.id, now), c.id, now))
  {
    GrantableExactly(catalogue, Approved(u, c.id, now), c);
    GrantableExactly(catalogue, Locked(Approved(u, c.id, now), c.id, now), c);
  }

  // ---------------------------------------------------------------- presence

  const ActiveWindow: int := 300000
  const OnlineWindow: int := 600000

  /** Seen within `window` milliseconds of `now`. */
  predicate SeenWithin(u: User, toMs: string -> Option<int>, now: int, window: int)
  {
    u.lastActive.Some? && u.lastActive.value != "" && toMs(u.lastActive.value).Some?
    && now - toMs(u.lastActive.value).value < window
  }

  /** Counted under "Active (5m)". */
  predicate IsActive(u: User, toMs: string -> Option<int>, now: int)
  {
    SeenWithin(u, toMs, now, ActiveWindow)
  }

  /** Shown with the online dot. */
  predicate IsOnline(u: User, toMs: string -> Option<int>, now: int)
  {
    SeenWithin(u, toMs, now, OnlineWindow)
  }

  /** The "Active (5m)" counter. */
  function ActiveCount(users: seq<User>, toMs: string -> Option<int>, now: int): (n: nat)
    ensures n <= |users|
    ensures n == |set i | 0 <= i < |users| && IsActive(users[i], toMs, now)|
  {
    var keep := u => IsActive(u, toMs, now);
    FilterCountsIndexes(users, keep, 0);
    assert users[0..] == users;
    assert KeptIndexes(users, keep, 0) == set i | 0 <= i < |users| && IsActive(users[i], toMs, now);
    |Filter(users, keep)|
  }

  /** Every active user is online, so the counter never exceeds the online dots. */
  lemma ActiveUsersAreOnline(users: seq<User>, toMs: string -> Option<int>, now: int)
    ensures forall u :: IsActive(u, toMs, now) ==> IsOnline(u, toMs, now)
    ensures ActiveCount(users, toMs, now) <= |Filter(users, u => IsOnline(u, toMs, now))|
  {
    FilterWeakerKeepsMore(users, u => IsActive(u, toMs, now), u => IsOnline(u, toMs, now));
  }
}
