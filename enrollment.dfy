/** The enrollment rules that the browser store (services/db.ts) and the
    serverless backend (AWS_LAMBDA_PROXY.js) both apply to a user record, and
    the list-level operations of the browser store's local fallback. */
module Enrollment {
  import opened JsValues
  import opened Seqs
  import opened Types

  // ---------------------------------------------------------------------------
  // One user record

  /** The user's identity and role are the same in `u` and `v`. */
  predicate SameAccount(u: User, v: User)
  {
    v.id == u.id && v.email == u.email && v.pin == u.pin && v.role == u.role
  }

  /** Effect of an unlock request on its target: the course joins the pending
      list at the end, unless it is already there, in which case nothing changes. */
  function Requested(u: User, courseId: string, now: string): (v: User)
    ensures SameAccount(u, v) && v.enrolledCourses == u.enrolledCourses
    ensures v.enrollmentDates == u.enrollmentDates
    ensures courseId in v.pendingUnlocks
    ensures forall c :: c in v.pendingUnlocks <==> c in u.pendingUnlocks || c == courseId
    ensures |u.pendingUnlocks| <= |v.pendingUnlocks| && v.pendingUnlocks[..|u.pendingUnlocks|] == u.pendingUnlocks
    ensures NoDups(u.pendingUnlocks) ==> NoDups(v.pendingUnlocks)
    ensures courseId in u.pendingUnlocks ==> v == u
    ensures courseId !in u.pendingUnlocks ==> |v.pendingUnlocks| == |u.pendingUnlocks| + 1 && v.lastActive == Some(now)
  {
    if courseId in u.pendingUnlocks then u
    else u.(pendingUnlocks := u.pendingUnlocks + [courseId], lastActive := Some(now))
  }

  /** Effect of an approval on its target: the course leaves the pending list and
      is enrolled exactly once; the enrolled list loses its duplicates. */
  function Approved(u: User, courseId: string, now: string): (v: User)
    ensures SameAccount(u, v) && v.enrollmentDates == u.enrollmentDates
    ensures v.lastActive == Some(now)
    ensures courseId !in v.pendingUnlocks
    ensures forall c :: c != courseId ==> multiset(v.pendingUnlocks)[c] == multiset(u.pendingUnlocks)[c]
    ensures IsSubsequence(v.pendingUnlocks, u.pendingUnlocks)
    ensures courseId in v.enrolledCourses && multiset(v.enrolledCourses)[courseId] == 1
    ensures NoDups(v.enrolledCourses)
    ensures forall c :: c in v.enrolledCourses <==> c in u.enrolledCourses || c == courseId
  {
    var enrolled := Dedup(u.enrolledCourses + [courseId]);
    NoDupsOccursOnce(enrolled, courseId);
    u.(pendingUnlocks := RemoveAll(u.pendingUnlocks, courseId),
       enrolledCourses := enrolled,
       lastActive := Some(now))
  }

  /** Approval keeps the enrolled courses in the order of their first occurrence. */
  lemma ApprovedKeepsFirstOccurrenceOrder(u: User, courseId: string, now: string)
    ensures var e := Approved(u, courseId, now).enrolledCourses;
            forall i, j :: 0 <= i < j < |e| ==>
              FirstIndex(u.enrolledCourses + [courseId], e[i]) < FirstIndex(u.enrolledCourses + [courseId], e[j])
  {
    DedupFirstOccurrenceOrder(u.enrolledCourses + [courseId]);
  }

  /** On a duplicate-free enrolled list, approval appends the course if it is new
      and otherwise leaves the list as it was. */
  lemma ApprovedOnDuplicateFreeList(u: User, courseId: string, now: string)
    requires NoDups(u.enrolledCourses)
    ensures Approved(u, courseId, now).enrolledCourses ==
            if courseId in u.enrolledCourses then u.enrolledCourses else u.enrolledCourses + [courseId]
  {
    DedupAppend(u.enrolledCourses, courseId);
  }

  /** Effect of locking a course on its target: every occurrence leaves the
      enrolled list; the pending list is untouched. */
  function Locked(u: User, courseId: string, now: string): (v: User)
    ensures SameAccount(u, v) && v.enrollmentDates == u.enrollmentDates
    ensures v.lastActive == Some(now)
    ensures courseId !in v.enrolledCourses
    ensures forall c :: c != courseId ==> multiset(v.enrolledCourses)[c] == multiset(u.enrolledCourses)[c]
    ensures IsSubsequence(v.enrolledCourses, u.enrolledCourses)
    ensures v.pendingUnlocks == u.pendingUnlocks
  {
    u.(enrolledCourses := RemoveAll(u.enrolledCourses, courseId), lastActive := Some(now))
  }

  /** No course is both enrolled and pending. */
  ghost predicate Exclusive(u: User)
  {
    forall c :: c in u.enrolledCourses ==> c !in u.pendingUnlocks
  }

  /** Approving keeps enrolled and pending apart. */
  lemma ApprovedKeepsExclusive(u: User, courseId: string, now: string)
    requires Exclusive(u)
    ensures Exclusive(Approved(u, courseId, now))
  {
    var v := Approved(u, courseId, now);
    forall c | c in v.enrolledCourses
      ensures c !in v.pendingUnlocks
    {
      if c != courseId {
        assert multiset(v.pendingUnlocks)[c] == multiset(u.pendingUnlocks)[c] == 0;
      }
    }
  }

  /** Locking keeps enrolled and pending apart. */
  lemma LockedKeepsExclusive(u: User, courseId: string, now: string)
    requires Exclusive(u)
    ensures Exclusive(Locked(u, courseId, now))
  {
    var v := Locked(u, courseId, now);
    forall c | c in v.enrolledCourses
      ensures c !in v.pendingUnlocks
    {
      assert multiset(v.enrolledCourses)[c] > 0;
      assert c in u.enrolledCourses;
    }
  }

  /** A request keeps enrolled and pending apart only when the course is not
      enrolled already: the request itself does not check. */
  lemma RequestedKeepsExclusive(u: User, courseId: string, now: string)
    requires Exclusive(u) && courseId !in u.enrolledCourses
    ensures Exclusive(Requested(u, courseId, now))
  {
  }

  /** A request for an enrolled course puts it in both lists. */
  lemma RequestForEnrolledCourse(u: User, courseId: string, now: string)
    requires courseId in u.enrolledCourses
    ensures !Exclusive(Requested(u, courseId, now))
  {
    var v := Requested(u, courseId, now);
    assert courseId in v.enrolledCourses && courseId in v.pendingUnlocks;
  }

  /** Approve then lock: the course ends up in neither list. */
  lemma ApproveThenLock(u: User, courseId: string, t1: string, t2: string)
    ensures var v := Locked(Approved(u, courseId, t1), courseId, t2);
            courseId !in v.enrolledCourses && courseId !in v.pendingUnlocks
  {
  }

  // ---------------------------------------------------------------------------
  // The user list of the local fallback

  /** `users.map(u => u.id === userId ? f(u) : u)`. */
  function MapUser(users: seq<User>, userId: string, f: User -> User): (r: seq<User>)
    ensures |r| == |users|
    ensures forall i :: 0 <= i < |users| && users[i].id != userId ==> r[i] == users[i]
    ensures forall i :: 0 <= i < |users| && users[i].id == userId ==> r[i] == f(users[i])
  {
    seq(|users|, i requires 0 <= i < |users| => if users[i].id == userId then f(users[i]) else users[i])
  }

  /** The list after `requestUnlock(userId, courseId)` in local mode. */
  function RequestUnlockIn(users: seq<User>, userId: string, courseId: string, now: string): (r: seq<User>)
    ensures |r| == |users|
    ensures forall i :: 0 <= i < |users| ==> SameAccount(users[i], r[i])
    ensures forall i :: 0 <= i < |users| && users[i].id != userId ==> r[i] == users[i]
    ensures forall i :: 0 <= i < |users| && users[i].id == userId ==> r[i] == Requested(users[i], courseId, now)
  {
    MapUser(users, userId, u => Requested(u, courseId, now))
  }

  /** The list after `approveUnlock(userId, courseId)` in local mode. */
  function ApproveUnlockIn(users: seq<User>, userId: string, courseId: string, now: string): (r: seq<User>)
    ensures |r| == |users|
    ensures forall i :: 0 <= i < |users| ==> SameAccount(users[i], r[i])
    ensures forall i :: 0 <= i < |users| && users[i].id != userId ==> r[i] == users[i]
    ensures forall i :: 0 <= i < |users| && users[i].id == userId ==> r[i] == Approved(users[i], courseId, now)
  {
    MapUser(users, userId, u => Approved(u, courseId, now))
  }

  /** The list after `lockCourse(userId, courseId)` in local mode. */
  function LockCourseIn(users: seq<User>, userId: string, courseId: string, now: string): (r: seq<User>)
    ensures |r| == |users|
    ensures forall i :: 0 <= i < |users| ==> SameAccount(users[i], r[i])
    ensures forall i :: 0 <= i < |users| && users[i].id != userId ==> r[i] == users[i]
    ensures forall i :: 0 <= i < |users| && users[i].id == userId ==> r[i] == Locked(users[i], courseId, now)
  {
    MapUser(users, userId, u => Locked(u, courseId, now))
  }

  /** No stored user carries `userId`. */
  predicate UnknownUser(users: seq<User>, userId: string)
  {
    forall i :: 0 <= i < |users| ==> users[i].id != userId
  }

  /** An unknown user id leaves every record as it was. */
  lemma UnknownUserLeavesListUnchanged(users: seq<User>, userId: string, courseId: string, now: string)
    requires UnknownUser(users, userId)
    ensures RequestUnlockIn(users, userId, courseId, now) == users
    ensures ApproveUnlockIn(users, userId, courseId, now) == users
    ensures LockCourseIn(users, userId, courseId, now) == users
  {
    assert RequestUnlockIn(users, userId, courseId, now) == users;
    assert ApproveUnlockIn(users, userId, courseId, now) == users;
    assert LockCourseIn(users, userId, courseId, now) == users;
  }

  /** Requesting the same unlock twice is the same as requesting it once, even
      the second timestamp is not recorded. */
  lemma RequestUnlockIdempotent(users: seq<User>, userId: string, courseId: string, t1: string, t2: string)
    ensures var once := RequestUnlockIn(users, userId, courseId, t1);
            RequestUnlockIn(once, userId, courseId, t2) == once
  {
    var once := RequestUnlockIn(users, userId, courseId, t1);
    var twice := RequestUnlockIn(once, userId, courseId, t2);
    forall i | 0 <= i < |users|
      ensures twice[i] == once[i]
    {
    }
  }

  /** A request never duplicates a pending course id. */
  lemma RequestUnlockKeepsPendingDuplicateFree(users: seq<User>, userId: string, courseId: string, now: string)
    requires forall i :: 0 <= i < |users| ==> NoDups(users[i].pendingUnlocks)
    ensures var r := RequestUnlockIn(users, userId, courseId, now);
            forall i :: 0 <= i < |r| ==> NoDups(r[i].pendingUnlocks)
  {
  }

  // ---------------------------------------------------------------------------
  // Seeding, registration and login in local mode

  /** The administrator record written on first access. */
  function AdminSeed(now: string): User
  {
    User("admin", AdminEmail, AdminPin, ADMIN, [], [], None, Some(now))
  }

  /** The list `getStoredUsers` returns in local mode, given the stored list
      (`None` when the storage key is absent). */
  function Seeded(saved: Option<seq<User>>, now: string): (r: seq<User>)
    ensures saved.None? ==> |r| == 1 && r[0].id == "admin" && r[0].role == ADMIN
                            && r[0].email == AdminEmail && r[0].pin == AdminPin
                            && r[0].enrolledCourses == [] && r[0].pendingUnlocks == []
    ensures saved.Some? ==> r == saved.value
  {
    if saved.None? then [AdminSeed(now)] else saved.value
  }

  /** Some stored user has exactly this email (no trimming, no case folding). */
  predicate EmailTaken(users: seq<User>, email: string)
  {
    exists i :: 0 <= i < |users| && users[i].email == email
  }

  /** The record `registerUser` creates. */
  function NewLearner(id: string, email: string, pin: string, now: string): User
  {
    User(id, email, pin, USER, [], [], None, Some(now))
  }

  /** Outcome of a local registration: the user returned (or null) and the list. */
  datatype Registration = Registration(result: Option<User>, users: seq<User>)

  /** `registerUser` in local mode over the list `users`. */
  function RegisterIn(users: seq<User>, email: string, pin: string, newId: string, now: string): (reg: Registration)
    ensures EmailTaken(users, email) <==> reg.result.None?
    ensures reg.result.None? ==> reg.users == users
    ensures reg.result.Some? ==> reg.users == users + [reg.result.value]
    ensures reg.result.Some? ==> var u := reg.result.value;
      u.id == newId && u.email == email && u.pin == pin && u.role == USER
      && u.enrolledCourses == [] && u.pendingUnlocks == []
  {
    if EmailTaken(users, email) then Registration(None, users)
    else
      var u := NewLearner(newId, email, pin, now);
      Registration(Some(u), users + [u])
  }

  /** Registering an email a second time fails, whatever the PINs. */
  lemma RegisterTwiceFails(users: seq<User>, email: string, pin1: string, pin2: string,
                           id1: string, id2: string, t1: string, t2: string)
    requires RegisterIn(users, email, pin1, id1, t1).result.Some?
    ensures RegisterIn(RegisterIn(users, email, pin1, id1, t1).users, email, pin2, id2, t2).result.None?
  {
    var after := RegisterIn(users, email, pin1, id1, t1).users;
    assert after[|users|].email == email;
  }

  /** `users.findIndex(u => u.email === email && u.pin === pin)`. */
  function FindLogin(users: seq<User>, email: string, pin: string): (k: Option<nat>)
    ensures k.Some? ==> k.value < |users| && users[k.value].email == email && users[k.value].pin == pin
    ensures k.Some? ==> forall j :: 0 <= j < k.value ==> !(users[j].email == email && users[j].pin == pin)
    ensures k.None? ==> forall j :: 0 <= j < |users| ==> !(users[j].email == email && users[j].pin == pin)
  {
    if users == [] then None
    else if users[0].email == email && users[0].pin == pin then Some(0)
    else
      match FindLogin(users[1..], email, pin)
      case None => None
      case Some(j) => Some(j + 1)
  }

  /** Outcome of a local login: the user returned (or null) and the list. */
  datatype LoginOutcome = LoginOutcome(result: Option<User>, users: seq<User>)

  /** `loginUser` in local mode: the first exact email-and-PIN match gets a
      fresh `lastActive`; nothing else changes. */
  function LoginIn(users: seq<User>, email: string, pin: string, now: string): (out: LoginOutcome)
    ensures |out.users| == |users|
    ensures out.result.None? <==> forall j :: 0 <= j < |users| ==> !(users[j].email == email && users[j].pin == pin)
    ensures out.result.None? ==> out.users == users
    ensures FindLogin(users, email, pin).Some? ==>
      var k := FindLogin(users, email, pin).value;
      && out.result == Some(out.users[k])
      && out.users[k] == users[k].(lastActive := Some(now))
      && (forall j :: 0 <= j < |users| && j != k ==> out.users[j] == users[j])
  {
    match FindLogin(users, email, pin)
    case None => LoginOutcome(None, users)
    case Some(k) =>
      var u := users[k].(lastActive := Some(now));
      LoginOutcome(Some(u), users[k := u])
  }

  /** A freshly registered user can log in with the same credentials and is the
      one found. */
  lemma LoginAfterRegister(users: seq<User>, email: string, pin: string, newId: string, t1: string, t2: string)
    requires RegisterIn(users, email, pin, newId, t1).result.Some?
    ensures var reg := RegisterIn(users, email, pin, newId, t1);
            LoginIn(reg.users, email, pin, t2).result == Some(reg.result.value.(lastActive := Some(t2)))
  {
    var reg := RegisterIn(users, email, pin, newId, t1);
    var k := FindLogin(reg.users, email, pin);
    assert reg.users[|users|].email == email && reg.users[|users|].pin == pin;
    assert k == Some(|users|);
  }

  /** `users.find(u => u.id === id)`, as an index. */
  function FindById(users: seq<User>, id: string): (k: Option<nat>)
    ensures k.Some? ==> k.value < |users| && users[k.value].id == id
    ensures k.Some? ==> forall j :: 0 <= j < k.value ==> users[j].id != id
    ensures k.None? <==> UnknownUser(users, id)
  {
    if users == [] then None
    else if users[0].id == id then Some(0)
    else
      match FindById(users[1..], id)
      case None => None
      case Some(j) => Some(j + 1)
  }
}
