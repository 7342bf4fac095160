/** The course dialog of components/CourseModal.tsx: who may watch, whether a
    request is pending, which video plays first, what the player area shows,
    and the effects of the "I Have Paid" button. */
module CourseModal {
  import opened JsValues
  import opened Types
  import opened Enrollment

  /** `isUnlocked`: free courses, enrolled users and administrators. */
  function IsUnlocked(course: Course, user: Option<User>): (b: bool)
    ensures course.isFree ==> b
    ensures user.Some? && user.value.role == ADMIN ==> b
    ensures !course.isFree && user.None? ==> !b
    ensures !course.isFree && user.Some? && user.value.role != ADMIN ==>
      (b <==> course.id in user.value.enrolledCourses)
  {
    course.isFree || (user.Some? && course.id in user.value.enrolledCourses) || (user.Some? && user.value.role == ADMIN)
  }

  /** `isPending`: the signed-in user has asked for this course. Nobody is
      pending while signed out. */
  function IsPending(course: Course, user: Option<User>): (b: bool)
    ensures user.None? ==> !b
    ensures user.Some? ==> (b <==> course.id in user.value.pendingUnlocks)
  {
    user.Some? && course.id in user.value.pendingUnlocks
  }

  /** The first video, if the course has any (a video record is always truthy). */
  function InitialVideo(course: Course): (v: Option<Video>)
    ensures course.videos == [] <==> v.None?
    ensures v.Some? ==> v.value in course.videos && v.value == course.videos[0]
  {
    if |course.videos| > 0 then Some(course.videos[0]) else None
  }

  /** What the player area shows. */
  datatype Screen =
    | Player(video: Video)
    | NoVideos
    | Scanner        // the QR code and the "I Have Paid" button
    | PendingNotice
    | UnlockOffer    // the "Unlock Now" button

  /** The player area: the video when unlocked; otherwise the scanner, the
      pending notice or the offer to unlock. */
  function ScreenFor(course: Course, user: Option<User>, showScanner: bool, activeVideo: Option<Video>): (s: Screen)
    ensures s.Player? || s == NoVideos <==> IsUnlocked(course, user)
    ensures s.Player? ==> activeVideo == Some(s.video)
    ensures IsUnlocked(course, user) && activeVideo.Some? ==> s == Player(activeVideo.value)
    ensures IsUnlocked(course, user) && activeVideo.None? ==> s == NoVideos
    ensures s == Scanner <==> !IsUnlocked(course, user) && showScanner
    ensures s == PendingNotice <==> !IsUnlocked(course, user) && !showScanner && IsPending(course, user)
    ensures s == UnlockOffer <==> !IsUnlocked(course, user) && !showScanner && !IsPending(course, user)
  {
    if IsUnlocked(course, user) then
      if activeVideo.Some? then Player(activeVideo.value) else NoVideos
    else if showScanner then Scanner
    else if IsPending(course, user) then PendingNotice
    else UnlockOffer
  }

  /** What `handleRequestUnlock` asks of the rest of the application. */
  datatype Effect =
    | AuthRequired                                   // `onAuthRequired()`
    | SendRequestUnlock(userId: string, courseId: string)  // `db.requestUnlock(...)`
    | RefreshUser                                    // `onRefreshUser()`

  /** The dialog's own state. */
  class Modal {
    var showScanner: bool
    var activeVideo: Option<Video>

    /** The dialog as it opens: the first video selected, no scanner. */
    constructor (course: Course)
      ensures activeVideo == InitialVideo(course) && !showScanner
    {
      activeVideo := InitialVideo(course);
      showScanner := false;
    }

    /** "Unlock Now": the scanner appears. */
    method OpenScanner()
      modifies this
      ensures showScanner && activeVideo == old(activeVideo)
    {
      showScanner := true;
    }

    /** `handleRequestUnlock`: without a user only the sign-in dialog is asked
        for; with one, the request is sent, the scanner hidden and the user
        refreshed, in that order. */
    method HandleRequestUnlock(course: Course, user: Option<User>) returns (effects: seq<Effect>)
      modifies this
      ensures user.None? ==> effects == [AuthRequired] && showScanner == old(showScanner)
      ensures user.Some? ==> effects == [SendRequestUnlock(user.value.id, course.id), RefreshUser] && !showScanner
      ensures activeVideo == old(activeVideo)
    {
      if user.None? {
        return [AuthRequired];
      }
      effects := [SendRequestUnlock(user.value.id, course.id)];
      showScanner := false;
      effects := effects + [RefreshUser];
    }

    /** A playlist button: disabled, so without effect, exactly while the
        course is locked; otherwise it selects the video. */
    method SelectVideo(course: Course, user: Option<User>, vid: Video)
      requires vid in course.videos
      modifies this
      ensures IsUnlocked(course, user) ==> activeVideo == Some(vid)
      ensures !IsUnlocked(course, user) ==> activeVideo == old(activeVideo)
      ensures showScanner == old(showScanner)
    {
      if IsUnlocked(course, user) {
        activeVideo := Some(vid);
      }
    }
  }

  /** A request, then its approval, unlocks the course for the learner and
      clears the pending notice; a lock makes a paid course locked again. */
  lemma RequestApproveLock(course: Course, u: User, now: string)
    requires !course.isFree && u.role == USER
    ensures IsPending(course, Some(Requested(u, course.id, now)))
    ensures IsUnlocked(course, Some(Approved(Requested(u, course.id, now), course.id, now)))
    ensures !IsPending(course, Some(Approved(Requested(u, course.id, now), course.id, now)))
    ensures !IsUnlocked(course, Some(Locked(Approved(Requested(u, course.id, now), course.id, now), course.id, now)))
  {
  }

  /** The "I Have Paid" button is only on the scanner screen, which a locked
      course alone shows; so a learner who sends a request from the dialog was
      not enrolled in that course, and the request keeps the two lists apart. */
  lemma DialogRequestKeepsExclusive(course: Course, u: User, activeVideo: Option<Video>, now: string)
    requires ScreenFor(course, Some(u), true, activeVideo) == Scanner
    requires Exclusive(u)
    ensures course.id !in u.enrolledCourses
    ensures Exclusive(Requested(u, course.id, now))
  {
    RequestedKeepsExclusive(u, course.id, now);
  }
}
