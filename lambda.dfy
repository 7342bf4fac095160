/** The serverless action handler of AWS_LAMBDA_PROXY.js: one key-value table
    holding users, courses and the settings record side by side, and a handler
    that dispatches on the request's `action`. Timestamps (`now`), generated ids
    (`newId`) and a failing database call (`fault`, the error's message) are
    parameters. */
module Lambda {
  import opened JsValues
  import opened Seqs
  import opened Types
  import opened Enrollment

  /** The fixed key of the settings record. */
  const SettingsId: string := "PLATFORM_CONFIG_GLOBAL"

  /** The `type` attribute every item carries. */
  datatype ItemType = UserType | CourseType | SettingsType

  /** One table item; the `type` attribute is the constructor. */
  datatype Item =
    | UserItem(user: User)
    | CourseItem(course: Course, updatedAt: string)
    | SettingsItem(settings: Settings, savedAt: Option<string>)
  {
    function Type(): ItemType
    {
      match this
      case UserItem(_) => UserType
      case CourseItem(_, _) => CourseType
      case SettingsItem(_, _) => SettingsType
    }

    /** The item's `id` attribute, which is its key in the table. */
    function Id(): string
    {
      match this
      case UserItem(u) => u.id
      case CourseItem(c, _) => c.id
      case SettingsItem(_, _) => SettingsId
    }
  }

  /** The settings answered while none are stored. */
  const DefaultSettings: Item :=
    SettingsItem(Settings(None, "shamanth@okaxis", "+91 9902122531", [],
                          ["React", "Java", "Python", "AWS", "Data Science"]), None)

  /** The headers every response carries. */
  const CorsHeaders: map<string, string> := map[
    "Access-Control-Allow-Origin" := "*",
    "Access-Control-Allow-Headers" := "Content-Type,X-Amz-Date,Authorization,X-Api-Key,X-Amz-Security-Token",
    "Access-Control-Allow-Methods" := "OPTIONS,POST",
    "Content-Type" := "application/json"]

  /** The JSON bodies the handler answers with. */
  datatype Body =
    | Message(message: string)   // { message }
    | Failure(error: string)     // { error }
    | Succeeded                  // { success: true }
    | One(item: Item)
    | Many(items: seq<Item>)

  datatype Response = Response(statusCode: int, headers: map<string, string>, body: Body)

  /** `response(statusCode, body)`. */
  function Respond(statusCode: int, body: Body): (r: Response)
    ensures r.statusCode == statusCode && r.body == body
    ensures r.headers == CorsHeaders && "Access-Control-Allow-Origin" in r.headers
  {
    Response(statusCode, CorsHeaders, body)
  }

  /** The message of the error thrown when a JSON body does not parse. */
  const InvalidJson: string := "Unexpected token in JSON"
  /** The message of the TypeError thrown when an enrollment action reaches an
      item that has no enrollment lists (a course or the settings record). */
  const NotAUserRecord: string := "Cannot read properties of undefined"

  /** The parsed request body. */
  datatype Payload = Payload(
    action: string,
    email: string,
    pin: string,
    userId: string,
    courseId: string,
    course: Course,
    settings: Settings)

  /** An incoming event; `payload` is `None` when the body is not valid JSON. */
  datatype Request = Request(httpMethod: string, payload: Option<Payload>)

  /** The actions the handler knows. */
  const Actions: set<string> := {
    "getSettings", "saveSettings", "getCourses", "saveCourse", "deleteCourse", "getAllUsers",
    "register", "login", "deleteUser", "requestUnlock", "approveUnlock", "lockCourse"}

  /** The record `register` creates. */
  function CloudUser(id: string, email: string, pin: string, now: string): User
  {
    User(id, email, pin, USER, [], [], Some(map[]), Some(now))
  }

  /** `approveUnlock` on a user item: as in the browser store, and the approval
      date is recorded under the course id. */
  function ApprovedDated(u: User, courseId: string, now: string): (v: User)
    ensures v == Approved(u, courseId, now).(enrollmentDates := v.enrollmentDates)
    ensures SameAccount(u, v)
    ensures courseId !in v.pendingUnlocks
    ensures courseId in v.enrolledCourses && multiset(v.enrolledCourses)[courseId] == 1 && NoDups(v.enrolledCourses)
    ensures v.enrollmentDates.Some? && courseId in v.enrollmentDates.value && v.enrollmentDates.value[courseId] == now
    ensures u.enrollmentDates.Some? ==>
      forall c :: c in u.enrollmentDates.value && c != courseId ==>
        c in v.enrollmentDates.value && v.enrollmentDates.value[c] == u.enrollmentDates.value[c]
    ensures v.enrollmentDates.value.Keys == (if u.enrollmentDates.Some? then u.enrollmentDates.value.Keys else {}) + {courseId}
  {
    var dates := if u.enrollmentDates.Some? then u.enrollmentDates.value else map[];
    Approved(u, courseId, now).(enrollmentDates := Some(dates[courseId := now]))
  }

  /** `lockCourse` on a user item: as in the browser store, and the course's
      approval date is dropped if dates are recorded at all. */
  function LockedDated(u: User, courseId: string, now: string): (v: User)
    ensures v == Locked(u, courseId, now).(enrollmentDates := v.enrollmentDates)
    ensures SameAccount(u, v)
    ensures courseId !in v.enrolledCourses && v.pendingUnlocks == u.pendingUnlocks
    ensures v.enrollmentDates.Some? <==> u.enrollmentDates.Some?
    ensures v.enrollmentDates.Some? ==>
      v.enrollmentDates.value.Keys == u.enrollmentDates.value.Keys - {courseId}
      && forall c :: c in v.enrollmentDates.value ==> v.enrollmentDates.value[c] == u.enrollmentDates.value[c]
  {
    var v := Locked(u, courseId, now);
    if u.enrollmentDates.Some? then v.(enrollmentDates := Some(u.enrollmentDates.value - {courseId})) else v
  }

  /** Some USER item has exactly this email. */
  ghost predicate EmailRegistered(table: map<string, Item>, email: string)
  {
    exists k :: k in table && table[k].UserItem? && table[k].user.email == email
  }

  /** The item is a user whose email and PIN both match exactly. */
  predicate Credentials(it: Item, email: string, pin: string)
  {
    it.UserItem? && it.user.email == email && it.user.pin == pin
  }

  /** The keys in `ks` whose item has type `t`. */
  ghost function KeysOfType(table: map<string, Item>, t: ItemType, ks: set<string>): set<string>
  {
    set k | k in ks && k in table && table[k].Type() == t
  }

  /** Scanning one more key adds it to the count exactly when it has type `t`. */
  lemma KeysOfTypeAdd(table: map<string, Item>, t: ItemType, done: set<string>, k: string)
    requires k in table && k !in done
    ensures |KeysOfType(table, t, done + {k})| == |KeysOfType(table, t, done)| + (if table[k].Type() == t then 1 else 0)
  {
    if table[k].Type() == t {
      assert KeysOfType(table, t, done + {k}) == KeysOfType(table, t, done) + {k};
    } else {
      assert KeysOfType(table, t, done + {k}) == KeysOfType(table, t, done);
    }
  }

  /** The request is dispatched to `action` and no database call fails. */
  predicate Runs(req: Request, fault: Option<string>, action: string)
  {
    req.httpMethod != "OPTIONS" && req.payload.Some? && req.payload.value.action == action && fault.None?
  }

  /** The request runs one of the three enrollment actions, which all start by
      reading the item under `userId`. */
  predicate RunsOnUser(req: Request, fault: Option<string>)
  {
    Runs(req, fault, "requestUnlock") || Runs(req, fault, "approveUnlock") || Runs(req, fault, "lockCourse")
  }

  class Backend {
    /** The table, by `id`. */
    var table: map<string, Item>

    /** Every item is stored under its own id. */
    ghost predicate Valid()
      reads this
    {
      forall k :: k in table ==> table[k].Id() == k
    }

    constructor (table: map<string, Item>)
      requires forall k :: k in table ==> table[k].Id() == k
      ensures this.table == table && Valid()
    {
      this.table := table;
    }

    /** A full scan filtered on `type`: every item of that type exactly once. */
    method Scan(t: ItemType) returns (items: seq<Item>)
      requires Valid()
      ensures |items| == |KeysOfType(table, t, table.Keys)|
      ensures forall it :: it in items ==> it in table.Values && it.Type() == t
      ensures forall k :: k in table && table[k].Type() == t ==> table[k] in items
    {
      items := [];
      var rest := table.Keys;
      ghost var done: set<string> := {};
      while rest != {}
        invariant rest !! done && rest + done == table.Keys
        invariant |items| == |KeysOfType(table, t, done)|
        invariant forall it :: it in items ==> it in table.Values && it.Type() == t
        invariant forall k :: k in done && k in table && table[k].Type() == t ==> table[k] in items
        decreases |rest|
      {
        var k :| k in rest;
        KeysOfTypeAdd(table, t, done, k);
        if table[k].Type() == t {
          items := items + [table[k]];
        }
        rest := rest - {k};
        done := done + {k};
      }
    }

    /** `getSettings`: the stored record under the settings key, or the defaults. */
    method GetSettings(fault: Option<string>) returns (resp: Response)
      ensures resp.headers == CorsHeaders
      ensures fault.Some? ==> resp == Respond(500, Failure(fault.value))
      ensures fault.None? ==> resp.statusCode == 200 && resp.body.One?
      ensures fault.None? && SettingsId in table ==> resp.body.item == table[SettingsId]
      ensures fault.None? && SettingsId !in table ==> resp == Respond(200, One(DefaultSettings))
      ensures fault.None? && SettingsId !in table ==>
        var s := resp.body.item;
        s.SettingsItem? && s.Id() == SettingsId && |s.settings.categories| == 5 && s.settings.flashNews == []
    {
      if fault.Some? {
        return Respond(500, Failure(fault.value));
      }
      if SettingsId in table {
        return Respond(200, One(table[SettingsId]));
      }
      return Respond(200, One(DefaultSettings));
    }

    /** `saveSettings`: always written under the settings key as a settings item. */
    method SaveSettings(settings: Settings, now: string, fault: Option<string>) returns (resp: Response)
      requires Valid()
      modifies this
      ensures Valid()
      ensures fault.Some? ==> resp == Respond(500, Failure(fault.value)) && table == old(table)
      ensures fault.None? ==> resp == Respond(200, Succeeded)
                              && table == old(table)[SettingsId := SettingsItem(settings, Some(now))]
    {
      if fault.Some? {
        return Respond(500, Failure(fault.value));
      }
      table := table[SettingsId := SettingsItem(settings, Some(now))];
      return Respond(200, Succeeded);
    }

    /** `getCourses`: exactly the COURSE items. */
    method GetCourses(fault: Option<string>) returns (resp: Response)
      requires Valid()
      ensures resp.headers == CorsHeaders
      ensures fault.Some? ==> resp == Respond(500, Failure(fault.value))
      ensures fault.None? ==> resp.statusCode == 200 && resp.body.Many?
      ensures fault.None? ==> forall it :: it in resp.body.items <==> it in table.Values && it.CourseItem?
      ensures fault.None? ==> |resp.body.items| == |KeysOfType(table, CourseType, table.Keys)|
    {
      if fault.Some? {
        return Respond(500, Failure(fault.value));
      }
      var courses := Scan(CourseType);
      return Respond(200, Many(courses));
    }

    /** `saveCourse`: the course is written under its id, replacing any item there. */
    method SaveCourse(course: Course, now: string, fault: Option<string>) returns (resp: Response)
      requires Valid()
      modifies this
      ensures Valid()
      ensures fault.Some? ==> resp == Respond(500, Failure(fault.value)) && table == old(table)
      ensures fault.None? ==> resp == Respond(200, Succeeded)
                              && table == old(table)[course.id := CourseItem(course, now)]
    {
      if fault.Some? {
        return Respond(500, Failure(fault.value));
      }
      table := table[course.id := CourseItem(course, now)];
      return Respond(200, Succeeded);
    }

    /** `deleteCourse` and `deleteUser`: whatever item has the id is removed. */
    method DeleteItem(id: string, fault: Option<string>) returns (resp: Response)
      requires Valid()
      modifies this
      ensures Valid()
      ensures fault.Some? ==> resp == Respond(500, Failure(fault.value)) && table == old(table)
      ensures fault.None? ==> resp == Respond(200, Succeeded) && table == old(table) - {id}
    {
      if fault.Some? {
        return Respond(500, Failure(fault.value));
      }
      table := table - {id};
      return Respond(200, Succeeded);
    }

    /** `getAllUsers`: exactly the USER items. */
    method GetAllUsers(fault: Option<string>) returns (resp: Response)
      requires Valid()
      ensures resp.headers == CorsHeaders
      ensures fault.Some? ==> resp == Respond(500, Failure(fault.value))
      ensures fault.None? ==> resp.statusCode == 200 && resp.body.Many?
      ensures fault.None? ==> forall it :: it in resp.body.items <==> it in table.Values && it.UserItem?
      ensures fault.None? ==> |resp.body.items| == |KeysOfType(table, UserType, table.Keys)|
    {
      if fault.Some? {
        return Respond(500, Failure(fault.value));
      }
      var users := Scan(UserType);
      return Respond(200, Many(users));
    }

    /** `register`: 409 if any USER item has the email; otherwise one new USER
        item is written under `newId` and returned. */
    method Register(email: string, pin: string, newId: string, now: string, fault: Option<string>)
      returns (resp: Response)
      requires Valid()
      modifies this
      ensures Valid()
      ensures fault.Some? ==> resp == Respond(500, Failure(fault.value)) && table == old(table)
      ensures fault.None? && EmailRegistered(old(table), email) ==>
        resp == Respond(409, Failure("User already exists")) && table == old(table)
      ensures fault.None? && !EmailRegistered(old(table), email) ==>
        var u := CloudUser(newId, email, pin, now);
        resp == Respond(200, One(UserItem(u))) && table == old(table)[newId := UserItem(u)]
    {
      if fault.Some? {
        return Respond(500, Failure(fault.value));
      }
      var users := Scan(UserType);
      if i :| 0 <= i < |users| && users[i].UserItem? && users[i].user.email == email {
        assert users[i] in users && users[i] in table.Values;
        var k :| k in table && table[k] == users[i];
        assert EmailRegistered(table, email);
        return Respond(409, Failure("User already exists"));
      }
      forall k | k in table && table[k].UserItem?
        ensures table[k].user.email != email
      {
        assert table[k] in users;
      }
      var newUser := UserItem(CloudUser(newId, email, pin, now));
      table := table[newId := newUser];
      return Respond(200, One(newUser));
    }

    /** `login`: a USER item whose email and PIN match gets a fresh `lastActive`
        and is returned; with no match, 401 and no write. */
    method Login(email: string, pin: string, now: string, fault: Option<string>) returns (resp: Response)
      requires Valid()
      modifies this
      ensures Valid()
      ensures fault.Some? ==> resp == Respond(500, Failure(fault.value)) && table == old(table)
      ensures fault.None? && (forall k :: k in old(table) ==> !Credentials(old(table)[k], email, pin)) ==>
        resp == Respond(401, Failure("Invalid credentials")) && table == old(table)
      ensures fault.None? && (exists k :: k in old(table) && Credentials(old(table)[k], email, pin)) ==>
        exists k :: k in old(table) && Credentials(old(table)[k], email, pin)
          && table == old(table)[k := UserItem(old(table)[k].user.(lastActive := Some(now)))]
          && resp == Respond(200, One(table[k]))
    {
      if fault.Some? {
        return Respond(500, Failure(fault.value));
      }
      if k :| k in table && Credentials(table[k], email, pin) {
        var user := UserItem(table[k].user.(lastActive := Some(now)));
        table := table[k := user];
        return Respond(200, One(user));
      }
      return Respond(401, Failure("Invalid credentials"));
    }

    /** `requestUnlock`: a missing user is not an error; a user item gets the
        request; any other item makes the handler throw. */
    method RequestUnlock(userId: string, courseId: string, now: string, fault: Option<string>)
      returns (resp: Response)
      requires Valid()
      modifies this
      ensures Valid()
      ensures fault.Some? ==> resp == Respond(500, Failure(fault.value)) && table == old(table)
      ensures fault.None? && userId !in old(table) ==> resp == Respond(200, Succeeded) && table == old(table)
      ensures fault.None? && userId in old(table) && !old(table)[userId].UserItem? ==>
        resp == Respond(500, Failure(NotAUserRecord)) && table == old(table)
      ensures fault.None? && userId in old(table) && old(table)[userId].UserItem? ==>
        resp == Respond(200, Succeeded)
        && table == old(table)[userId := UserItem(Requested(old(table)[userId].user, courseId, now))]
    {
      if fault.Some? {
        return Respond(500, Failure(fault.value));
      }
      if userId !in table {
        return Respond(200, Succeeded);
      }
      var item := table[userId];
      if !item.UserItem? {
        return Respond(500, Failure(NotAUserRecord));
      }
      if courseId !in item.user.pendingUnlocks {
        var user := item.user.(pendingUnlocks := item.user.pendingUnlocks + [courseId], lastActive := Some(now));
        table := table[userId := UserItem(user)];
      } else {
        assert table == table[userId := UserItem(Requested(item.user, courseId, now))];
      }
      return Respond(200, Succeeded);
    }

    /** `approveUnlock`: a missing user is not an error; a user item is approved
        and dated; any other item makes the handler throw. */
    method ApproveUnlock(userId: string, courseId: string, now: string, fault: Option<string>)
      returns (resp: Response)
      requires Valid()
      modifies this
      ensures Valid()
      ensures fault.Some? ==> resp == Respond(500, Failure(fault.value)) && table == old(table)
      ensures fault.None? && userId !in old(table) ==> resp == Respond(200, Succeeded) && table == old(table)
      ensures fault.None? && userId in old(table) && !old(table)[userId].UserItem? ==>
        resp == Respond(500, Failure(NotAUserRecord)) && table == old(table)
      ensures fault.None? && userId in old(table) && old(table)[userId].UserItem? ==>
        resp == Respond(200, Succeeded)
        && table == old(table)[userId := UserItem(ApprovedDated(old(table)[userId].user, courseId, now))]
    {
      if fault.Some? {
        return Respond(500, Failure(fault.value));
      }
      if userId !in table {
        return Respond(200, Succeeded);
      }
      var item := table[userId];
      if !item.UserItem? {
        return Respond(500, Failure(NotAUserRecord));
      }
      var seeker := item.user;
      seeker := seeker.(enrolledCourses := Dedup(seeker.enrolledCourses + [courseId]));
      seeker := seeker.(pendingUnlocks := RemoveAll(seeker.pendingUnlocks, courseId));
      var dates := if seeker.enrollmentDates.Some? then seeker.enrollmentDates.value else map[];
      seeker := seeker.(enrollmentDates := Some(dates[courseId := now]));
      seeker := seeker.(lastActive := Some(now));
      table := table[userId := UserItem(seeker)];
      return Respond(200, Succeeded);
    }

    /** `lockCourse`: a missing user is not an error; a user item loses the
        course and its date; any other item makes the handler throw. */
    method LockCourse(userId: string, courseId: string, now: string, fault: Option<string>)
      returns (resp: Response)
      requires Valid()
      modifies this
      ensures Valid()
      ensures fault.Some? ==> resp == Respond(500, Failure(fault.value)) && table == old(table)
      ensures fault.None? && userId !in old(table) ==> resp == Respond(200, Succeeded) && table == old(table)
      ensures fault.None? && userId in old(table) && !old(table)[userId].UserItem? ==>
        resp == Respond(500, Failure(NotAUserRecord)) && table == old(table)
      ensures fault.None? && userId in old(table) && old(table)[userId].UserItem? ==>
        resp == Respond(200, Succeeded)
        && table == old(table)[userId := UserItem(LockedDated(old(table)[userId].user, courseId, now))]
    {
      if fault.Some? {
        return Respond(500, Failure(fault.value));
      }
      if userId !in table {
        return Respond(200, Succeeded);
      }
      var item := table[userId];
      if !item.UserItem? {
        return Respond(500, Failure(NotAUserRecord));
      }
      var seeker := item.user;
      seeker := seeker.(enrolledCourses := RemoveAll(seeker.enrolledCourses, courseId));
      if seeker.enrollmentDates.Some? {
        seeker := seeker.(enrollmentDates := Some(seeker.enrollmentDates.value - {courseId}));
      }
      seeker := seeker.(lastActive := Some(now));
      table := table[userId := UserItem(seeker)];
      return Respond(200, Succeeded);
    }

    /** `handler`: preflight, body parsing, dispatch on `action`, and the catch-all. */
    method Handle(req: Request, now: string, newId: string, fault: Option<string>) returns (resp: Response)
      requires Valid()
      modifies this
      ensures Valid()
      ensures resp.headers == CorsHeaders
      ensures resp.statusCode in {200, 400, 401, 409, 500}
      ensures resp.statusCode != 200 ==> table == old(table)
      ensures req.httpMethod == "OPTIONS" ==>
        resp == Respond(200, Message("CORS Preflight OK")) && table == old(table)
      ensures req.httpMethod != "OPTIONS" && req.payload.None? ==>
        resp == Respond(500, Failure(InvalidJson)) && table == old(table)
      ensures req.httpMethod != "OPTIONS" && req.payload.Some? && req.payload.value.action !in Actions ==>
        resp == Respond(400, Failure("Action '" + req.payload.value.action + "' not supported"))
        && table == old(table)
      ensures req.httpMethod != "OPTIONS" && req.payload.Some? && req.payload.value.action in Actions && fault.Some? ==>
        resp == Respond(500, Failure(fault.value)) && table == old(table)
      // What each known action does when no database call fails.
      ensures Runs(req, fault, "getSettings") ==>
        table == old(table)
        && resp == Respond(200, One(if SettingsId in old(table) then old(table)[SettingsId] else DefaultSettings))
      ensures Runs(req, fault, "saveSettings") ==>
        resp == Respond(200, Succeeded)
        && table == old(table)[SettingsId := SettingsItem(req.payload.value.settings, Some(now))]
      ensures Runs(req, fault, "getCourses") ==>
        table == old(table) && resp.statusCode == 200 && resp.body.Many?
        && (forall it :: it in resp.body.items <==> it in old(table).Values && it.CourseItem?)
        && |resp.body.items| == |KeysOfType(old(table), CourseType, old(table).Keys)|
      ensures Runs(req, fault, "saveCourse") ==>
        resp == Respond(200, Succeeded)
        && table == old(table)[req.payload.value.course.id := CourseItem(req.payload.value.course, now)]
      ensures Runs(req, fault, "deleteCourse") ==>
        resp == Respond(200, Succeeded)
        && table == old(table) - {req.payload.value.courseId}
      ensures Runs(req, fault, "getAllUsers") ==>
        table == old(table) && resp.statusCode == 200 && resp.body.Many?
        && (forall it :: it in resp.body.items <==> it in old(table).Values && it.UserItem?)
        && |resp.body.items| == |KeysOfType(old(table), UserType, old(table).Keys)|
      ensures Runs(req, fault, "register") && EmailRegistered(old(table), req.payload.value.email) ==>
        resp == Respond(409, Failure("User already exists")) && table == old(table)
      ensures Runs(req, fault, "register") && !EmailRegistered(old(table), req.payload.value.email) ==>
        var u := CloudUser(newId, req.payload.value.email, req.payload.value.pin, now);
        resp == Respond(200, One(UserItem(u))) && table == old(table)[newId := UserItem(u)]
      ensures Runs(req, fault, "login")
              && (forall k :: k in old(table) ==> !Credentials(old(table)[k], req.payload.value.email, req.payload.value.pin)) ==>
        resp == Respond(401, Failure("Invalid credentials")) && table == old(table)
      ensures Runs(req, fault, "login")
              && (exists k :: k in old(table) && Credentials(old(table)[k], req.payload.value.email, req.payload.value.pin)) ==>
        exists k :: k in old(table) && Credentials(old(table)[k], req.payload.value.email, req.payload.value.pin)
          && table == old(table)[k := UserItem(old(table)[k].user.(lastActive := Some(now)))]
          && resp == Respond(200, One(table[k]))
      ensures Runs(req, fault, "deleteUser") ==>
        resp == Respond(200, Succeeded)
        && table == old(table) - {req.payload.value.userId}
      ensures RunsOnUser(req, fault) && req.payload.value.userId !in old(table) ==>
        resp == Respond(200, Succeeded) && table == old(table)
      ensures RunsOnUser(req, fault) && req.payload.value.userId in old(table)
                                     && !old(table)[req.payload.value.userId].UserItem? ==>
        resp == Respond(500, Failure(NotAUserRecord)) && table == old(table)
      ensures Runs(req, fault, "requestUnlock") && req.payload.value.userId in old(table)
                                                && old(table)[req.payload.value.userId].UserItem? ==>
        var p := req.payload.value;
        resp == Respond(200, Succeeded)
        && table == old(table)[p.userId := UserItem(Requested(old(table)[p.userId].user, p.courseId, now))]
      ensures Runs(req, fault, "approveUnlock") && req.payload.value.userId in old(table)
                                                && old(table)[req.payload.value.userId].UserItem? ==>
        var p := req.payload.value;
        resp == Respond(200, Succeeded)
        && table == old(table)[p.userId := UserItem(ApprovedDated(old(table)[p.userId].user, p.courseId, now))]
      ensures Runs(req, fault, "lockCourse") && req.payload.value.userId in old(table)
                                             && old(table)[req.payload.value.userId].UserItem? ==>
        var p := req.payload.value;
        resp == Respond(200, Succeeded)
        && table == old(table)[p.userId := UserItem(LockedDated(old(table)[p.userId].user, p.courseId, now))]
    {
      if req.httpMethod == "OPTIONS" {
        return Respond(200, Message("CORS Preflight OK"));
      }
      if req.payload.None? {
        return Respond(500, Failure(InvalidJson));
      }
      var body := req.payload.value;
      var action := body.action;
      if action == "getSettings" {
        resp := GetSettings(fault);
      } else if action == "saveSettings" {
        resp := SaveSettings(body.settings, now, fault);
      } else if action == "getCourses" {
        resp := GetCourses(fault);
      } else if action == "saveCourse" {
        resp := SaveCourse(body.course, now, fault);
      } else if action == "deleteCourse" {
        resp := DeleteItem(body.courseId, fault);
      } else if action == "getAllUsers" {
        resp := GetAllUsers(fault);
      } else if action == "register" {
        resp := Register(body.email, body.pin, newId, now, fault);
      } else if action == "login" {
        resp := Login(body.email, body.pin, now, fault);
      } else if action == "deleteUser" {
        resp := DeleteItem(body.userId, fault);
      } else if action == "requestUnlock" {
        resp := RequestUnlock(body.userId, body.courseId, now, fault);
      } else if action == "approveUnlock" {
        resp := ApproveUnlock(body.userId, body.courseId, now, fault);
      } else if action == "lockCourse" {
        resp := LockCourse(body.userId, body.courseId, now, fault);
      } else {
        resp := Respond(400, Failure("Action '" + action + "' not supported"));
      }
    }
  }
}
