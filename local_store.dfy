/** The browser-side user store of services/db.ts. Every operation first asks
    the remote backend (`cloudFetch`); the answer is a parameter `cloud`. A
    truthy answer is handed back as it is and the browser storage is left
    alone. Otherwise the operation falls back to the user list kept in the
    browser's storage, and the nested `getAllUsers` / `batchUpdateUsers` calls
    are taken to answer null as well, which is what happens when no remote
    endpoint is configured. */
module LocalStore {
  import opened JsValues
  import opened Types
  import opened Enrollment

  class UserStore {
    /** The list stored under the users key; `None` while the key is absent. */
    var saved: Option<seq<User>>

    constructor (saved: Option<seq<User>>)
      ensures this.saved == saved
    {
      this.saved := saved;
    }

    /** `getStoredUsers`: the remote list if the backend answered; otherwise the
        stored list, seeding it with the administrator on first access. */
    method GetStoredUsers(cloud: Option<Json>, now: string) returns (r: Fetched<seq<User>>)
      modifies this
      ensures Answered(cloud) ==> r == Remote(cloud.value) && saved == old(saved)
      ensures !Answered(cloud) ==> r == Local(Seeded(old(saved), now)) && saved == Some(Seeded(old(saved), now))
    {
      if Answered(cloud) {
        return Remote(cloud.value);
      }
      if saved.None? {
        var admin := User("admin", AdminEmail, AdminPin, ADMIN, [], [], None, Some(now));
        var initial := [admin];
        saved := Some(initial);
        return Local(initial);
      }
      return Local(saved.value);
    }

    /** `saveUsers`: the list replaces the stored one unless the backend took it. */
    method SaveUsers(users: seq<User>, cloud: Option<Json>)
      modifies this
      ensures Answered(cloud) ==> saved == old(saved)
      ensures !Answered(cloud) ==> saved == Some(users)
    {
      if Answered(cloud) {
        return;
      }
      saved := Some(users);
    }

    /** The stored list as the local fallback reads it (seeding on first access). */
    method LoadLocal(now: string) returns (users: seq<User>)
      modifies this
      ensures users == Seeded(old(saved), now) && saved == Some(users)
    {
      var fetched := GetStoredUsers(None, now);
      users := fetched.value;
    }

    /** `registerUser`: in local mode, an exact email match refuses the
        registration; otherwise one new USER record is appended and returned. */
    method RegisterUser(email: string, pin: string, cloud: Option<Json>, newId: string, now: string)
      returns (r: Fetched<Option<User>>)
      modifies this
      ensures Answered(cloud) ==> r == Remote(cloud.value) && saved == old(saved)
      ensures !Answered(cloud) ==>
        var reg := RegisterIn(Seeded(old(saved), now), email, pin, newId, now);
        r == Local(reg.result) && saved == Some(reg.users)
    {
      if Answered(cloud) {
        return Remote(cloud.value);
      }
      var users := LoadLocal(now);
      if EmailTaken(users, email) {
        return Local(None);
      }
      var newUser := User(newId, email, pin, USER, [], [], None, Some(now));
      users := users + [newUser];
      SaveUsers(users, None);
      return Local(Some(newUser));
    }

    /** `loginUser`: in local mode, the first exact email-and-PIN match gets a
        fresh `lastActive`, the list is saved and the record returned. */
    method LoginUser(email: string, pin: string, cloud: Option<Json>, now: string)
      returns (r: Fetched<Option<User>>)
      modifies this
      ensures Answered(cloud) ==> r == Remote(cloud.value) && saved == old(saved)
      ensures !Answered(cloud) ==>
        var out := LoginIn(Seeded(old(saved), now), email, pin, now);
        r == Local(out.result) && saved == Some(out.users)
    {
      if Answered(cloud) {
        return Remote(cloud.value);
      }
      var users := LoadLocal(now);
      var userIndex := FindLogin(users, email, pin);
      if userIndex.Some? {
        var k := userIndex.value;
        users := users[k := users[k].(lastActive := Some(now))];
        SaveUsers(users, None);
        return Local(Some(users[k]));
      }
      return Local(None);
    }

    /** `requestUnlock` over the stored list. */
    method RequestUnlock(userId: string, courseId: string, cloud: Option<Json>, now: string)
      modifies this
      ensures Answered(cloud) ==> saved == old(saved)
      ensures !Answered(cloud) ==> saved == Some(RequestUnlockIn(Seeded(old(saved), now), userId, courseId, now))
    {
      if Answered(cloud) {
        return;
      }
      var users := LoadLocal(now);
      var updated := RequestUnlockIn(users, userId, courseId, now);
      SaveUsers(updated, None);
    }

    /** `approveUnlock` over the stored list. */
    method ApproveUnlock(userId: string, courseId: string, cloud: Option<Json>, now: string)
      modifies this
      ensures Answered(cloud) ==> saved == old(saved)
      ensures !Answered(cloud) ==> saved == Some(ApproveUnlockIn(Seeded(old(saved), now), userId, courseId, now))
    {
      if Answered(cloud) {
        return;
      }
      var users := LoadLocal(now);
      var updated := ApproveUnlockIn(users, userId, courseId, now);
      SaveUsers(updated, None);
    }

    /** `lockCourse` over the stored list. */
    method LockCourse(userId: string, courseId: string, cloud: Option<Json>, now: string)
      modifies this
      ensures Answered(cloud) ==> saved == old(saved)
      ensures !Answered(cloud) ==> saved == Some(LockCourseIn(Seeded(old(saved), now), userId, courseId, now))
    {
      if Answered(cloud) {
        return;
      }
      var users := LoadLocal(now);
      var updated := LockCourseIn(users, userId, courseId, now);
      SaveUsers(updated, None);
    }
  }

  /** A fresh install with no remote endpoint: register, log in, fail with a
      wrong PIN, register again, request and approve a course. */
  method FreshInstallScenario()
  {
    var store := new UserStore(None);
    var reg := store.RegisterUser("a@x.com", "1234", None, "u1", "t1");
    assert Seeded(None, "t1") == [AdminSeed("t1")];
    assert !EmailTaken([AdminSeed("t1")], "a@x.com");
    assert reg == Local(Some(NewLearner("u1", "a@x.com", "1234", "t1")));
    assert [AdminSeed("t1")] + [NewLearner("u1", "a@x.com", "1234", "t1")]
        == [AdminSeed("t1"), NewLearner("u1", "a@x.com", "1234", "t1")];
    assert store.saved == Some([AdminSeed("t1"), NewLearner("u1", "a@x.com", "1234", "t1")]);

    var ok := store.LoginUser("a@x.com", "1234", None, "t2");
    assert FindLogin(store.saved.value, "a@x.com", "1234") == Some(1);
    assert ok == Local(Some(NewLearner("u1", "a@x.com", "1234", "t2")));

    var bad := store.LoginUser("a@x.com", "9999", None, "t3");
    assert bad == Local(None);

    var again := store.RegisterUser("a@x.com", "5555", None, "u2", "t4");
    assert store.saved.value[1].email == "a@x.com";
    assert again == Local(None);

    store.RequestUnlock("u1", "courseA", None, "t5");
    assert store.saved.value[1].enrolledCourses == [];
    assert store.saved.value[1].pendingUnlocks == ["courseA"];
    store.ApproveUnlock("u1", "courseA", None, "t6");
    var users := store.saved.value;
    assert |users| == 2 && users[1].id == "u1";
    ApprovedOnDuplicateFreeList(NewLearner("u1", "a@x.com", "1234", "t2").(pendingUnlocks := ["courseA"], lastActive := Some("t5")), "courseA", "t6");
    assert users[1].enrolledCourses == ["courseA"];
    assert users[1].pendingUnlocks == [];
  }
}
