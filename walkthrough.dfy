/** A client of the handlers: the demo account's session from sign-up to
    deleting a task, reasoned about from the handlers' contracts alone. */
module Walkthrough {
  import opened Common
  import opened Validation
  import opened TaskTable
  import opened TaskList
  import opened Tasks
  import opened Auth

  /** Sign-up, a duplicate sign-up, logins right and wrong, logout, and a
      refresh once the access token has expired. */
  method DemoSignIn() returns (me: UserId)
  {
    var g := new AuthGateway((e: string) => |e| > 0, 1000);
    var demo := CredentialsBody(Given("demo@example.com"), Given("password123"));

    var registered := g.Register(demo, 42);
    assert registered.Ok? && registered.code == 201;
    var again := g.Register(demo, 43);
    assert again == Err(UserExists);

    var login := g.Login(demo);
    LoginWithRegisteredPassword(g, "demo@example.com", "password123", 42);
    me := g.users["demo@example.com"].id;
    assert login == Ok(200, GenerateTokens(me, 1000));
    assert Verify(login.body.accessToken, AccessSecret, g.now) == Some(me);

    var wrong := g.Login(CredentialsBody(Given("demo@example.com"), Given("nope")));
    var stranger := g.Login(CredentialsBody(Given("who@example.com"), Given("nope")));
    assert wrong == stranger == Err(InvalidCredentials);

    var bye := g.Logout();
    assert bye == Ok(200, LoggedOut);
    assert g.Login(demo) == login;

    // Fifteen minutes later the access token has expired, but its refresh
    // token still buys a new pair for the same user.
    g.AdvanceClock(AccessLifetime);
    assert Verify(login.body.accessToken, AccessSecret, g.now).None?;
    var renewed := g.Refresh(RefreshBody(Given(login.body.refreshToken)));
    assert renewed == Ok(200, GenerateTokens(me, 1000 + AccessLifetime));
    assert Verify(renewed.body.accessToken, AccessSecret, g.now) == Some(me);
  }

  /** The signed-in user's task from creation to deletion, with another
      user unable to touch it. */
  method DemoTask(me: UserId, now: nat)
  {
    var store := new TaskStore();
    var created := store.CreateTask(me, TaskBody(Given("Buy milk"), Absent, Absent, Given("someone else")), now);
    assert created.Ok? && created.body.userId == me && created.body.status == PENDING;
    var id := created.body.id;

    var page := GetTasks(store.rows, me, ListQuery(None, None, None, None));
    FilterIsOwnedBy(store.rows, ListCriteria(me, ListQuery(None, None, None, None)));
    ListPageWindow(store.rows, me, ListQuery(None, None, None, None));
    assert store.rows == [created.body];
    assert |page.body.tasks| == 1 && page.body.tasks[0] == created.body;

    var other := me + 1;
    var blocked := store.ToggleTaskStatus(other, id);
    assert blocked == Err(TaskNotFound) && store.rows == [created.body];

    var toggled := store.ToggleTaskStatus(me, id);
    assert toggled.Ok? && toggled.body.status == COMPLETED;

    var deleted := store.DeleteTask(me, id);
    assert deleted == Ok(200, "Task deleted");
    assert GetTask(store.rows, me, id) == Err(TaskNotFound);
  }
}
