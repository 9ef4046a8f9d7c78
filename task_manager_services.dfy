/**
  The task service: list and lookup queries over the task store, and the
  single-row mutations that create, edit, delete, complete and assign tasks.
 */
module Services {
  import opened Wrappers
  import opened Linq
  import opened TaskEntities

  /**
    The service together with the tables of the database context it is given.
    Categories and users are only read here. Tasks are kept in storage order,
    which for an autoincrement key is increasing key order, and `nextId` is the
    key the store hands out next: keys are never reused.
   */
  class TaskManagerServices {
    var tasks: seq<TaskEntity>
    const categories: seq<CategorieTask>
    const users: set<int>
    var nextId: int

    ghost predicate Valid()
      reads this
    {
      && IdsIncreasing(tasks)
      && forall t :: t in tasks ==> t.Id < nextId
    }

    constructor (tasks0: seq<TaskEntity>, categories0: seq<CategorieTask>, users0: set<int>, nextId0: int)
      requires IdsIncreasing(tasks0)
      requires forall t :: t in tasks0 ==> t.Id < nextId0
      ensures Valid()
      ensures tasks == tasks0 && categories == categories0 && users == users0 && nextId == nextId0
    {
      tasks, categories, users, nextId := tasks0, categories0, users0, nextId0;
    }

    /** Every task that is not done, once each, in storage order, with its category's name. */
    function GetTasksToDo(): (r: seq<TaskView>)
      reads this
      requires Valid()
      ensures forall v :: v in r <==> exists t :: t in tasks && !t.Done && v == ToView(categories, t)
      ensures ViewIdsIncreasing(r)
    {
      var pending := Where(tasks, IsPending);
      WhereKeepsIdOrder(tasks, IsPending);
      ProjectionKeepsIdOrder(categories, pending);
      ProjectionMembership(categories, pending);
      Select(pending, Viewer(categories))
    }

    /** Every task that is done, once each, in storage order, with its category's name. */
    function GetTaskDone(): (r: seq<TaskView>)
      reads this
      requires Valid()
      ensures forall v :: v in r <==> exists t :: t in tasks && t.Done && v == ToView(categories, t)
      ensures ViewIdsIncreasing(r)
    {
      var done := Where(tasks, IsDone);
      WhereKeepsIdOrder(tasks, IsDone);
      ProjectionKeepsIdOrder(categories, done);
      ProjectionMembership(categories, done);
      Select(done, Viewer(categories))
    }

    /** Every task, in storage order, each with its category's name. */
    function GetAllTasks(): (r: seq<TaskView>)
      reads this
      requires Valid()
      ensures |r| == |tasks|
      ensures forall k :: 0 <= k < |tasks| ==> r[k] == ToView(categories, tasks[k])
      ensures ViewIdsIncreasing(r)
    {
      ProjectionKeepsIdOrder(categories, tasks);
      Select(tasks, Viewer(categories))
    }

    /** Every task owned by `userId`, once each, in storage order, with its category's name. */
    function GetTasksByUser(userId: int): (r: seq<TaskView>)
      reads this
      requires Valid()
      ensures forall v :: v in r <==> exists t :: t in tasks && t.UserId == userId && v == ToView(categories, t)
      ensures ViewIdsIncreasing(r)
    {
      var owned := Where(tasks, OwnedBy(userId));
      WhereKeepsIdOrder(tasks, OwnedBy(userId));
      ProjectionKeepsIdOrder(categories, owned);
      ProjectionMembership(categories, owned);
      Select(owned, Viewer(categories))
    }

    /** The title, description, creation time and done flag of the task with key `id`; NotFound when there is none. */
    function GetById(id: int): (r: Response<TaskDetails>)
      reads this
      requires Valid()
      ensures r.Ok? || r.NotFound?
      ensures r.NotFound? <==> forall t :: t in tasks ==> t.Id != id
      ensures forall t :: t in tasks && t.Id == id ==> r == Ok(TaskDetails(t.Title, t.Description, t.CreatedAt, t.Done))
    {
      match FirstIndex(tasks, HasId(id))
      case None => NotFound
      case Some(i) =>
        var task := tasks[i];
        Ok(TaskDetails(task.Title, task.Description, task.CreatedAt, task.Done))
    }

    /** Every entry of the full list is in exactly one of the to-do and done lists. */
    lemma ToDoAndDoneCoverAll()
      requires Valid()
      ensures forall v :: v in GetAllTasks() <==> v in GetTasksToDo() || v in GetTaskDone()
      ensures forall v :: !(v in GetTasksToDo() && v in GetTaskDone())
    {
      ProjectionMembership(categories, tasks);
    }

    /** The to-do and done lists together are as long as the list of all tasks. */
    lemma ToDoAndDoneSizes()
      requires Valid()
      ensures |GetTasksToDo()| + |GetTaskDone()| == |GetAllTasks()|
    {
      WherePartition(tasks, IsPending, IsDone);
    }

    /**
      Adds a new, not yet done task created `now`, for `userId`, in the model's
      category, and returns its key. A missing category is a bad request; a
      null model fails on its first dereference and ends in the 500 handler.
     */
    method InsertTask(model: Option<TaskEntity>, userId: int, now: DateTime) returns (r: Response<int>)
      requires Valid()
      modifies this
      ensures Valid()
      ensures model.None? ==> r == Internal && tasks == old(tasks) && nextId == old(nextId)
      ensures model.Some? && (forall c :: c in categories ==> c.Id != model.value.CategorieTaskId) ==>
                r == BadRequest && tasks == old(tasks) && nextId == old(nextId)
      ensures model.Some? && (exists c :: c in categories && c.Id == model.value.CategorieTaskId) ==>
                && r == Ok(old(nextId))
                && tasks == old(tasks) + [TaskEntity(old(nextId), model.value.Title, model.value.Description,
                                                     false, now, None, model.value.CategorieTaskId, userId)]
                && nextId == old(nextId) + 1
      ensures r.Ok? ==> forall t :: t in old(tasks) ==> t.Id != r.value
      ensures DoneMatchesFinished(old(tasks)) ==> DoneMatchesFinished(tasks)
      ensures r.Ok? ==> GetById(r.value) == Ok(TaskDetails(model.value.Title, model.value.Description, now, false))
    {
      if model.None? {
        return Internal;
      }
      var m := model.value;
      var category := FirstIndex(categories, CategoryHasId(m.CategorieTaskId));
      if category.None? {
        assert forall c :: c in categories ==> c.Id != m.CategorieTaskId;
        return BadRequest;
      }
      assert categories[category.value] in categories;
      var task := TaskEntity(nextId, m.Title, m.Description, false, now, None, m.CategorieTaskId, userId);
      AppendKeepsIdOrder(tasks, task);
      tasks := tasks + [task];
      nextId := nextId + 1;
      r := Ok(task.Id);
    }

    /** Overwrites the title and description of the task with key `id` and nothing else; NotFound when there is none. */
    method EditTask(model: TaskEntity, id: int) returns (r: Response<int>)
      requires Valid()
      modifies this
      ensures Valid() && nextId == old(nextId)
      ensures (forall t :: t in old(tasks) ==> t.Id != id) ==> r == NotFound && tasks == old(tasks)
      ensures forall i :: 0 <= i < |old(tasks)| && old(tasks)[i].Id == id ==>
                && r == Ok(id)
                && tasks == old(tasks)[i := old(tasks)[i].(Title := model.Title, Description := model.Description)]
      ensures DoneMatchesFinished(old(tasks)) ==> DoneMatchesFinished(tasks)
      ensures forall i :: 0 <= i < |old(tasks)| && old(tasks)[i].Id == id ==>
                GetById(id) == Ok(TaskDetails(model.Title, model.Description, old(tasks)[i].CreatedAt, old(tasks)[i].Done))
    {
      var found := FirstIndex(tasks, HasId(id));
      if found.None? {
        return NotFound;
      }
      var i := found.value;
      KeyDeterminesRow(tasks, i);
      UpdateKeepsIdOrder(tasks, i, tasks[i].(Title := model.Title, Description := model.Description));
      tasks := tasks[i := tasks[i].(Title := model.Title, Description := model.Description)];
      r := Ok(tasks[i].Id);
    }

    /** Removes the task with key `id` and no other; NotFound when there is none. */
    method DeleteTask(id: int) returns (r: Response<()>)
      requires Valid()
      modifies this
      ensures Valid() && nextId == old(nextId)
      ensures (forall t :: t in old(tasks) ==> t.Id != id) ==> r == NotFound && tasks == old(tasks)
      ensures forall i :: 0 <= i < |old(tasks)| && old(tasks)[i].Id == id ==>
                r == Ok(()) && tasks == old(tasks)[..i] + old(tasks)[i + 1..]
      ensures GetById(id) == NotFound
      ensures DoneMatchesFinished(old(tasks)) ==> DoneMatchesFinished(tasks)
    {
      var found := FirstIndex(tasks, HasId(id));
      if found.None? {
        return NotFound;
      }
      var i := found.value;
      RemoveKeepsIdOrder(tasks, i);
      tasks := tasks[..i] + tasks[i + 1..];
      r := Ok(());
    }

    /**
      Marks the task with key `id` done, finished `now`, and returns the
      updated row; a missing key is reported as a bad request, not as NotFound.
     */
    method DoneTask(id: int, now: DateTime) returns (r: Response<TaskEntity>)
      requires Valid()
      modifies this
      ensures Valid() && nextId == old(nextId)
      ensures (forall t :: t in old(tasks) ==> t.Id != id) ==> r == BadRequest && tasks == old(tasks)
      ensures forall i :: 0 <= i < |old(tasks)| && old(tasks)[i].Id == id ==>
                && tasks == old(tasks)[i := old(tasks)[i].(Done := true, FinishedAt := Some(now))]
                && r == Ok(tasks[i])
      ensures DoneMatchesFinished(old(tasks)) ==> DoneMatchesFinished(tasks)
      ensures r.Ok? ==> ToView(categories, r.value) in GetTaskDone()
      ensures r.Ok? ==> forall v :: v in GetTasksToDo() ==> v.TaskId != id
    {
      var found := FirstIndex(tasks, HasId(id));
      if found.None? {
        return BadRequest;
      }
      var i := found.value;
      KeyDeterminesRow(tasks, i);
      UpdateKeepsIdOrder(tasks, i, tasks[i].(Done := true, FinishedAt := Some(now)));
      tasks := tasks[i := tasks[i].(Done := true, FinishedAt := Some(now))];
      r := Ok(tasks[i]);
    }

    /**
      Adds a brand-new, not yet done task created `now` for the model's user,
      and returns it; nothing checks that its category exists. An unknown user
      is a bad request.
     */
    method AsignTask(model: TaskEntity, now: DateTime) returns (r: Response<TaskEntity>)
      requires Valid()
      modifies this
      ensures Valid()
      ensures model.UserId !in users ==> r == BadRequest && tasks == old(tasks) && nextId == old(nextId)
      ensures model.UserId in users ==>
                && r == Ok(TaskEntity(old(nextId), model.Title, model.Description,
                                      false, now, None, model.CategorieTaskId, model.UserId))
                && tasks == old(tasks) + [r.value]
                && nextId == old(nextId) + 1
      ensures r.Ok? ==> forall t :: t in old(tasks) ==> t.Id != r.value.Id
      ensures DoneMatchesFinished(old(tasks)) ==> DoneMatchesFinished(tasks)
      ensures r.Ok? ==> ToView(categories, r.value) in GetTasksByUser(model.UserId)
      ensures r.Ok? ==> ToView(categories, r.value) in GetTasksToDo()
    {
      if model.UserId !in users {
        return BadRequest;
      }
      var task := TaskEntity(nextId, model.Title, model.Description, false, now, None, model.CategorieTaskId, model.UserId);
      AppendKeepsIdOrder(tasks, task);
      tasks := tasks + [task];
      nextId := nextId + 1;
      r := Ok(task);
    }
  }

  /**
    A client of the service: create a task, read it back, complete it, see it
    move from the to-do list to the done list, then delete it so that GetById
    no longer finds it. Every step follows from the operations' contracts alone.
   */
  method CompleteScenario(now: DateTime, later: DateTime) {
    var home := CategorieTask(1, Some("Home"));
    var service := new TaskManagerServices([], [home], {7}, 1);
    var model := TaskEntity(0, Some("Buy milk"), None, false, 0, None, 1, 0);
    assert home in service.categories;
    var created := service.InsertTask(Some(model), 7, now);
    assert created == Ok(1);
    var n := created.value;
    assert service.GetById(n) == Ok(TaskDetails(Some("Buy milk"), None, now, false));

    var completed := service.DoneTask(n, later);
    assert service.tasks[0].Id == n;
    assert completed == Ok(TaskEntity(n, Some("Buy milk"), None, true, now, Some(later), 1, 7));
    assert ToView(service.categories, completed.value) in service.GetTaskDone();
    assert forall v :: v in service.GetTasksToDo() ==> v.TaskId != n;

    var deleted := service.DeleteTask(n);
    assert deleted == Ok(()) && service.tasks == [];
    assert service.GetById(n) == NotFound;
  }

  /**
    The refusals: completing an unknown key, inserting into an unknown
    category or without a model, and assigning to an unknown user change nothing.
   */
  method RefusalScenario(now: DateTime) {
    var row := TaskEntity(1, Some("Buy milk"), None, false, now, None, 1, 7);
    var service := new TaskManagerServices([row], [CategorieTask(1, Some("Home"))], {7}, 2);

    var unknown := service.DoneTask(2, now);
    assert unknown == BadRequest && service.tasks == [row];
    var noCategory := service.InsertTask(Some(row.(CategorieTaskId := 2)), 7, now);
    assert noCategory == BadRequest && service.tasks == [row];
    var noModel := service.InsertTask(None, 7, now);
    assert noModel == Internal;
    assert 8 !in service.users;
    var stranger := service.AsignTask(row.(UserId := 8), now);
    assert stranger == BadRequest && service.tasks == [row];

  }
}
