/**
  The rows of the task store (tasks and their categories), the shapes the
  service's queries project them to, and the outcomes its operations report.
 */
module TaskEntities {
  import opened Wrappers
  import opened Linq

  /** A point in time as read from `DateTime.Now`: a plain integer the model only stores. */
  type DateTime = int

  /** A row of the task table. The `Category` navigation property is left out: it mirrors `CategorieTaskId`. */
  datatype TaskEntity = TaskEntity(
    Id: int,
    Title: Option<string>,
    Description: Option<string>,
    Done: bool,
    CreatedAt: DateTime,
    FinishedAt: Option<DateTime>,
    CategorieTaskId: int,
    UserId: int)

  /** A row of the category table. */
  datatype CategorieTask = CategorieTask(Id: int, Name: Option<string>)

  /** The anonymous object each list query yields per task. */
  datatype TaskView = TaskView(
    TaskId: int,
    TaskTitle: Option<string>,
    TaskDescription: Option<string>,
    Done: bool,
    CreatedAt: DateTime,
    CategoryName: Option<string>)

  /** What `GetById` sends back: the four properties it copies, and nothing else of the row. */
  datatype TaskDetails = TaskDetails(
    Title: Option<string>,
    Description: Option<string>,
    CreatedAt: DateTime,
    Done: bool)

  /** The HTTP-level outcome of an operation: 200 with a body, 404, 400 or 500. */
  datatype Response<+T> = Ok(value: T) | NotFound | BadRequest | Internal

  /** The row tests the service passes to `Where` and `FirstOrDefault`. */
  function HasId(id: int): TaskEntity -> bool { (t: TaskEntity) => t.Id == id }

  function CategoryHasId(id: int): CategorieTask -> bool { (c: CategorieTask) => c.Id == id }

  function OwnedBy(userId: int): TaskEntity -> bool { (t: TaskEntity) => t.UserId == userId }

  function IsPending(t: TaskEntity): bool { t.Done == false }

  function IsDone(t: TaskEntity): bool { t.Done == true }

  /**
    `CategorieTasks.Where(c => c.Id == id).Select(c => c.Name).FirstOrDefault()`:
    the name of the first category with that id, or null when there is none.
   */
  function CategoryName(categories: seq<CategorieTask>, id: int): (r: Option<string>)
    ensures (forall k :: 0 <= k < |categories| ==> categories[k].Id != id) ==> r == None
    ensures forall k ::
              0 <= k < |categories| && categories[k].Id == id && (forall j :: 0 <= j < k ==> categories[j].Id != id)
              ==> r == categories[k].Name
  {
    match FirstIndex(categories, CategoryHasId(id))
    case None => None
    case Some(k) => categories[k].Name
  }

  /** The projection every list query applies to a task row. */
  function ToView(categories: seq<CategorieTask>, t: TaskEntity): TaskView {
    TaskView(t.Id, t.Title, t.Description, t.Done, t.CreatedAt, CategoryName(categories, t.CategorieTaskId))
  }

  function Viewer(categories: seq<CategorieTask>): TaskEntity -> TaskView { (t: TaskEntity) => ToView(categories, t) }

  /** Rows in storage order have strictly increasing primary keys (so no key occurs twice). */
  ghost predicate IdsIncreasing(s: seq<TaskEntity>) {
    forall j, k :: 0 <= j < k < |s| ==> s[j].Id < s[k].Id
  }

  ghost predicate ViewIdsIncreasing(r: seq<TaskView>) {
    forall j, k :: 0 <= j < k < |r| ==> r[j].TaskId < r[k].TaskId
  }

  /** A task is done exactly when it has a finishing time. */
  ghost predicate DoneMatchesFinished(s: seq<TaskEntity>) {
    forall t :: t in s ==> (t.Done <==> t.FinishedAt.Some?)
  }

  /** Filtering a table keeps its rows in storage order, so the keys stay increasing. */
  lemma {:induction false} WhereKeepsIdOrder(s: seq<TaskEntity>, p: TaskEntity -> bool)
    requires IdsIncreasing(s)
    ensures IdsIncreasing(Where(s, p))
  {
    if s != [] {
      var tail := s[1..];
      WhereKeepsIdOrder(tail, p);
      var rest := Where(tail, p);
      if p(s[0]) {
        forall x | x in rest ensures s[0].Id < x.Id {
          var i :| 0 <= i < |tail| && tail[i] == x;
          assert x == s[i + 1];
        }
        PrependKeepsIdOrder(s[0], rest);
        assert Where(s, p) == [s[0]] + rest;
      } else {
        assert Where(s, p) == rest;
      }
    }
  }

  lemma PrependKeepsIdOrder(t: TaskEntity, s: seq<TaskEntity>)
    requires IdsIncreasing(s)
    requires forall x :: x in s ==> t.Id < x.Id
    ensures IdsIncreasing([t] + s)
  {
  }

  /** A row whose key exceeds every key in the table can be appended without breaking the order. */
  lemma AppendKeepsIdOrder(s: seq<TaskEntity>, t: TaskEntity)
    requires IdsIncreasing(s)
    requires forall x :: x in s ==> x.Id < t.Id
    ensures IdsIncreasing(s + [t])
  {
  }

  /** Rewriting a row without touching its key keeps the table's key order. */
  lemma UpdateKeepsIdOrder(s: seq<TaskEntity>, i: nat, t: TaskEntity)
    requires IdsIncreasing(s)
    requires i < |s| && t.Id == s[i].Id
    ensures IdsIncreasing(s[i := t])
    ensures forall x :: x in s[i := t] ==> x == t || x in s
  {
  }

  /** Keys do not repeat: the only row with the key of row `i` is row `i`. */
  lemma KeyDeterminesRow(s: seq<TaskEntity>, i: nat)
    requires IdsIncreasing(s)
    requires i < |s|
    ensures forall j :: 0 <= j < |s| && s[j].Id == s[i].Id ==> j == i
  {
  }

  /**
    Removing the row at `i` keeps the others in order, and since keys do not
    repeat, no remaining row has the removed row's key.
   */
  lemma RemoveKeepsIdOrder(s: seq<TaskEntity>, i: nat)
    requires IdsIncreasing(s)
    requires i < |s|
    ensures IdsIncreasing(s[..i] + s[i + 1..])
    ensures forall x :: x in s[..i] + s[i + 1..] ==> x in s && x.Id != s[i].Id
  {
  }

  /** Projecting rows with increasing keys yields entries with increasing task ids. */
  lemma ProjectionKeepsIdOrder(categories: seq<CategorieTask>, s: seq<TaskEntity>)
    requires IdsIncreasing(s)
    ensures ViewIdsIncreasing(Select(s, Viewer(categories)))
  {
  }

  /** An entry is in the projection of a table exactly when it is the projection of one of its rows. */
  lemma ProjectionMembership(categories: seq<CategorieTask>, s: seq<TaskEntity>)
    ensures forall v :: v in Select(s, Viewer(categories)) <==> exists t :: t in s && v == ToView(categories, t)
  {
    forall v ensures v in Select(s, Viewer(categories)) <==> exists t :: t in s && v == Viewer(categories)(t) {
      SelectMembership(s, Viewer(categories), v);
    }
  }
}
