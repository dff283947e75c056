/** The task collection and `POST /api/tasks/create`: the guard, the title check, and the
    insertion of one task owned by the caller. */
module TaskStore {
  import opened Common
  import opened Text
  import opened Http
  import opened Seqs

  /** A database-assigned task id; the collection hands them out in increasing order. */
  type TaskId = nat

  /** A stored task; `owner` is the `user` field, `createdAt` the creation timestamp. */
  datatype Task = Task(id: TaskId, title: string, description: string, owner: UserId, createdAt: int)

  /** The fields the create route destructures from the JSON body. */
  datatype CreateBody = CreateBody(title: Option<string>, description: Option<string>)

  /** `!title || !title.trim()`: the title check rejects exactly the absent and the blank
      titles (empty or white space only). */
  function TitleMissing(title: Option<string>): (r: bool)
    ensures r <==> title.None? || IsBlank(title.value)
  {
    assert title.Some? && title.value == "" ==> IsBlank(title.value);
    !Truthy(title) || Trim(title.value) == ""
  }

  function TaskIdOf(t: Task): TaskId {
    t.id
  }

  /** The `Task` collection: its documents in insertion order and the next id it assigns. */
  class TaskCollection {
    var tasks: seq<Task>
    var nextId: TaskId

    ghost predicate Valid()
      reads this
    {
      UniqueKeys(tasks, TaskIdOf) && forall i :: 0 <= i < |tasks| ==> tasks[i].id < nextId
    }

    constructor ()
      ensures Valid() && tasks == []
    {
      tasks := [];
      nextId := 0;
    }

    /** `Task.create({ title, description: description || "", user: decoded.id })`: appends
        one task with a fresh id and returns it. */
    method Insert(title: string, description: string, owner: UserId, now: int) returns (t: Task)
      requires Valid()
      modifies this
      ensures Valid()
      ensures tasks == old(tasks) + [t]
      ensures t.title == title && t.description == description && t.owner == owner && t.createdAt == now
      ensures forall i :: 0 <= i < |old(tasks)| ==> old(tasks)[i].id != t.id
    {
      t := Task(nextId, title, description, owner, now);
      tasks := tasks + [t];
      nextId := nextId + 1;
    }

    /** `POST /api/tasks/create` at time `now`. Every rejection happens before anything is
        written; on success exactly one task, owned by the token's id, is appended. */
    method Create(cookies: RequestCookies, verify: Verifier, body: CreateBody, now: int) returns (r: Reply<Task>)
      requires Valid()
      modifies this
      ensures Valid()
      ensures Authenticate(cookies, verify).NoToken? ==>
        r == Reply(401, Some("Unauthorized"), None) && tasks == old(tasks)
      ensures Authenticate(cookies, verify).BadToken? ==>
        r == Reply(401, Some("Invalid token"), None) && tasks == old(tasks)
      ensures Authenticate(cookies, verify).Verified? && TitleMissing(body.title) ==>
        r == Reply(400, Some("Title is required"), None) && tasks == old(tasks)
      ensures Authenticate(cookies, verify).Verified? && !TitleMissing(body.title) ==>
        && r.status == 201 && r.message == Some("Task created successfully") && r.payload.Some?
        && tasks == old(tasks) + [r.payload.value]
        && r.payload.value.owner == Authenticate(cookies, verify).claims.id
        && r.payload.value.title == body.title.value
        && r.payload.value.description == OrElse(body.description, "")
        && r.payload.value.createdAt == now
        && forall i :: 0 <= i < |old(tasks)| ==> old(tasks)[i].id != r.payload.value.id
    {
      var g := Authenticate(cookies, verify);
      if g.NoToken? {
        return Reply(401, Some("Unauthorized"), None);
      }
      if g.BadToken? {
        return Reply(401, Some("Invalid token"), None);
      }
      if TitleMissing(body.title) {
        return Reply(400, Some("Title is required"), None);
      }
      var t := Insert(body.title.value, OrElse(body.description, ""), g.claims.id, now);
      r := Reply(201, Some("Task created successfully"), Some(t));
    }
  }
}
