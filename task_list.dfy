/** `GET /api/tasks/list`: `Task.find({ user: decoded.id }).sort({ createdAt: -1 })`, a read-only
    query over the collection's contents. */
module TaskList {
  import opened Common
  import opened Seqs
  import opened Http
  import opened TaskStore

  function OwnedBy(owner: UserId): Task -> bool {
    (t: Task) => t.owner == owner
  }

  /** Every task is at least as new as every task after it. */
  predicate NewestFirst(ts: seq<Task>) {
    forall i, j :: 0 <= i < j < |ts| ==> ts[i].createdAt >= ts[j].createdAt
  }

  /** Puts `t` into a newest-first sequence, ahead of the tasks no newer than it. */
  function InsertNewestFirst(t: Task, ts: seq<Task>): (r: seq<Task>)
    requires NewestFirst(ts)
    ensures NewestFirst(r)
    ensures multiset(r) == multiset(ts) + multiset{t}
    ensures r[0] == t || (ts != [] && r[0] == ts[0])
  {
    if ts == [] || t.createdAt >= ts[0].createdAt then
      ConsNewestFirst(t, ts);
      [t] + ts
    else
      var tail := ts[1..];
      var rest := InsertNewestFirst(t, tail);
      assert rest[0].createdAt <= ts[0].createdAt by {
        if rest[0] != t {
          assert rest[0] == tail[0] == ts[1];
        }
      }
      ConsNewestFirst(ts[0], rest);
      assert ts == [ts[0]] + tail;
      assert multiset([ts[0]] + rest) == multiset{ts[0]} + multiset(rest);
      [ts[0]] + rest
  }

  /** A task no older than the head of a newest-first sequence can go in front of it. */
  lemma ConsNewestFirst(x: Task, ts: seq<Task>)
    requires NewestFirst(ts)
    requires ts == [] || ts[0].createdAt <= x.createdAt
    ensures NewestFirst([x] + ts)
  {
    var r := [x] + ts;
    forall i, j | 0 <= i < j < |r| ensures r[i].createdAt >= r[j].createdAt {
      assert r[j] == ts[j - 1];
      if i > 0 {
        assert r[i] == ts[i - 1];
      } else {
        assert ts[0].createdAt >= ts[j - 1].createdAt;
      }
    }
  }

  /** `.sort({ createdAt: -1 })`: newest first, ties kept in collection order. */
  function SortNewestFirst(ts: seq<Task>): (r: seq<Task>)
    ensures NewestFirst(r)
    ensures multiset(r) == multiset(ts)
  {
    if ts == [] then []
    else
      assert ts == [ts[0]] + ts[1..];
      InsertNewestFirst(ts[0], SortNewestFirst(ts[1..]))
  }

  /** `GET /api/tasks/list` over the collection `tasks`: the guard, then the caller's own tasks,
      newest first. */
  function List(tasks: seq<Task>, cookies: RequestCookies, verify: Verifier): (r: Reply<seq<Task>>)
    ensures Authenticate(cookies, verify).NoToken? ==> r == Reply(401, Some("Unauthorized"), None)
    ensures Authenticate(cookies, verify).BadToken? ==> r == Reply(401, Some("Invalid token"), None)
    ensures Authenticate(cookies, verify).Verified? ==>
      && r.status == 200 && r.message == None && r.payload.Some?
      && NewestFirst(r.payload.value)
      && multiset(r.payload.value) == multiset(Filter(tasks, OwnedBy(Authenticate(cookies, verify).claims.id)))
  {
    match Authenticate(cookies, verify)
    case NoToken => Reply(401, Some("Unauthorized"), None)
    case BadToken => Reply(401, Some("Invalid token"), None)
    case Verified(c) => Reply(200, None, Some(SortNewestFirst(Filter(tasks, OwnedBy(c.id)))))
  }

  /** Every listed task belongs to the caller. */
  lemma ListOnlyOwnTasks(tasks: seq<Task>, cookies: RequestCookies, verify: Verifier, t: Task)
    requires Authenticate(cookies, verify).Verified?
    requires t in List(tasks, cookies, verify).payload.value
    ensures t.owner == Authenticate(cookies, verify).claims.id
  {
    var owner := Authenticate(cookies, verify).claims.id;
    var owned := Filter(tasks, OwnedBy(owner));
    assert t in multiset(owned);
    var i :| 0 <= i < |owned| && owned[i] == t;
  }

  /** Every task of the caller in the collection is listed. */
  lemma ListAllOwnTasks(tasks: seq<Task>, cookies: RequestCookies, verify: Verifier, t: Task)
    requires Authenticate(cookies, verify).Verified?
    requires t in tasks && t.owner == Authenticate(cookies, verify).claims.id
    ensures t in List(tasks, cookies, verify).payload.value
  {
    var owned := Filter(tasks, OwnedBy(t.owner));
    var i :| 0 <= i < |tasks| && tasks[i] == t;
    assert t in owned;
    assert t in multiset(owned);
  }

  /** Of two listed tasks with different creation times, the newer comes first. */
  lemma ListNewerBeforeOlder(tasks: seq<Task>, cookies: RequestCookies, verify: Verifier, i: int, j: int)
    requires Authenticate(cookies, verify).Verified?
    requires 0 <= i < |List(tasks, cookies, verify).payload.value|
    requires 0 <= j < |List(tasks, cookies, verify).payload.value|
    requires List(tasks, cookies, verify).payload.value[i].createdAt > List(tasks, cookies, verify).payload.value[j].createdAt
    ensures i < j
  {
  }

  /** A caller who owns no task gets 200 with an empty list, not an error. */
  lemma ListNoTasks(tasks: seq<Task>, cookies: RequestCookies, verify: Verifier)
    requires Authenticate(cookies, verify).Verified?
    requires forall i :: 0 <= i < |tasks| ==> tasks[i].owner != Authenticate(cookies, verify).claims.id
    ensures List(tasks, cookies, verify) == Reply(200, None, Some([]))
  {
    var owner := Authenticate(cookies, verify).claims.id;
    FilterKeepsNone(tasks, OwnedBy(owner));
  }

  /** A rejected request never looks at the collection: its reply is the same whatever the
      collection holds. */
  lemma ListRejectionIgnoresStore(tasks: seq<Task>, others: seq<Task>, cookies: RequestCookies, verify: Verifier)
    requires !Authenticate(cookies, verify).Verified?
    ensures List(tasks, cookies, verify) == List(others, cookies, verify)
    ensures List(tasks, cookies, verify).status == 401
  {
  }
}
