/** The `tasks` state both client pages keep, and the two list updates they apply after a
    successful delete or update. */
module ClientTasks {
  import opened Common
  import opened Seqs

  /** A task as the pages receive it in JSON; `description` may be absent or `null`. */
  datatype ClientTask = ClientTask(id: string, title: string, description: Option<string>)

  /** An element of the `tasks` array; `None` is a `null` or `undefined` element, which the
      array can hold (`result.task` may be missing when it is written in). */
  type Entry = Option<ClientTask>

  /** What `await fetch(...)` and `await res.json()` yield: `Threw` when either throws,
      otherwise `res.ok` and the body's `message` and `task` fields. */
  datatype Fetched = Threw | Answered(ok: bool, message: Option<string>, task: Option<ClientTask>)

  predicate NoNulls(ts: seq<Entry>) {
    forall i :: 0 <= i < |ts| ==> ts[i].Some?
  }

  /** The entry is a task whose `_id` is `id`. */
  predicate HasId(e: Entry, id: string) {
    e.Some? && e.value.id == id
  }

  function OtherId(id: string): Entry -> bool {
    (e: Entry) => !HasId(e, id)
  }

  /** `prev.filter((t) => t?._id !== id)`: every entry with that `_id` is gone, every other
      entry (a `null` one included) is kept, as often as it occurs and in order. */
  function WithoutId(ts: seq<Entry>, id: string): (r: seq<Entry>)
    ensures forall i :: 0 <= i < |r| ==> !HasId(r[i], id)
    ensures forall i :: 0 <= i < |ts| && !HasId(ts[i], id) ==> ts[i] in r
    ensures forall x :: !HasId(x, id) ==> multiset(r)[x] == multiset(ts)[x]
    ensures IsSubsequence(r, ts)
  {
    FilterIsSubsequence(ts, OtherId(id));
    FilterKeepsCounts(ts, OtherId(id));
    Filter(ts, OtherId(id))
  }

  /** `prev.map((t) => (t._id === id ? task : t))`: same length, the entries with that `_id`
      replaced by `task` and every other entry left in its place. */
  function ReplaceId(ts: seq<Entry>, id: string, task: Entry): (r: seq<Entry>)
    ensures |r| == |ts|
    ensures forall i :: 0 <= i < |ts| && HasId(ts[i], id) ==> r[i] == task
    ensures forall i :: 0 <= i < |ts| && !HasId(ts[i], id) ==> r[i] == ts[i]
  {
    seq(|ts|, i requires 0 <= i < |ts| => if HasId(ts[i], id) then task else ts[i])
  }

  /** Removing an id no entry has changes nothing. */
  lemma WithoutAbsentId(ts: seq<Entry>, id: string)
    requires forall i :: 0 <= i < |ts| ==> !HasId(ts[i], id)
    ensures WithoutId(ts, id) == ts
  {
    FilterKeepsAll(ts, OtherId(id));
  }

  /** Replacing an id no entry has changes nothing. */
  lemma ReplaceAbsentId(ts: seq<Entry>, id: string, task: Entry)
    requires forall i :: 0 <= i < |ts| ==> !HasId(ts[i], id)
    ensures ReplaceId(ts, id, task) == ts
  {
  }

  /** An update that returns a task with the same `_id` leaves the rest of the list as it
      was: removing that id afterwards gives what removing it before would have. */
  lemma {:induction false} ReplaceKeepsOthers(ts: seq<Entry>, id: string, task: Entry)
    requires HasId(task, id)
    ensures WithoutId(ReplaceId(ts, id, task), id) == WithoutId(ts, id)
  {
    if ts != [] {
      ReplaceKeepsOthers(ts[1..], id, task);
      assert ReplaceId(ts, id, task)[1..] == ReplaceId(ts[1..], id, task);
    }
  }
}
