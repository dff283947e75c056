/** The tasks page: the search-and-filter view of the list, and the list updates after a
    delete or an update. */
module TasksPage {
  import opened Common
  import opened Text
  import opened Seqs
  import opened ClientTasks

  /** `matchesSearch`: the lower-cased search text occurs in the lower-cased title or in the
      lower-cased description (an absent description reads as ""). */
  function MatchesSearch(t: ClientTask, search: string): (r: bool)
    ensures r ==> |search| <= |t.title| || |search| <= |OrElse(t.description, "")|
  {
    var q := ToLower(search);
    Contains(ToLower(t.title), q) || Contains(ToLower(OrElse(t.description, "")), q)
  }

  /** `task.description` is truthy. */
  predicate HasDescription(t: ClientTask) {
    Truthy(t.description)
  }

  /** The callback given to `tasks.filter`: null entries never, then the search, then the
      description filter; any filter value other than "with-desc" and "no-desc" acts as "all". */
  function Shown(e: Entry, search: string, filter: string): (r: bool)
    ensures r ==> e.Some? && MatchesSearch(e.value, search)
    ensures filter == "with-desc" && r ==> HasDescription(e.value)
    ensures filter == "no-desc" && r ==> !HasDescription(e.value)
    ensures filter != "with-desc" && filter != "no-desc" ==>
      (r <==> e.Some? && MatchesSearch(e.value, search))
  {
    && e.Some?
    && MatchesSearch(e.value, search)
    && (if filter == "with-desc" then HasDescription(e.value)
        else if filter == "no-desc" then !HasDescription(e.value)
        else true)
  }

  function ShownBy(search: string, filter: string): Entry -> bool {
    (e: Entry) => Shown(e, search, filter)
  }

  /** `filteredTasks`: an order-preserving subsequence of `tasks` with no null entry, holding
      every entry the search and the filter accept, as often as `tasks` does, and only those. */
  function FilteredTasks(tasks: seq<Entry>, search: string, filter: string): (r: seq<Entry>)
    ensures NoNulls(r)
    ensures IsSubsequence(r, tasks)
    ensures forall i :: 0 <= i < |r| ==> Shown(r[i], search, filter)
    ensures forall i :: 0 <= i < |tasks| && Shown(tasks[i], search, filter) ==> tasks[i] in r
    ensures forall x :: Shown(x, search, filter) ==> multiset(r)[x] == multiset(tasks)[x]
  {
    FilterIsSubsequence(tasks, ShownBy(search, filter));
    FilterKeepsCounts(tasks, ShownBy(search, filter));
    Filter(tasks, ShownBy(search, filter))
  }

  /** The empty search matches every task. */
  lemma EmptySearchMatches(t: ClientTask)
    ensures MatchesSearch(t, "")
  {
    ContainsEmpty(ToLower(t.title));
  }

  /** With the empty search and the "all" filter a list without null entries is shown whole. */
  lemma EmptySearchShowsAll(tasks: seq<Entry>)
    requires NoNulls(tasks)
    ensures FilteredTasks(tasks, "", "all") == tasks
  {
    forall i | 0 <= i < |tasks| ensures Shown(tasks[i], "", "all") {
      EmptySearchMatches(tasks[i].value);
    }
    FilterKeepsAll(tasks, ShownBy("", "all"));
  }

  /** Any filter value other than "with-desc" and "no-desc" shows what "all" shows. */
  lemma OtherFilterIsAll(tasks: seq<Entry>, search: string, filter: string)
    requires filter != "with-desc" && filter != "no-desc"
    ensures FilteredTasks(tasks, search, filter) == FilteredTasks(tasks, search, "all")
  {
    FilterCongruent(tasks, ShownBy(search, filter), ShownBy(search, "all"));
  }

  /** A task with a truthy description. */
  const Described: Entry -> bool := (e: Entry) => e.Some? && HasDescription(e.value)

  /** A task without a truthy description. */
  const Undescribed: Entry -> bool := (e: Entry) => e.Some? && !HasDescription(e.value)

  /** For a fixed search, "with-desc" and "no-desc" split what "all" shows: each is the "all"
      result narrowed by the description test, and together they hold every shown task once. */
  lemma DescriptionFiltersPartition(tasks: seq<Entry>, search: string)
    ensures FilteredTasks(tasks, search, "with-desc") == Filter(FilteredTasks(tasks, search, "all"), Described)
    ensures FilteredTasks(tasks, search, "no-desc") == Filter(FilteredTasks(tasks, search, "all"), Undescribed)
    ensures multiset(FilteredTasks(tasks, search, "with-desc")) + multiset(FilteredTasks(tasks, search, "no-desc"))
         == multiset(FilteredTasks(tasks, search, "all"))
  {
    var all := FilteredTasks(tasks, search, "all");
    FilterTwice(tasks, ShownBy(search, "all"), Described, ShownBy(search, "with-desc"));
    FilterTwice(tasks, ShownBy(search, "all"), Undescribed, ShownBy(search, "no-desc"));
    FilterSplits(all, Described, Undescribed);
  }

  /** The search ignores the case of ASCII letters: searching for a text and for its
      lower-cased form shows the same tasks. */
  lemma SearchIgnoresCase(tasks: seq<Entry>, search: string, filter: string)
    ensures FilteredTasks(tasks, search, filter) == FilteredTasks(tasks, ToLower(search), filter)
  {
    ToLowerIdempotent(search);
    FilterCongruent(tasks, ShownBy(search, filter), ShownBy(ToLower(search), filter));
  }

  /** The page's `tasks` state. */
  class TasksPage {
    var tasks: seq<Entry>

    constructor ()
      ensures tasks == []
    {
      tasks := [];
    }

    /** `handleDelete(id)`: on an ok response, `setTasks(prev => prev.filter(t => t._id !== id))`.
        That callback reads `t._id` of every entry and throws on a null one; `threw` reports it
        and the list is then left as it was. */
    method HandleDelete(id: string, reply: Fetched) returns (threw: bool)
      modifies this
      ensures !(reply.Answered? && reply.ok) ==> !threw && tasks == old(tasks)
      ensures reply.Answered? && reply.ok ==>
        && threw == !NoNulls(old(tasks))
        && tasks == (if threw then old(tasks) else WithoutId(old(tasks), id))
    {
      threw := false;
      if reply.Threw? || !reply.ok {
        return;
      }
      if NoNulls(tasks) {
        tasks := WithoutId(tasks, id);
      } else {
        threw := true;
      }
    }

    /** `handleUpdate(id, ...)`: on an ok response, `setTasks(prev => prev.map(t => t._id === id
        ? result.task : t))`, which throws on a null entry as `HandleDelete`'s callback does. */
    method HandleUpdate(id: string, reply: Fetched) returns (threw: bool)
      modifies this
      ensures !(reply.Answered? && reply.ok) ==> !threw && tasks == old(tasks)
      ensures reply.Answered? && reply.ok ==>
        && threw == !NoNulls(old(tasks))
        && tasks == (if threw then old(tasks) else ReplaceId(old(tasks), id, reply.task))
    {
      threw := false;
      if reply.Threw? || !reply.ok {
        return;
      }
      if NoNulls(tasks) {
        tasks := ReplaceId(tasks, id, reply.task);
      } else {
        threw := true;
      }
    }
  }
}
