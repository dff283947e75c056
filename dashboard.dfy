/** The dashboard: the create form and the list updates after a create, a delete or an update. */
module Dashboard {
  import opened Common
  import opened Text
  import opened ClientTasks

  /** The JSON body the create form posts. */
  datatype CreateRequest = CreateRequest(title: string, description: string)

  const EmptyTitleError: string := "Task title cannot be empty"

  /** The dashboard's `tasks`, `newTask`, `newDescription` and `createError` state. */
  class Dashboard {
    var tasks: seq<Entry>
    var newTask: string
    var newDescription: string
    var createError: string

    constructor ()
      ensures tasks == [] && newTask == "" && newDescription == "" && createError == ""
    {
      tasks := [];
      newTask := "";
      newDescription := "";
      createError := "";
    }

    /** `handleCreateTask`: a blank title (one whose `trim()` is empty, which by `Trim`'s contract
        is `IsBlank`) is refused on the page and nothing is sent (`sent` is
        the request, if one goes out, and `reply` what comes back for it). Only an ok reply that
        carries a task changes the list: the task goes in front and both inputs are cleared. */
    method HandleCreateTask(reply: Fetched) returns (sent: Option<CreateRequest>)
      modifies this
      ensures IsBlank(old(newTask)) ==>
        && sent == None && createError == EmptyTitleError
        && tasks == old(tasks) && newTask == old(newTask) && newDescription == old(newDescription)
      ensures !IsBlank(old(newTask)) ==> sent == Some(CreateRequest(old(newTask), old(newDescription)))
      ensures sent.Some? && reply.Threw? ==>
        && createError == "Something went wrong"
        && tasks == old(tasks) && newTask == old(newTask) && newDescription == old(newDescription)
      ensures sent.Some? && reply.Answered? && (!reply.ok || reply.task.None?) ==>
        && createError == OrElse(reply.message, "Failed to create task")
        && tasks == old(tasks) && newTask == old(newTask) && newDescription == old(newDescription)
      ensures sent.Some? && reply.Answered? && reply.ok && reply.task.Some? ==>
        && tasks == [reply.task] + old(tasks) && newTask == "" && newDescription == ""
        && createError == ""
    {
      var blank := IsBlank(newTask);
      if blank {
        sent := None;
        createError := EmptyTitleError;
      } else {
        sent := Some(CreateRequest(newTask, newDescription));
        if reply.Threw? {
          createError := "Something went wrong";
        } else if !reply.ok || reply.task.None? {
          createError := OrElse(reply.message, "Failed to create task");
        } else {
          tasks := [reply.task] + tasks;
          newTask := "";
          newDescription := "";
          createError := "";
        }
      }
    }

    /** `handleDeleteTask(id)`: on an ok response, `prev.filter((t) => t?._id !== id)`, which is
        safe on null entries. */
    method HandleDeleteTask(id: string, reply: Fetched)
      modifies this`tasks
      ensures tasks == if reply.Answered? && reply.ok then WithoutId(old(tasks), id) else old(tasks)
    {
      if reply.Answered? && reply.ok {
        tasks := WithoutId(tasks, id);
      }
    }

    /** `handleUpdateTask(id, ...)`: on an ok response, `prev.map((t) => (t._id === id ?
        result.task : t))`; that callback throws on a null entry, which `threw` reports, and the
        list is then left as it was. */
    method HandleUpdateTask(id: string, reply: Fetched) returns (threw: bool)
      modifies this`tasks
      ensures !(reply.Answered? && reply.ok) ==> !threw && tasks == old(tasks)
      ensures reply.Answered? && reply.ok ==>
        && threw == !NoNulls(old(tasks))
        && tasks == (if threw then old(tasks) else ReplaceId(old(tasks), id, reply.task))
    {
      threw := false;
      if reply.Answered? && reply.ok {
        if NoNulls(tasks) {
          tasks := ReplaceId(tasks, id, reply.task);
        } else {
          threw := true;
        }
      }
    }
  }
}
