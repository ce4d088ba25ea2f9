/** The task list handlers of App.tsx other than the reward latch: creating
    and editing a task (`handleAddTask`), deleting one behind the typed
    confirmation (`confirmDeleteTask`) and the text search over the list. */
module Tasks {

  import opened Types
  import opened Text
  import opened Seqs
  import opened Rewards

  /** The task `handleAddTask` appends; an empty deadline field means now.
      It is pending and unfinished, and its reward is still to be claimed. */
  function NewTask(id: string, userId: string, text: string, deadline: Option<int>, now: int): (t: Task)
    ensures t.status == Pending && !Claimed(t) && t.finishedTime.None?
    ensures t.id == id && t.text == text && t.createdAt == now
    ensures t.deadline == (if deadline.Some? then deadline.value else now)
  {
    Task(id, userId, text, None,
         match deadline case Some(d) => d case None => now,
         Pending, None, now, Some(false))
  }

  /** The edit branch of `handleAddTask`: the task with the edited id gets the
      new text, and the new deadline when one was entered. */
  function EditTasks(tasks: seq<Task>, editingId: string, text: string, deadline: Option<int>): (r: seq<Task>)
    ensures |r| == |tasks|
    ensures forall i :: 0 <= i < |r| ==>
      r[i].id == tasks[i].id && r[i].status == tasks[i].status && Claimed(r[i]) == Claimed(tasks[i])
  {
    Map((t: Task) =>
          if t.id == editingId
          then t.(text := text, deadline := match deadline case Some(d) => d case None => t.deadline)
          else t,
        tasks)
  }

  /** `tasks.find(t => t.id === id)`, as the position of the first task
      with the id, -1 when there is none. */
  function FindTask(tasks: seq<Task>, id: string): (k: int)
    ensures -1 <= k < |tasks|
    ensures k >= 0 ==> tasks[k].id == id && forall j :: 0 <= j < k ==> tasks[j].id != id
    ensures k == -1 <==> forall j :: 0 <= j < |tasks| ==> tasks[j].id != id
  {
    FindFirst((t: Task) => t.id, tasks, id)
  }

  /** `tasks.map(t => t.id === id ? updated : t)` */
  function ReplaceTasks(tasks: seq<Task>, id: string, updated: Task): (r: seq<Task>)
    ensures |r| == |tasks|
    ensures forall i :: 0 <= i < |r| && tasks[i].id != id ==> r[i] == tasks[i]
  {
    Map((t: Task) => if t.id == id then updated else t, tasks)
  }

  /** Replacing puts `updated` at every position holding the id and keeps
      every other task in its place. */
  lemma ReplaceEffect(tasks: seq<Task>, id: string, updated: Task)
    ensures |ReplaceTasks(tasks, id, updated)| == |tasks|
    ensures forall i :: 0 <= i < |tasks| ==>
      ReplaceTasks(tasks, id, updated)[i] == (if tasks[i].id == id then updated else tasks[i])
  {
  }

  /** `tasks.filter(t => t.id !== taskToDelete)` */
  function DeleteTasks(tasks: seq<Task>, id: string): (r: seq<Task>)
    ensures |r| <= |tasks|
    ensures forall i :: 0 <= i < |r| ==> r[i].id != id
  {
    Filter((t: Task) => t.id != id, tasks)
  }

  /** `deleteInput.toLowerCase() === 'okay'` */
  predicate ConfirmsDelete(input: string)
    ensures ConfirmsDelete(input) ==> |input| == 4
  {
    ToLower(input) == "okay"
  }

  /** The search box: tasks whose text contains the term, ignoring case. */
  function SearchTasks(tasks: seq<Task>, term: string): (r: seq<Task>)
    ensures |r| <= |tasks|
    ensures forall i :: 0 <= i < |r| ==> Contains(ToLower(r[i].text), ToLower(term))
  {
    Filter((t: Task) => Contains(ToLower(t.text), ToLower(term)), tasks)
  }

  /** A new task is pending with its reward unclaimed, so completing it pays
      a ticket. */
  lemma NewTaskEarns(user: User, id: string, userId: string, text: string, deadline: Option<int>, now: int, later: int)
    ensures var t := NewTask(id, userId, text, deadline, now);
      && t.status == Pending && !Claimed(t) && t.finishedTime.None?
      && t.deadline == (if deadline.Some? then deadline.value else now)
      && Toggle(user, t, later).user.tickets == user.tickets + 1
  {
  }

  /** An edit changes the text (and the deadline when one was entered) of the
      tasks with the edited id and nothing else: in particular neither the
      status nor the reward latch. */
  lemma EditEffect(tasks: seq<Task>, editingId: string, text: string, deadline: Option<int>)
    ensures |EditTasks(tasks, editingId, text, deadline)| == |tasks|
    ensures forall i :: 0 <= i < |tasks| ==>
      var r := EditTasks(tasks, editingId, text, deadline)[i];
      && (tasks[i].id != editingId ==> r == tasks[i])
      && (tasks[i].id == editingId ==>
            && r == tasks[i].(text := text, deadline := r.deadline)
            && r.text == text
            && (deadline.None? ==> r.deadline == tasks[i].deadline)
            && (deadline.Some? ==> r.deadline == deadline.value))
  {
  }

  /** Deleting removes every task with the id, keeps all others, and keeps
      their order; when no task has the id nothing changes. */
  lemma DeleteEffect(tasks: seq<Task>, id: string, a: seq<Task>, b: seq<Task>)
    ensures forall t :: t in DeleteTasks(tasks, id) ==> t in tasks && t.id != id
    ensures forall i :: 0 <= i < |tasks| && tasks[i].id != id ==> tasks[i] in DeleteTasks(tasks, id)
    ensures DeleteTasks(a + b, id) == DeleteTasks(a, id) + DeleteTasks(b, id)
    ensures (forall i :: 0 <= i < |tasks| ==> tasks[i].id != id) ==> DeleteTasks(tasks, id) == tasks
  {
    forall t | t in DeleteTasks(tasks, id) ensures t in tasks && t.id != id {
      FilterMembers((t: Task) => t.id != id, tasks, t);
    }
    forall i | 0 <= i < |tasks| && tasks[i].id != id ensures tasks[i] in DeleteTasks(tasks, id) {
      FilterMembers((t: Task) => t.id != id, tasks, tasks[i]);
    }
    FilterConcat((t: Task) => t.id != id, a, b);
    if forall i :: 0 <= i < |tasks| ==> tasks[i].id != id {
      FilterAll((t: Task) => t.id != id, tasks);
    }
  }

  /** The confirmation ignores case but not spelling or padding. */
  lemma ConfirmPhrase()
    ensures ConfirmsDelete("okay") && ConfirmsDelete("OKAY") && ConfirmsDelete("Okay")
    ensures !ConfirmsDelete("ok") && !ConfirmsDelete("okay ") && !ConfirmsDelete("")
  {
    assert ToLower("OKAY") == "okay";
    assert ToLower("Okay") == "okay";
  }

  /** A task is found exactly when its text contains the term, ignoring case;
      an empty term finds every task, in order. */
  lemma SearchEffect(tasks: seq<Task>, term: string)
    ensures forall t :: t in SearchTasks(tasks, term) <==> t in tasks && Contains(ToLower(t.text), ToLower(term))
    ensures SearchTasks(tasks, term) == SearchTasks(tasks, ToLower(term))
    ensures term == "" ==> SearchTasks(tasks, term) == tasks
  {
    var p := (t: Task) => Contains(ToLower(t.text), ToLower(term));
    forall t ensures t in SearchTasks(tasks, term) <==> t in tasks && p(t) {
      FilterMembers(p, tasks, t);
    }
    ToLowerIdempotent(term);
    assert p == (t: Task) => Contains(ToLower(t.text), ToLower(ToLower(term)));
    if term == "" {
      forall i | 0 <= i < |tasks| ensures p(tasks[i]) {
        ContainsEmpty(ToLower(tasks[i].text));
      }
      FilterAll(p, tasks);
    }
  }
}
