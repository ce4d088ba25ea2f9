/** The state of the App component and its handlers. Each React state
    variable is a field; each handler updates the fields in place with the
    transitions the other modules define, and keeps the reward economy's
    invariant `Valid`. */
module AppState {

  import opened Types
  import opened Collection
  import opened Gacha
  import opened Rewards
  import opened Tasks

  /** Ticket, progress and pity counts stay in range. */
  predicate UserValid(u: User) {
    && 0 <= u.tickets
    && 0 <= u.eggProgress <= ProgressFull
    && 0 <= u.pityCounter <= PityLimit
  }

  class App {
    var user: Option<User>
    var tasks: seq<Task>
    var ducks: seq<Duck>
    /** The id awaiting the typed confirmation; None or "" when none. */
    var taskToDelete: Option<string>
    var deleteInput: string
    /** The task form: the task being edited, the text, and the deadline
        field (None when left empty). */
    var editingTask: Option<Task>
    var newTaskText: string
    var newTaskDeadline: Option<int>

    /** One entry per duck name, no negative star level, and a signed-in
        user whose counters are in range. */
    predicate Valid()
      reads this
    {
      && UniqueNames(ducks)
      && StarsNonNegative(ducks)
      && (user.Some? ==> UserValid(user.value))
    }

    /** The initial state: nobody signed in. */
    constructor ()
      ensures user.None? && tasks == [] && ducks == []
      ensures taskToDelete.None? && deleteInput == ""
      ensures editingTask.None? && newTaskText == "" && newTaskDeadline.None?
      ensures Valid()
    {
      user := None;
      tasks := [];
      ducks := [];
      taskToDelete := None;
      deleteInput := "";
      editingTask := None;
      newTaskText := "";
      newTaskDeadline := None;
    }

    /** The start-up effect: the saved user gets a pity counter of 0 when it
        has none, and every saved duck without stars gets one. Missing saved
        lists are empty. */
    method RestoreSession(saved: StoredUser, savedTasks: Option<seq<Task>>, savedDucks: Option<seq<Duck>>)
      modifies this
      ensures user == Some(MigrateUser(saved))
      ensures tasks == (if savedTasks.Some? then savedTasks.value else [])
      ensures ducks == DefaultStars(if savedDucks.Some? then savedDucks.value else [])
      ensures taskToDelete == old(taskToDelete) && deleteInput == old(deleteInput)
      ensures editingTask == old(editingTask) && newTaskText == old(newTaskText) && newTaskDeadline == old(newTaskDeadline)
    {
      user := Some(MigrateUser(saved));
      LoadUserData(savedTasks, savedDucks);
    }

    /** `handleLogin`: the user as given, then the saved lists. */
    method HandleLogin(u: User, savedTasks: Option<seq<Task>>, savedDucks: Option<seq<Duck>>)
      modifies this
      ensures user == Some(u)
      ensures tasks == (if savedTasks.Some? then savedTasks.value else [])
      ensures ducks == DefaultStars(if savedDucks.Some? then savedDucks.value else [])
      ensures taskToDelete == old(taskToDelete) && deleteInput == old(deleteInput)
      ensures editingTask == old(editingTask) && newTaskText == old(newTaskText) && newTaskDeadline == old(newTaskDeadline)
    {
      user := Some(u);
      LoadUserData(savedTasks, savedDucks);
    }

    /** `loadUserData` */
    method LoadUserData(savedTasks: Option<seq<Task>>, savedDucks: Option<seq<Duck>>)
      modifies this
      ensures tasks == (if savedTasks.Some? then savedTasks.value else [])
      ensures ducks == DefaultStars(if savedDucks.Some? then savedDucks.value else [])
      ensures user == old(user)
      ensures taskToDelete == old(taskToDelete) && deleteInput == old(deleteInput)
      ensures editingTask == old(editingTask) && newTaskText == old(newTaskText) && newTaskDeadline == old(newTaskDeadline)
    {
      tasks := if savedTasks.Some? then savedTasks.value else [];
      ducks := DefaultStars(if savedDucks.Some? then savedDucks.value else []);
    }

    /** `handleLogout` */
    method HandleLogout()
      modifies this
      ensures user.None? && tasks == [] && ducks == []
      ensures taskToDelete == old(taskToDelete) && deleteInput == old(deleteInput)
      ensures editingTask == old(editingTask) && newTaskText == old(newTaskText) && newTaskDeadline == old(newTaskDeadline)
      ensures Valid()
    {
      user := None;
      tasks := [];
      ducks := [];
    }

    /** `mergeDucks`: a copy of the inventory updated duck by duck, then
        stored. */
    method MergeDucks(incoming: seq<Duck>)
      modifies this
      ensures ducks == MergeAll(old(ducks), incoming)
      ensures user == old(user) && tasks == old(tasks)
      ensures taskToDelete == old(taskToDelete) && deleteInput == old(deleteInput)
      ensures editingTask == old(editingTask) && newTaskText == old(newTaskText) && newTaskDeadline == old(newTaskDeadline)
      ensures old(UniqueNames(ducks)) ==> UniqueNames(ducks)
      ensures old(StarsNonNegative(ducks)) ==> StarsNonNegative(ducks)
    {
      var updated := ducks;
      for i := 0 to |incoming|
        invariant updated == MergeAll(ducks, incoming[..i])
      {
        assert incoming[..i + 1][..i] == incoming[..i];
        var k := FindByName(updated, incoming[i].name);
        if k >= 0 {
          updated := updated[k := Upgraded(updated[k])];
        } else {
          updated := [incoming[i].(stars := 1)] + updated;
        }
      }
      assert incoming[..|incoming|] == incoming;
      if UniqueNames(ducks) {
        MergeKeepsUnique(ducks, incoming);
      }
      if StarsNonNegative(ducks) {
        MergeStars(ducks, incoming, "");
      }
      ducks := updated;
    }

    /** `toggleTaskStatus`: nothing happens without a user or without a
        task of that id; otherwise the first task with the id is toggled,
        the result replaces every task with the id, and the user's tickets
        and egg progress are updated. */
    method ToggleTaskStatus(id: string, now: int)
      modifies this
      ensures old(user).None? || FindTask(old(tasks), id) < 0 ==> user == old(user) && tasks == old(tasks)
      ensures old(user).Some? && FindTask(old(tasks), id) >= 0 ==>
        var r := Toggle(old(user).value, old(tasks)[FindTask(old(tasks), id)], now);
        user == Some(r.user) && tasks == ReplaceTasks(old(tasks), id, r.task)
      ensures ducks == old(ducks)
      ensures taskToDelete == old(taskToDelete) && deleteInput == old(deleteInput)
      ensures editingTask == old(editingTask) && newTaskText == old(newTaskText) && newTaskDeadline == old(newTaskDeadline)
      ensures old(Valid()) ==> Valid()
    {
      if user.None? {
        return;
      }
      var k := FindTask(tasks, id);
      if k < 0 {
        return;
      }
      if Valid() {
        ToggleKeepsInvariants(user.value, tasks[k], now);
      }
      var r := Toggle(user.value, tasks[k], now);
      tasks := ReplaceTasks(tasks, id, r.task);
      user := Some(r.user);
    }

    /** `hatchEgg`: nothing happens without a user or below 100%; otherwise
        a duck drawn uniformly from the whole catalog is merged in, progress
        resets and the egg count rises. */
    method HatchEgg(pickRoll: real, id: string, now: int)
      requires 0.0 <= pickRoll < 1.0
      modifies this
      ensures old(user).None? ==> user == old(user) && ducks == old(ducks)
      ensures old(user).Some? ==>
        var h := Hatch(old(user).value, old(ducks), pickRoll, id, now);
        if h.None? then user == old(user) && ducks == old(ducks)
        else user == Some(h.value.user) && ducks == h.value.ducks
      ensures tasks == old(tasks)
      ensures taskToDelete == old(taskToDelete) && deleteInput == old(deleteInput)
      ensures editingTask == old(editingTask) && newTaskText == old(newTaskText) && newTaskDeadline == old(newTaskDeadline)
      ensures old(Valid()) ==> Valid()
    {
      if user.None? || user.value.eggProgress < ProgressFull {
        return;
      }
      var u := user.value;
      var duck := HatchedDuck(pickRoll, id, now);
      MergeDucks([duck]);
      user := Some(u.(eggProgress := 0, eggs := u.eggs + 1));
    }

    /** `requestDeleteTask` */
    method RequestDeleteTask(id: string)
      modifies this
      ensures taskToDelete == Some(id) && deleteInput == ""
      ensures user == old(user) && tasks == old(tasks) && ducks == old(ducks)
      ensures editingTask == old(editingTask) && newTaskText == old(newTaskText) && newTaskDeadline == old(newTaskDeadline)
    {
      taskToDelete := Some(id);
      deleteInput := "";
    }

    /** `confirmDeleteTask`: with a task awaiting deletion and "okay" typed
        in any case, every task with that id is removed and the dialog
        closes; otherwise nothing changes. */
    method ConfirmDeleteTask()
      modifies this
      ensures var pending := old(taskToDelete).Some? && old(taskToDelete).value != "";
        if pending && ConfirmsDelete(old(deleteInput)) then
          tasks == DeleteTasks(old(tasks), old(taskToDelete).value) && taskToDelete.None? && deleteInput == ""
        else
          tasks == old(tasks) && taskToDelete == old(taskToDelete) && deleteInput == old(deleteInput)
      ensures user == old(user) && ducks == old(ducks)
      ensures editingTask == old(editingTask) && newTaskText == old(newTaskText) && newTaskDeadline == old(newTaskDeadline)
    {
      if taskToDelete.None? || taskToDelete.value == "" {
        return;
      }
      if ConfirmsDelete(deleteInput) {
        tasks := DeleteTasks(tasks, taskToDelete.value);
        taskToDelete := None;
        deleteInput := "";
      }
    }

    /** `startEdit`: the form is filled from the task. */
    method StartEdit(task: Task)
      modifies this
      ensures editingTask == Some(task) && newTaskText == task.text && newTaskDeadline == Some(task.deadline)
      ensures user == old(user) && tasks == old(tasks) && ducks == old(ducks)
      ensures taskToDelete == old(taskToDelete) && deleteInput == old(deleteInput)
    {
      editingTask := Some(task);
      newTaskText := task.text;
      newTaskDeadline := Some(task.deadline);
    }

    /** `handleAddTask`: nothing happens without a user or with empty text;
        otherwise the edited task is updated, or a new task is appended, and
        the form is cleared. */
    method HandleAddTask(newId: string, now: int)
      modifies this
      ensures old(user).None? || old(newTaskText) == "" ==>
        tasks == old(tasks) && editingTask == old(editingTask)
        && newTaskText == old(newTaskText) && newTaskDeadline == old(newTaskDeadline)
      ensures old(user).Some? && old(newTaskText) != "" ==>
        && tasks == (if old(editingTask).Some?
                     then EditTasks(old(tasks), old(editingTask).value.id, old(newTaskText), old(newTaskDeadline))
                     else old(tasks) + [NewTask(newId, old(user).value.id, old(newTaskText), old(newTaskDeadline), now)])
        && editingTask.None? && newTaskText == "" && newTaskDeadline.None?
      ensures user == old(user) && ducks == old(ducks)
      ensures taskToDelete == old(taskToDelete) && deleteInput == old(deleteInput)
    {
      if user.None? || newTaskText == "" {
        return;
      }
      if editingTask.Some? {
        tasks := EditTasks(tasks, editingTask.value.id, newTaskText, newTaskDeadline);
        editingTask := None;
      } else {
        tasks := tasks + [NewTask(newId, user.value.id, newTaskText, newTaskDeadline, now)];
      }
      ResetForm();
    }

    /** `resetForm` */
    method ResetForm()
      modifies this
      ensures editingTask.None? && newTaskText == "" && newTaskDeadline.None?
      ensures user == old(user) && tasks == old(tasks) && ducks == old(ducks)
      ensures taskToDelete == old(taskToDelete) && deleteInput == old(deleteInput)
    {
      newTaskText := "";
      newTaskDeadline := None;
      editingTask := None;
    }

    /** A roll from the gacha screen, which is only shown to a signed-in
        user: refused when the tickets do not cover `amount`; otherwise the
        tickets are debited, the drawn ducks merged in and the pity counter
        replaced by the one the batch ends with. */
    method Roll(amount: nat, inputs: seq<DrawInput>) returns (outcome: RollOutcome)
      requires user.Some?
      requires |inputs| == amount && ValidInputs(inputs)
      modifies this
      ensures var u := old(user).value;
        var batch := DrawBatch(u.pityCounter, inputs);
        if u.tickets < amount then
          outcome.Refused? && user == old(user) && ducks == old(ducks)
        else
          && outcome == Rolled(amount, batch.ducks, batch.pity)
          && user == Some(u.(tickets := u.tickets - amount, pityCounter := batch.pity))
          && ducks == MergeAll(old(ducks), batch.ducks)
      ensures tasks == old(tasks)
      ensures taskToDelete == old(taskToDelete) && deleteInput == old(deleteInput)
      ensures editingTask == old(editingTask) && newTaskText == old(newTaskText) && newTaskDeadline == old(newTaskDeadline)
      ensures old(Valid()) ==> Valid()
    {
      var u := user.value;
      outcome := Gacha.Roll(u.tickets, u.pityCounter, amount, inputs);
      if outcome.Rolled? {
        user := Some(u.(tickets := u.tickets - outcome.spent));
        MergeDucks(outcome.ducks);
        user := Some(user.value.(pityCounter := outcome.newPity));
      }
    }
  }
}
