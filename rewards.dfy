/** The reward economy handlers of App.tsx as transitions on values: the
    task reward latch of `toggleTaskStatus` and the egg hatch of `hatchEgg`.
    The App class applies them to its state. */
module Rewards {

  import opened Types
  import opened Catalog
  import opened Gacha
  import opened Collection

  /** Egg progress is a percentage; each first completion adds 20. */
  const ProgressStep: int := 20
  const ProgressFull: int := 100

  function Min(a: int, b: int): int {
    if a <= b then a else b
  }

  datatype Toggled = Toggled(user: User, task: Task)

  /** `toggleTaskStatus` once the user and the task are found: the status
      flips; a first completion pays one ticket and 20% of an egg (capped at
      100) and latches `rewardClaimed`. So the latch is closed after any
      completion and never reopened, and a ticket is paid exactly by the
      toggle that closes it. */
  function Toggle(user: User, task: Task, now: int): (r: Toggled)
    ensures r.task.status != task.status
    ensures Claimed(r.task) <==> Claimed(task) || task.status == Pending
    ensures r.user.tickets == user.tickets + (if Claimed(r.task) && !Claimed(task) then 1 else 0)
  {
    var newStatus := if task.status == Done then Pending else Done;
    var wasClaimed := Claimed(task);
    var grant := newStatus == Done && !wasClaimed;
    var progress := user.eggProgress;
    Toggled(
      user.(tickets := if grant then user.tickets + 1 else user.tickets,
            eggProgress := if grant && progress < ProgressFull then Min(progress + ProgressStep, ProgressFull) else progress),
      task.(status := newStatus,
            finishedTime := if newStatus == Done then Some(now) else None,
            rewardClaimed := Some(wasClaimed || grant)))
  }

  /** The reward is paid exactly when a pending task whose reward was never
      claimed is completed; every other toggle pays nothing and keeps the
      latch. Only the status, the finish time and the latch of the task
      change, and only the tickets and the egg progress of the user. */
  lemma ToggleReward(user: User, task: Task, now: int)
    ensures var t := Toggle(user, task, now);
      && t.task.status != task.status
      && (t.task.finishedTime.Some? <==> t.task.status == Done)
      && t.task == task.(status := t.task.status, finishedTime := t.task.finishedTime, rewardClaimed := t.task.rewardClaimed)
      && t.user == user.(tickets := t.user.tickets, eggProgress := t.user.eggProgress)
      && (t.user.tickets == user.tickets + 1 <==> task.status == Pending && !Claimed(task))
      && (task.status == Pending && !Claimed(task) ==>
            && Claimed(t.task)
            && t.user.eggProgress == (if user.eggProgress < 100 then Min(user.eggProgress + 20, 100) else user.eggProgress))
      && (!(task.status == Pending && !Claimed(task)) ==>
            && t.user.tickets == user.tickets
            && t.user.eggProgress == user.eggProgress
            && Claimed(t.task) == Claimed(task))
  {
  }

  /** The latch never opens again, and progress that starts within [0, 100]
      stays there. */
  lemma ToggleKeepsInvariants(user: User, task: Task, now: int)
    requires 0 <= user.eggProgress <= ProgressFull
    ensures Claimed(task) ==> Claimed(Toggle(user, task, now).task)
    ensures 0 <= Toggle(user, task, now).user.eggProgress <= ProgressFull
    ensures Toggle(user, task, now).user.tickets <= user.tickets + 1
  {
  }

  /** Toggling the same task at each of the times in `nows`. */
  function ToggleMany(user: User, task: Task, nows: seq<int>): Toggled {
    if nows == [] then Toggled(user, task)
    else
      var prev := ToggleMany(user, task, nows[..|nows| - 1]);
      Toggle(prev.user, prev.task, nows[|nows| - 1])
  }

  /** Any sequence of toggles on one task pays at most one ticket: one if the
      latch was closed by the sequence, none otherwise. Egg progress stays
      within [0, 100] and grows by at most one step. */
  lemma {:induction false} ToggleFarming(user: User, task: Task, nows: seq<int>)
    requires 0 <= user.eggProgress <= ProgressFull
    ensures var r := ToggleMany(user, task, nows);
      && r.user.tickets == user.tickets + (if Claimed(r.task) && !Claimed(task) then 1 else 0)
      && (Claimed(task) ==> Claimed(r.task))
      && 0 <= r.user.eggProgress <= ProgressFull
      && r.user.eggProgress <= user.eggProgress + ProgressStep
      && (Claimed(task) ==> r.user.eggProgress == user.eggProgress)
  {
    if nows != [] {
      var prev := ToggleMany(user, task, nows[..|nows| - 1]);
      ToggleFarming(user, task, nows[..|nows| - 1]);
      ToggleReward(prev.user, prev.task, nows[|nows| - 1]);
    }
  }

  /** Completing, reopening and completing again pays one ticket in all. */
  lemma DoneUndoRedo(user: User, task: Task, t1: int, t2: int, t3: int)
    requires task.status == Pending && !Claimed(task)
    ensures ToggleMany(user, task, [t1, t2, t3]).user.tickets == user.tickets + 1
    ensures ToggleMany(user, task, [t1, t2, t3]).task.status == Done
  {
    assert [t1, t2, t3][..2] == [t1, t2];
    assert [t1, t2][..1] == [t1];
    assert [t1][..0] == [];
    var z := ToggleMany(user, task, []);
    assert z == Toggled(user, task);
    var a := ToggleMany(user, task, [t1]);
    assert a == Toggle(z.user, z.task, t1);
    var b := ToggleMany(user, task, [t1, t2]);
    assert b == Toggle(a.user, a.task, t2);
    assert b.user.tickets == user.tickets + 1 && Claimed(b.task) && b.task.status == Pending;
  }

  /** From 90% one completion fills the egg to 100, not 110. */
  lemma ProgressClamp(user: User, task: Task, now: int)
    requires user.eggProgress == 90 && task.status == Pending && !Claimed(task)
    ensures Toggle(user, task, now).user.eggProgress == 100
  {
  }

  datatype Hatched = Hatched(user: User, ducks: seq<Duck>, duck: Duck)

  /** The duck an egg hatches into: any catalog template, every one equally
      likely whatever its tier. */
  function HatchedDuck(pickRoll: real, id: string, now: int): (d: Duck)
    requires 0.0 <= pickRoll < 1.0
    ensures TemplateOf(d) in MockDucksDb
    ensures d.stars == 1 && d.id == id && d.obtainedAt == now
  {
    CatalogTiers();
    CatalogEntries();
    Instance(MockDucksDb[PickIndex(pickRoll, |MockDucksDb|)], id, now)
  }

  /** `hatchEgg` for a signed-in user: refused below 100%; otherwise the egg
      count rises, progress resets and the new duck is merged in. */
  function Hatch(user: User, ducks: seq<Duck>, pickRoll: real, id: string, now: int): (h: Option<Hatched>)
    requires 0.0 <= pickRoll < 1.0
    ensures h.None? <==> user.eggProgress < ProgressFull
    ensures h.Some? ==> h.value.user == user.(eggProgress := 0, eggs := user.eggs + 1)
    ensures h.Some? ==> |ducks| <= |h.value.ducks| <= |ducks| + 1
  {
    if user.eggProgress < ProgressFull then None
    else
      var duck := HatchedDuck(pickRoll, id, now);
      Some(Hatched(user.(eggProgress := 0, eggs := user.eggs + 1), MergeAll(ducks, [duck]), duck))
  }

  /** Hatching is refused exactly below 100%. A hatch resets progress, adds
      one egg, leaves tickets and pity alone, and adds one star under the
      name of a one-star duck made from a catalog template. */
  lemma HatchEffect(user: User, ducks: seq<Duck>, pickRoll: real, id: string, now: int)
    requires 0.0 <= pickRoll < 1.0
    requires StarsNonNegative(ducks)
    ensures Hatch(user, ducks, pickRoll, id, now).None? <==> user.eggProgress < 100
    ensures Hatch(user, ducks, pickRoll, id, now).Some? ==>
      var h := Hatch(user, ducks, pickRoll, id, now).value;
      && h.user == user.(eggProgress := 0, eggs := user.eggs + 1)
      && h.user.tickets == user.tickets && h.user.pityCounter == user.pityCounter
      && h.duck.stars == 1 && h.duck.id == id && h.duck.obtainedAt == now
      && TemplateOf(h.duck) in MockDucksDb
      && StarsOf(h.ducks, h.duck.name) == StarsOf(ducks, h.duck.name) + 1
      && Names(h.ducks) == Names(ducks) + {h.duck.name}
  {
    if user.eggProgress >= ProgressFull {
      var duck := HatchedDuck(pickRoll, id, now);
      CatalogTiers();
      CatalogEntries();
      assert TemplateOf(duck) == MockDucksDb[PickIndex(pickRoll, |MockDucksDb|)];
      MergeStars(ducks, [duck], duck.name);
      assert [duck][..0] == [];
      MergeNames(ducks, [duck]);
      assert Names([duck]) == {duck.name};
    }
  }
}
