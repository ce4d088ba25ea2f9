/** Records and enumerations of the DuckDo app (types.ts), plus the
    load-time defaults App.tsx applies to records read back from storage. */
module Types {

  datatype Option<+T> = None | Some(value: T)

  /** A task is either still to do or done; there is no third state. */
  datatype TaskStatus = Pending | Done

  /** Rarity tiers, in ascending rarity. */
  datatype DuckRarity = Common | Rare | Epic | Legendary

  /** The signed-in user's economy record. Passwords and avatars are left out.
      `eggProgress` is a percentage toward the next egg; `pityCounter` counts
      rolls since the last Legendary duck. */
  datatype User = User(
    id: string,
    name: string,
    email: string,
    tickets: int,
    eggs: int,
    eggProgress: int,
    streak: int,
    pityCounter: int)

  /** Timestamps (`deadline`, `finishedTime`, `createdAt`) are milliseconds.
      `rewardClaimed` is optional in storage; None is read as false. */
  datatype Task = Task(
    id: string,
    userId: string,
    text: string,
    description: Option<string>,
    deadline: int,
    status: TaskStatus,
    finishedTime: Option<int>,
    createdAt: int,
    rewardClaimed: Option<bool>)

  /** A collected duck. `stars` is 0 when the stored record has no (or a
      falsy) star level; every reader treats that as 1. */
  datatype Duck = Duck(
    id: string,
    name: string,
    rarity: DuckRarity,
    imageUrl: string,
    description: string,
    obtainedAt: int,
    stars: int)

  /** `task.rewardClaimed || false` */
  predicate Claimed(t: Task) {
    t.rewardClaimed == Some(true)
  }

  /** `duck.stars || 1` */
  function StarLevel(d: Duck): (s: int)
    ensures s != 0
    ensures d.stars == 0 ==> s == 1
    ensures d.stars != 0 ==> s == d.stars
  {
    if d.stars == 0 then 1 else d.stars
  }

  /** A user record as read back from storage, written before `pityCounter`
      existed: the field may be missing. */
  datatype StoredUser = StoredUser(
    id: string,
    name: string,
    email: string,
    tickets: int,
    eggs: int,
    eggProgress: int,
    streak: int,
    pityCounter: Option<int>)

  /** The migration on load: a missing `pityCounter` becomes 0, every other
      field is carried over. */
  function MigrateUser(u: StoredUser): (r: User)
    ensures u.pityCounter.None? ==> r.pityCounter == 0
    ensures u.pityCounter.Some? ==> r.pityCounter == u.pityCounter.value
    ensures Stored(r) == u.(pityCounter := Some(r.pityCounter))
  {
    User(u.id, u.name, u.email, u.tickets, u.eggs, u.eggProgress, u.streak,
         match u.pityCounter case None => 0 case Some(p) => p)
  }

  /** Writing a user back to storage always records its pity counter. */
  function Stored(u: User): StoredUser {
    StoredUser(u.id, u.name, u.email, u.tickets, u.eggs, u.eggProgress, u.streak, Some(u.pityCounter))
  }

  /** Migration loses nothing from a record that is written back. */
  lemma MigrateStoredRoundTrip(u: User)
    ensures MigrateUser(Stored(u)) == u
  {
  }

  /** The duck migration on load: every duck whose star level is missing
      gets 1; order and all other fields are kept. */
  function DefaultStars(ducks: seq<Duck>): (r: seq<Duck>)
    ensures |r| == |ducks|
    ensures forall i :: 0 <= i < |r| ==> r[i] == ducks[i].(stars := StarLevel(ducks[i]))
  {
    if ducks == [] then []
    else [ducks[0].(stars := StarLevel(ducks[0]))] + DefaultStars(ducks[1..])
  }

  /** After loading, no duck lacks a star level, what every reader sees is
      unchanged, and loading again changes nothing. */
  lemma DefaultStarsSettles(ducks: seq<Duck>)
    ensures forall i :: 0 <= i < |ducks| ==> DefaultStars(ducks)[i].stars != 0
    ensures forall i :: 0 <= i < |ducks| ==> StarLevel(DefaultStars(ducks)[i]) == StarLevel(ducks[i])
    ensures DefaultStars(DefaultStars(ducks)) == DefaultStars(ducks)
  {
  }
}
