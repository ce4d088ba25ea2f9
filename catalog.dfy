/** The static data of constants.ts: the duck catalog, the colour of each
    rarity tier and the sample task list. */
module Catalog {

  import opened Types

  /** A catalog entry: a duck without an id or an acquisition time. */
  datatype Template = Template(name: string, rarity: DuckRarity, imageUrl: string, description: string, stars: int)

  /** `MOCK_DUCKS_DB`, written as its four commented blocks, one per tier. */
  const MockDucksDb: seq<Template> := CommonDucks + RareDucks + EpicDucks + LegendaryDucks

  const CommonDucks: seq<Template> := [
    Template("Rubber Ducky", Common, "https://picsum.photos/seed/duck1/200", "Just a classic yellow friend.", 1),
    Template("Puddle Duck", Common, "https://picsum.photos/seed/duck2/200", "Loves rainy days.", 1),
    Template("Baker Duck", Common, "https://picsum.photos/seed/duck3/200", "Always smells like bread.", 1)
  ]

  const RareDucks: seq<Template> := [
    Template("Pilot Duck", Rare, "https://picsum.photos/seed/duck4/200", "Ready for takeoff.", 1),
    Template("Ninja Duck", Rare, "https://picsum.photos/seed/duck5/200", "Silent but quacky.", 1)
  ]

  const EpicDucks: seq<Template> := [
    Template("Wizard Duck", Epic, "https://picsum.photos/seed/duck6/200", "Casts spells of breadcrumbs.", 1),
    Template("Cyborg Duck", Epic, "https://picsum.photos/seed/duck7/200", "Half machine, full quack.", 1)
  ]

  const LegendaryDucks: seq<Template> := [
    Template("King Golden Duck", Legendary, "https://picsum.photos/seed/duck8/200", "The ruler of the pond.", 1)
  ]

  /** `db.filter(d => d.rarity === r)` */
  function Pool(db: seq<Template>, r: DuckRarity): (p: seq<Template>)
    ensures |p| <= |db|
    ensures forall i :: 0 <= i < |p| ==> p[i].rarity == r
  {
    if db == [] then []
    else (if db[0].rarity == r then [db[0]] else []) + Pool(db[1..], r)
  }

  /** The pool of a tier holds exactly the catalog entries of that tier. */
  lemma {:induction false} PoolMembers(db: seq<Template>, r: DuckRarity, t: Template)
    ensures t in Pool(db, r) <==> t in db && t.rarity == r
  {
    if db != [] {
      PoolMembers(db[1..], r, t);
      assert db == [db[0]] + db[1..];
    }
  }

  /** The names of the catalog are pairwise distinct. */
  predicate DistinctNames(db: seq<Template>) {
    forall i, j :: 0 <= i < j < |db| ==> db[i].name != db[j].name
  }

  /** The catalog holds 3 Common, 2 Rare, 2 Epic and 1 Legendary template,
      so no tier's pool is ever empty. */
  lemma CatalogTiers()
    ensures |MockDucksDb| == 8
    ensures |Pool(MockDucksDb, Common)| == 3
    ensures |Pool(MockDucksDb, Rare)| == 2
    ensures |Pool(MockDucksDb, Epic)| == 2
    ensures |Pool(MockDucksDb, Legendary)| == 1
  {
    TierCount(Common);
    TierCount(Rare);
    TierCount(Epic);
    TierCount(Legendary);
  }

  /** How many templates of each tier the catalog declares. */
  function TierSize(r: DuckRarity): nat {
    match r
    case Common => 3
    case Rare => 2
    case Epic => 2
    case Legendary => 1
  }

  lemma TierCount(r: DuckRarity)
    ensures |Pool(MockDucksDb, r)| == TierSize(r)
  {
    PoolConcat(CommonDucks, RareDucks, r);
    PoolConcat(CommonDucks + RareDucks, EpicDucks, r);
    PoolConcat(CommonDucks + RareDucks + EpicDucks, LegendaryDucks, r);
    PoolUniform(CommonDucks, Common);
    PoolUniform(RareDucks, Rare);
    PoolUniform(EpicDucks, Epic);
    PoolUniform(LegendaryDucks, Legendary);
  }

  lemma {:induction false} PoolConcat(a: seq<Template>, b: seq<Template>, r: DuckRarity)
    ensures Pool(a + b, r) == Pool(a, r) + Pool(b, r)
  {
    if a == [] {
      assert a + b == b;
    } else {
      assert (a + b)[1..] == a[1..] + b;
      PoolConcat(a[1..], b, r);
    }
  }

  /** A block of templates of one tier contributes all of itself to that
      tier's pool and nothing to the others. */
  lemma {:induction false} PoolUniform(block: seq<Template>, tier: DuckRarity)
    requires forall i :: 0 <= i < |block| ==> block[i].rarity == tier
    ensures forall r :: |Pool(block, r)| == if r == tier then |block| else 0
  {
    if block != [] {
      PoolUniform(block[1..], tier);
    }
  }

  lemma PoolNonEmpty(r: DuckRarity)
    ensures |Pool(MockDucksDb, r)| > 0
  {
    CatalogTiers();
  }

  /** Template names are unique and every template has one star. */
  lemma CatalogEntries()
    ensures DistinctNames(MockDucksDb)
    ensures forall i :: 0 <= i < |MockDucksDb| ==> MockDucksDb[i].stars == 1
  {
  }

  /** `RARITY_COLORS` */
  const RarityColors: map<DuckRarity, string> := map[
    Common := "bg-gray-100 border-gray-300 text-gray-600 dark:bg-gray-800 dark:border-gray-600 dark:text-gray-300",
    Rare := "bg-blue-50 border-blue-300 text-blue-600 dark:bg-blue-900/30 dark:border-blue-700 dark:text-blue-300",
    Epic := "bg-purple-50 border-purple-300 text-purple-600 dark:bg-purple-900/30 dark:border-purple-700 dark:text-purple-300",
    Legendary := "bg-yellow-50 border-yellow-300 text-yellow-600 dark:bg-yellow-900/30 dark:border-yellow-700 dark:text-yellow-300"
  ]

  /** Looking up a colour by rarity never misses. */
  lemma RarityColorsTotal(r: DuckRarity)
    ensures r in RarityColors
  {
  }

  /** `SAMPLE_TASKS`, created at time `now`. */
  function SampleTasks(now: int): (tasks: seq<Task>)
    ensures |tasks| == 1
    ensures tasks[0].status == Pending && tasks[0].rewardClaimed == Some(false)
    ensures tasks[0].deadline == now && tasks[0].finishedTime.None?
  {
    [Task("1", "demo", "Welcome to DuckDo!", Some("Complete this task to get your first ticket."),
          now, Pending, None, now, Some(false))]
  }
}
