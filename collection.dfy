/** The collection merger of App.tsx (`mergeDucks`): incoming ducks are
    reconciled against the inventory by name, one at a time and in order.
    A known name gains a star; an unknown one is put at the front with one
    star. */
module Collection {

  import opened Types
  import opened Seqs

  /** `inventory.findIndex(d => d.name === name)`, -1 when there is none. */
  function FindByName(inv: seq<Duck>, name: string): (k: int)
    ensures -1 <= k < |inv|
    ensures k >= 0 ==> inv[k].name == name && forall j :: 0 <= j < k ==> inv[j].name != name
    ensures k == -1 <==> forall j :: 0 <= j < |inv| ==> inv[j].name != name
  {
    FindFirst((d: Duck) => d.name, inv, name)
  }

  function Names(inv: seq<Duck>): set<string> {
    set d | d in inv :: d.name
  }

  predicate UniqueNames(inv: seq<Duck>) {
    forall i, j :: 0 <= i < j < |inv| ==> inv[i].name != inv[j].name
  }

  /** No star level is negative (stars are only ever set to 1 or raised). */
  predicate StarsNonNegative(inv: seq<Duck>) {
    forall i :: 0 <= i < |inv| ==> inv[i].stars >= 0
  }

  /** One more star on an existing entry; a missing star level counts as 1. */
  function Upgraded(d: Duck): Duck {
    d.(stars := StarLevel(d) + 1)
  }

  /** The body of the `forEach` in `mergeDucks`, for one incoming duck: the
      inventory grows by one exactly when the name was new, and no star
      level becomes negative. */
  function MergeOne(inv: seq<Duck>, incoming: Duck): (r: seq<Duck>)
    ensures |r| == |inv| + (if FindByName(inv, incoming.name) >= 0 then 0 else 1)
    ensures StarsNonNegative(inv) ==> StarsNonNegative(r)
  {
    var k := FindByName(inv, incoming.name);
    if k >= 0 then inv[k := Upgraded(inv[k])]
    else [incoming.(stars := 1)] + inv
  }

  /** The inventory after merging `incoming` in order: it never shrinks and
      grows by at most one entry per incoming duck. */
  function MergeAll(inv: seq<Duck>, incoming: seq<Duck>): (r: seq<Duck>)
    ensures |inv| <= |r| <= |inv| + |incoming|
  {
    if incoming == [] then inv
    else MergeOne(MergeAll(inv, incoming[..|incoming| - 1]), incoming[|incoming| - 1])
  }

  /** How many incoming ducks carry the name `n`. */
  function CountName(ds: seq<Duck>, n: string): nat {
    if ds == [] then 0
    else CountName(ds[..|ds| - 1], n) + (if ds[|ds| - 1].name == n then 1 else 0)
  }

  /** The star level the inventory shows for name `n`, 0 when absent. */
  function StarsOf(inv: seq<Duck>, n: string): int {
    var k := FindByName(inv, n);
    if k >= 0 then StarLevel(inv[k]) else 0
  }

  /** Two ducks that differ at most in their star level. */
  predicate SameButStars(a: Duck, b: Duck) {
    a.(stars := 0) == b.(stars := 0)
  }

  /** Merging a duck whose name is present raises that entry's star level by
      exactly one and keeps every other field and every other entry; a new
      name is put in front with one star. */
  lemma MergeOneEffect(inv: seq<Duck>, d: Duck)
    ensures var k := FindByName(inv, d.name);
      if k >= 0 then
        && |MergeOne(inv, d)| == |inv|
        && MergeOne(inv, d)[k].stars == StarLevel(inv[k]) + 1
        && SameButStars(MergeOne(inv, d)[k], inv[k])
        && forall j :: 0 <= j < |inv| && j != k ==> MergeOne(inv, d)[j] == inv[j]
      else
        && MergeOne(inv, d)[0] == d.(stars := 1)
        && MergeOne(inv, d)[1..] == inv
  {
  }

  lemma {:induction false} NamesConcat(a: seq<Duck>, b: seq<Duck>)
    ensures Names(a + b) == Names(a) + Names(b)
  {
    assert forall d :: d in a + b <==> d in a || d in b;
  }

  lemma NamesOfIndex(inv: seq<Duck>, n: string)
    ensures n in Names(inv) <==> FindByName(inv, n) >= 0
  {
    if n in Names(inv) {
      var d :| d in inv && d.name == n;
      var j :| 0 <= j < |inv| && inv[j] == d;
    }
  }

  /** One step: the name set gains the incoming name, and the inventory
      grows exactly when that name was new. */
  lemma MergeOneNames(inv: seq<Duck>, d: Duck)
    ensures Names(MergeOne(inv, d)) == Names(inv) + {d.name}
    ensures |MergeOne(inv, d)| == |inv| + (if d.name in Names(inv) then 0 else 1)
  {
    NamesOfIndex(inv, d.name);
    var k := FindByName(inv, d.name);
    if k >= 0 {
      var r := MergeOne(inv, d);
      assert forall j :: 0 <= j < |inv| ==> r[j].name == inv[j].name;
      forall x | x in Names(r) ensures x in Names(inv) {
        var e :| e in r && e.name == x;
        var j :| 0 <= j < |r| && r[j] == e;
        assert inv[j] in inv;
      }
      forall x | x in Names(inv) ensures x in Names(r) {
        var e :| e in inv && e.name == x;
        var j :| 0 <= j < |inv| && inv[j] == e;
        assert r[j] in r;
      }
    } else {
      NamesConcat([d.(stars := 1)], inv);
      assert Names([d.(stars := 1)]) == {d.name};
    }
  }

  /** The names after a merge are the old names plus the incoming names. */
  lemma {:induction false} MergeNames(inv: seq<Duck>, incoming: seq<Duck>)
    ensures Names(MergeAll(inv, incoming)) == Names(inv) + Names(incoming)
  {
    if incoming != [] {
      var init := incoming[..|incoming| - 1];
      var last := incoming[|incoming| - 1];
      MergeNames(inv, init);
      MergeOneNames(MergeAll(inv, init), last);
      assert incoming == init + [last];
      NamesConcat(init, [last]);
      assert Names([last]) == {last.name};
    }
  }

  /** The inventory grows by exactly the number of incoming names it did not
      already hold: a repeated new name is added once and then upgraded. */
  lemma {:induction false} MergeGrowth(inv: seq<Duck>, incoming: seq<Duck>)
    ensures |MergeAll(inv, incoming)| == |inv| + |Names(incoming) - Names(inv)|
  {
    if incoming == [] {
      assert Names(incoming) == {};
    } else {
      var init := incoming[..|incoming| - 1];
      var last := incoming[|incoming| - 1];
      var cur := MergeAll(inv, init);
      MergeGrowth(inv, init);
      MergeNames(inv, init);
      MergeOneNames(cur, last);
      NamesSnoc(init, last);
      assert incoming == init + [last];
      NewNamesStep(Names(inv), Names(init), last.name);
    }
  }

  lemma NamesSnoc(init: seq<Duck>, last: Duck)
    ensures Names(init + [last]) == Names(init) + {last.name}
  {
    NamesConcat(init, [last]);
    assert Names([last]) == {last.name};
  }

  /** Set arithmetic for one step of MergeGrowth. */
  lemma NewNamesStep(held: set<string>, seen: set<string>, x: string)
    ensures x in held + seen ==> (seen + {x}) - held == seen - held
    ensures x !in held + seen ==> |(seen + {x}) - held| == |seen - held| + 1
  {
    if x !in held + seen {
      assert (seen + {x}) - held == (seen - held) + {x};
    }
  }

  /** Merging keeps the names of the inventory unique. */
  lemma {:induction false} MergeKeepsUnique(inv: seq<Duck>, incoming: seq<Duck>)
    requires UniqueNames(inv)
    ensures UniqueNames(MergeAll(inv, incoming))
  {
    if incoming != [] {
      var init := incoming[..|incoming| - 1];
      var last := incoming[|incoming| - 1];
      var cur := MergeAll(inv, init);
      MergeKeepsUnique(inv, init);
      var k := FindByName(cur, last.name);
      var r := MergeOne(cur, last);
      if k < 0 {
        forall i, j | 0 <= i < j < |r| ensures r[i].name != r[j].name {
          if i > 0 {
            assert r[i] == cur[i - 1] && r[j] == cur[j - 1];
          }
        }
      }
    }
  }

  /** Entries keep their names under an upgrade, so lookups by name find the
      same positions. */
  lemma {:induction false} FindSameNames(a: seq<Duck>, b: seq<Duck>, n: string)
    requires |a| == |b| && forall j :: 0 <= j < |a| ==> a[j].name == b[j].name
    ensures FindByName(a, n) == FindByName(b, n)
  {
    if a != [] {
      FindSameNames(a[1..], b[1..], n);
    }
  }

  lemma MergeOneStars(inv: seq<Duck>, d: Duck, n: string)
    requires StarsNonNegative(inv)
    ensures StarsNonNegative(MergeOne(inv, d))
    ensures StarsOf(MergeOne(inv, d), n) == StarsOf(inv, n) + (if d.name == n then 1 else 0)
  {
    var k := FindByName(inv, d.name);
    var r := MergeOne(inv, d);
    if k >= 0 {
      FindSameNames(r, inv, n);
    } else {
      var kn := FindByName(inv, n);
      if d.name != n {
        FindSameNames(r[1..], inv, n);
        assert r[1..] == inv;
      }
    }
  }

  /** After a merge, the star level shown for any name is the one shown
      before plus the number of incoming ducks with that name: each incoming
      duck adds exactly one star, whether it created the entry or upgraded it. */
  lemma {:induction false} MergeStars(inv: seq<Duck>, incoming: seq<Duck>, n: string)
    requires StarsNonNegative(inv)
    ensures StarsNonNegative(MergeAll(inv, incoming))
    ensures StarsOf(MergeAll(inv, incoming), n) == StarsOf(inv, n) + CountName(incoming, n)
  {
    if incoming != [] {
      var init := incoming[..|incoming| - 1];
      MergeStars(inv, init, n);
      MergeOneStars(MergeAll(inv, init), incoming[|incoming| - 1], n);
    }
  }

  /** A name already in the inventory keeps its entry: the merge changes at
      most its star level, never its id, acquisition time or other fields. */
  lemma {:induction false} MergeKeepsEntries(inv: seq<Duck>, incoming: seq<Duck>, n: string)
    requires FindByName(inv, n) >= 0
    ensures FindByName(MergeAll(inv, incoming), n) >= 0
    ensures SameButStars(MergeAll(inv, incoming)[FindByName(MergeAll(inv, incoming), n)], inv[FindByName(inv, n)])
  {
    if incoming != [] {
      var init := incoming[..|incoming| - 1];
      var last := incoming[|incoming| - 1];
      var cur := MergeAll(inv, init);
      MergeKeepsEntries(inv, init, n);
      var k := FindByName(cur, last.name);
      var r := MergeOne(cur, last);
      if k >= 0 {
        FindSameNames(r, cur, n);
      } else {
        assert last.name != n;
        FindSameNames(r[1..], cur, n);
        assert r[1..] == cur;
      }
    }
  }

  /** Merging [A, A, B] (two new names) into an empty inventory gives
      [B with one star, A with two]: B is put in front of A. */
  lemma MergeExampleNew(a: Duck, b: Duck)
    requires a.name != b.name
    ensures MergeAll([], [a, a, b]) == [b.(stars := 1), a.(stars := 2)]
  {
    assert [a, a, b][..2] == [a, a];
    assert [a, a][..1] == [a];
    assert [a][..0] == [];
    assert MergeAll([], [a]) == [a.(stars := 1)];
    assert MergeAll([], [a, a]) == [a.(stars := 2)];
  }

  /** Merging A again into an inventory holding A with two stars gives three. */
  lemma MergeExampleRepeat(held: Duck, a: Duck)
    requires held.name == a.name && held.stars == 2
    ensures MergeAll([held], [a]) == [held.(stars := 3)]
  {
    assert [a][..0] == [];
  }
}
