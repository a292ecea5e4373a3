/**
 * A change set (`Changes`): the result of a query, indexed by block position.
 *
 * The changes are kept in a multimap from position (`Location.toVector()`, so
 * without the world) to the changes at that position, in the order they were
 * given; a position may hold several changes.
 */
module ChangeSet {
  import opened Wrappers
  import opened JavaLang
  import opened Geometry
  import opened ChangeModel

  /**
   * The change set: the world and region it was queried for, and its changes
   * in input order. The multimap's keys are the positions of these changes.
   */
  datatype Changes = Changes(world: string, region: CuboidRegion, entries: seq<Change>)

  /** The multimap key of a change. */
  function Key(c: Change): Vector {
    c.location.ToVector()
  }

  /** `new Changes(region, world, changes)`: every change is kept, under its own position. */
  function NewChanges(region: CuboidRegion, world: string, changes: seq<Change>): (r: Changes)
    ensures r.world == world && r.region == region
    ensures GetSize(r) == |changes|
    ensures forall v :: GetChangesAt(r, v) == Filter(changes, v)
  {
    Changes(world, region, changes)
  }

  /** The changes of `s` at position `v`, in order. */
  function Filter(s: seq<Change>, v: Vector): (r: seq<Change>)
    ensures |r| <= |s|
    ensures forall c :: c in r <==> c in s && Key(c) == v
  {
    if |s| == 0 then []
    else (if Key(s[0]) == v then [s[0]] else []) + Filter(s[1..], v)
  }

  /** `getChanges`: every change of the set, duplicates at a position included. */
  function GetChanges(c: Changes): (r: seq<Change>)
    ensures multiset(r) == multiset(c.entries)
  {
    c.entries
  }

  /** `getSize`: the number of changes in the set. */
  function GetSize(c: Changes): (n: nat)
    ensures n == |GetChanges(c)|
  {
    |c.entries|
  }

  /** `getChangesAt(v)`: the changes at `v` in input order; empty for a position with no change. */
  function GetChangesAt(c: Changes, v: Vector): (r: seq<Change>)
    ensures forall x :: x in r ==> Key(x) == v
    ensures (forall x :: x in c.entries ==> Key(x) != v) ==> r == []
  {
    var r := Filter(c.entries, v);
    assert r == [] || r[0] in r;
    r
  }

  /** No two changes of `s` share a position. */
  predicate DistinctKeys(s: seq<Change>) {
    forall i, j :: 0 <= i < j < |s| ==> Key(s[i]) != Key(s[j])
  }

  /** No two changes of the set share a position. */
  predicate Distinct(c: Changes) {
    DistinctKeys(c.entries)
  }

  /** The number of changes of `s` at position `v`. */
  function CountAt(s: seq<Change>, v: Vector): (n: nat)
  {
    if |s| == 0 then 0 else (if Key(s[0]) == v then 1 else 0) + CountAt(s[1..], v)
  }

  lemma {:induction false} CountAtIsFilterLength(s: seq<Change>, v: Vector)
    ensures CountAt(s, v) == |Filter(s, v)|
  {
    if |s| > 0 {
      CountAtIsFilterLength(s[1..], v);
    }
  }

  /** Two distinct indices with the same key give a count of at least two at that key. */
  lemma {:induction false} CountAtLeastTwo(s: seq<Change>, i: nat, j: nat)
    requires i < j < |s| && Key(s[i]) == Key(s[j])
    ensures CountAt(s, Key(s[i])) >= 2
  {
    var v := Key(s[i]);
    if i == 0 {
      CountAtLeastOne(s[1..], j - 1, v);
    } else {
      CountAtLeastTwo(s[1..], i - 1, j - 1);
    }
  }

  lemma {:induction false} CountAtLeastOne(s: seq<Change>, k: nat, v: Vector)
    requires k < |s| && Key(s[k]) == v
    ensures CountAt(s, v) >= 1
  {
    if k > 0 {
      CountAtLeastOne(s[1..], k - 1, v);
    }
  }

  /** Without repeated keys, every position holds at most one change. */
  lemma {:induction false} CountAtMostOne(s: seq<Change>, v: Vector)
    requires forall i, j :: 0 <= i < j < |s| ==> Key(s[i]) != Key(s[j])
    ensures CountAt(s, v) <= 1
  {
    if |s| > 0 {
      CountAtMostOne(s[1..], v);
      if Key(s[0]) == v {
        forall k | 0 <= k < |s[1..]|
          ensures Key(s[1..][k]) != v
        {
          assert s[1..][k] == s[k + 1];
        }
        CountAtZero(s[1..], v);
      }
    }
  }

  /** With no change at `v`, the count at `v` is zero. */
  lemma {:induction false} CountAtZero(s: seq<Change>, v: Vector)
    requires forall k :: 0 <= k < |s| ==> Key(s[k]) != v
    ensures CountAt(s, v) == 0
  {
    if |s| > 0 {
      CountAtZero(s[1..], v);
    }
  }

  /** In a distinct set every position holds at most one change. */
  lemma DistinctBoundsCount(c: Changes, v: Vector)
    ensures Distinct(c) ==> CountAt(c.entries, v) <= 1
  {
    if Distinct(c) {
      CountAtMostOne(c.entries, v);
    }
  }

  /** An index of a change at `v`, when there is one. */
  lemma {:induction false} IndexAt(s: seq<Change>, v: Vector) returns (k: nat)
    requires CountAt(s, v) >= 1
    ensures k < |s| && Key(s[k]) == v
  {
    if Key(s[0]) == v {
      k := 0;
    } else {
      var k' := IndexAt(s[1..], v);
      k := k' + 1;
    }
  }

  /** A set is distinct exactly when no position holds more than one change; an empty set is distinct. */
  lemma DistinctIffAtMostOnePerPosition(c: Changes)
    ensures Distinct(c) <==> forall v :: |GetChangesAt(c, v)| <= 1
  {
    if Distinct(c) {
      forall v ensures |GetChangesAt(c, v)| <= 1 {
        CountAtMostOne(c.entries, v);
        CountAtIsFilterLength(c.entries, v);
      }
    } else {
      var i, j :| 0 <= i < j < |c.entries| && Key(c.entries[i]) == Key(c.entries[j]);
      CountAtLeastTwo(c.entries, i, j);
      CountAtIsFilterLength(c.entries, Key(c.entries[i]));
      assert |GetChangesAt(c, Key(c.entries[i]))| >= 2;
    }
  }

  /**
   * `isDistinct`: for every key occurrence, the number of changes under that
   * key is at most one.
   */
  method IsDistinct(c: Changes) returns (distinct: bool)
    ensures distinct <==> Distinct(c)
  {
    var k := 0;
    while k < |c.entries|
      invariant 0 <= k <= |c.entries|
      invariant forall i :: 0 <= i < k ==> CountAt(c.entries, Key(c.entries[i])) <= 1
    {
      var n := CountAt(c.entries, Key(c.entries[k]));
      if n > 1 {
        DistinctBoundsCount(c, Key(c.entries[k]));
        return false;
      }
      k := k + 1;
    }
    distinct := true;
    DistinctFromCounts(c);
  }

  /** Every change being alone at its position makes the set distinct. */
  lemma DistinctFromCounts(c: Changes)
    requires forall i :: 0 <= i < |c.entries| ==> CountAt(c.entries, Key(c.entries[i])) <= 1
    ensures Distinct(c)
  {
    forall i, j | 0 <= i < j < |c.entries|
      ensures Key(c.entries[i]) != Key(c.entries[j])
    {
      if Key(c.entries[i]) == Key(c.entries[j]) {
        CountAtLeastTwo(c.entries, i, j);
      }
    }
  }
}
