/** The binding registry's storage (packages/common/decorators/lookup.ts):
    an ordered multimap from a service identifier to the list of values
    registered under it.  The private `_map` is a JavaScript `Map`, whose
    keys keep their order of first insertion; it is modelled by the key
    order `keys` and the table `entries`. */
module Lookups {
  import opened Wrappers

  /** The two errors a lookup throws. */
  datatype LookupError = NullArgument | KeyNotFound

  /** The abstract value of a lookup: the keys of `_map` in insertion order
      and the list stored under each. */
  datatype Snapshot<K, T> = Snapshot(keys: seq<K>, entries: map<K, seq<T>>)

  ghost predicate Distinct<K>(ks: seq<K>) {
    forall i, j :: 0 <= i < j < |ks| ==> ks[i] != ks[j]
  }

  /** What any JavaScript `Map` satisfies: each key listed once, and the
      listed keys are exactly the keys of the table. */
  ghost predicate IsMap<K, T>(s: Snapshot<K, T>) {
    && Distinct(s.keys)
    && (forall k :: k in s.entries ==> k in s.keys)
    && (forall k :: k in s.keys ==> k in s.entries)
  }

  /** The lookup's own invariant: a present key never maps to an empty list. */
  ghost predicate WellFormed<K, T>(s: Snapshot<K, T>) {
    IsMap(s) && forall k :: k in s.entries ==> s.entries[k] != []
  }

  /** `ks` without `k`, order kept. */
  function Without<K(==)>(ks: seq<K>, k: K): (r: seq<K>)
    ensures forall x :: x in r ==> x in ks && x != k
    ensures forall x :: x in ks && x != k ==> x in r
    ensures k !in ks ==> r == ks
  {
    if ks == [] then []
    else (if ks[0] == k then [] else [ks[0]]) + Without(ks[1..], k)
  }

  lemma {:induction false} WithoutDistinct<K>(ks: seq<K>, k: K)
    ensures Distinct(ks) ==> Distinct(Without(ks, k))
  {
    if ks != [] && Distinct(ks) {
      WithoutDistinct(ks[1..], k);
      var rest := Without(ks[1..], k);
      if ks[0] != k {
        assert ks[0] !in ks[1..];
        DistinctCons(ks[0], rest);
      }
    }
  }

  lemma DistinctCons<K>(x: K, s: seq<K>)
    requires Distinct(s) && x !in s
    ensures Distinct([x] + s)
  {
    forall i, j | 0 <= i < j < |[x] + s| ensures ([x] + s)[i] != ([x] + s)[j] {
      if i > 0 {
        assert ([x] + s)[i] == s[i - 1];
      }
      assert ([x] + s)[j] == s[j - 1];
    }
  }

  lemma DistinctSnoc<K>(s: seq<K>, x: K)
    requires Distinct(s) && x !in s
    ensures Distinct(s + [x])
  {
    forall i, j | 0 <= i < j < |s + [x]| ensures (s + [x])[i] != (s + [x])[j] {
      assert (s + [x])[i] == s[i];
    }
  }

  /** `Map.prototype.set`: a present key keeps its place, a new key goes last. */
  ghost function MapSet<K, T>(s: Snapshot<K, T>, k: K, v: seq<T>): (r: Snapshot<K, T>)
    ensures IsMap(s) ==> IsMap(r)
  {
    Snapshot(if k in s.entries then s.keys else s.keys + [k], s.entries[k := v])
  }

  /** `Map.prototype.delete`. */
  ghost function MapDelete<K, T>(s: Snapshot<K, T>, k: K): (r: Snapshot<K, T>)
    ensures IsMap(s) ==> IsMap(r)
    ensures k !in r.entries
    ensures IsMap(s) && k !in s.entries ==> r == s
  {
    WithoutDistinct(s.keys, k);
    Snapshot(Without(s.keys, k), s.entries - {k})
  }

  /** The state `add(k, v)` leaves: `v` appended to the list of `k`. */
  ghost function Added<K, T>(s: Snapshot<K, T>, k: K, v: T): (r: Snapshot<K, T>)
    ensures WellFormed(s) ==> WellFormed(r)
  {
    MapSet(s, k, (if k in s.entries then s.entries[k] else []) + [v])
  }

  /** The state `remove(k)` leaves. */
  ghost function Removed<K, T>(s: Snapshot<K, T>, k: K): (r: Snapshot<K, T>)
    ensures WellFormed(s) ==> WellFormed(r)
    ensures k !in r.entries
  {
    MapDelete(s, k)
  }

  /** `xs.filter(x => !condition(x))`: the elements that fail `condition`, order kept. */
  function Reject<T>(xs: seq<T>, condition: T -> bool): (r: seq<T>)
    ensures |r| <= |xs|
  {
    if xs == [] then []
    else (if condition(xs[0]) then [] else [xs[0]]) + Reject(xs[1..], condition)
  }

  /** `Reject` keeps exactly the elements that fail the condition. */
  lemma {:induction false} RejectMembers<T>(xs: seq<T>, condition: T -> bool)
    ensures forall x :: x in Reject(xs, condition) ==> x in xs && !condition(x)
    ensures forall x :: x in xs && !condition(x) ==> x in Reject(xs, condition)
  {
    if xs != [] {
      RejectMembers(xs[1..], condition);
      assert xs == [xs[0]] + xs[1..];
    }
  }

  /** The keys of `ks` whose lists keep at least one element, order kept. */
  ghost function Surviving<K, T>(ks: seq<K>, entries: map<K, seq<T>>, condition: T -> bool): (r: seq<K>)
  {
    if ks == [] then []
    else
      var k := ks[|ks| - 1];
      Surviving(ks[..|ks| - 1], entries, condition) + (if Keeps(entries, condition, k) then [k] else [])
  }

  /** Whether `k` is present and some value of its list fails `condition`. */
  ghost predicate Keeps<K, T>(entries: map<K, seq<T>>, condition: T -> bool, k: K) {
    k in entries && Reject(entries[k], condition) != []
  }

  lemma {:induction false} SurvivingMembers<K, T>(ks: seq<K>, entries: map<K, seq<T>>, condition: T -> bool)
    ensures forall k :: k in Surviving(ks, entries, condition) ==> k in ks && Keeps(entries, condition, k)
    ensures forall k :: k in ks && Keeps(entries, condition, k) ==> k in Surviving(ks, entries, condition)
  {
    if ks != [] {
      var front := ks[..|ks| - 1];
      SurvivingMembers(front, entries, condition);
      assert ks == front + [ks[|ks| - 1]];
    }
  }

  lemma {:induction false} SurvivingDistinct<K, T>(ks: seq<K>, entries: map<K, seq<T>>, condition: T -> bool)
    requires Distinct(ks)
    ensures Distinct(Surviving(ks, entries, condition))
  {
    if ks != [] {
      var front := ks[..|ks| - 1];
      var k := ks[|ks| - 1];
      assert Distinct(front);
      SurvivingDistinct(front, entries, condition);
      SurvivingMembers(front, entries, condition);
      if Keeps(entries, condition, k) {
        assert k !in front;
        DistinctSnoc(Surviving(front, entries, condition), k);
      }
    }
  }

  /** The state `removeByCondition(condition)` leaves. */
  ghost function Purged<K, T>(s: Snapshot<K, T>, condition: T -> bool): (r: Snapshot<K, T>)
    requires WellFormed(s)
    ensures WellFormed(r)
  {
    SurvivingDistinct(s.keys, s.entries, condition);
    SurvivingMembers(s.keys, s.entries, condition);
    Snapshot(Surviving(s.keys, s.entries, condition),
             map k | k in s.entries && Keeps(s.entries, condition, k) :: Reject(s.entries[k], condition))
  }

  /** Each element replaced by its clone. */
  function CloneAll<T>(xs: seq<T>, cloneOf: T -> T): (r: seq<T>)
    ensures |r| == |xs|
    ensures forall i :: 0 <= i < |xs| ==> r[i] == cloneOf(xs[i])
  {
    seq(|xs|, i requires 0 <= i < |xs| => cloneOf(xs[i]))
  }

  /** The state of the lookup `clone()` returns. */
  ghost function Cloned<K, T>(s: Snapshot<K, T>, cloneOf: T -> T): (r: Snapshot<K, T>)
    requires WellFormed(s)
    ensures WellFormed(r)
  {
    Snapshot(s.keys, map k | k in s.entries :: CloneAll(s.entries[k], cloneOf))
  }

  class Lookup<K(==), T> {
    /** The keys of `_map`, in insertion order. */
    var keys: seq<K>
    /** The list stored under each key of `_map`. */
    var entries: map<K, seq<T>>

    ghost function Snap(): Snapshot<K, T>
      reads this
    {
      Snapshot(keys, entries)
    }

    ghost predicate Valid()
      reads this
    {
      WellFormed(Snap())
    }

    constructor ()
      ensures Valid()
      ensures keys == [] && entries == map[]
    {
      keys := [];
      entries := map[];
    }

    /** `_map.set(k, v)`. */
    method SetEntry(k: K, v: seq<T>)
      requires IsMap(Snap())
      modifies this
      ensures Snap() == MapSet(old(Snap()), k, v)
    {
      if k !in entries {
        keys := keys + [k];
      }
      entries := entries[k := v];
    }

    /** `_map.delete(k)`, which reports whether `k` was there. */
    method DeleteEntry(k: K) returns (existed: bool)
      requires IsMap(Snap())
      modifies this
      ensures existed == (k in old(entries))
      ensures Snap() == MapDelete(old(Snap()), k)
    {
      existed := k in entries;
      keys := Without(keys, k);
      entries := entries - {k};
    }

    /** `add`: rejects a missing token or value, otherwise appends the value
        to the token's list, creating the list when the token is new. */
    method Add(token: Option<K>, value: Option<T>) returns (outcome: Outcome<LookupError>)
      requires Valid()
      modifies this
      ensures Valid()
      ensures token.None? || value.None? ==> outcome == Fail(NullArgument) && Snap() == old(Snap())
      ensures token.Some? && value.Some? ==>
                outcome == Pass && Snap() == Added(old(Snap()), token.value, value.value)
    {
      if token.None? {
        return Fail(NullArgument);
      }
      if value.None? {
        return Fail(NullArgument);
      }
      var k, v := token.value, value.value;
      if k in entries {
        var entry := entries[k];
        SetEntry(k, entry + [v]);
      } else {
        assert [] + [v] == [v];
        SetEntry(k, [v]);
      }
      outcome := Pass;
    }

    /** `get`: the list stored under the token, in insertion order. */
    method Get(token: Option<K>) returns (r: Result<seq<T>, LookupError>)
      requires Valid()
      ensures token.None? ==> r == Failure(NullArgument)
      ensures token.Some? && token.value !in entries ==> r == Failure(KeyNotFound)
      ensures token.Some? && token.value in entries ==> r == Success(entries[token.value]) && r.value != []
    {
      if token.None? {
        return Failure(NullArgument);
      }
      if token.value in entries {
        r := Success(entries[token.value]);
      } else {
        r := Failure(KeyNotFound);
      }
    }

    /** `remove`: deletes the token and all its values. */
    method Remove(token: Option<K>) returns (outcome: Outcome<LookupError>)
      requires Valid()
      modifies this
      ensures Valid()
      ensures token.None? ==> outcome == Fail(NullArgument) && Snap() == old(Snap())
      ensures token.Some? && token.value !in old(entries) ==>
                outcome == Fail(KeyNotFound) && Snap() == old(Snap())
      ensures token.Some? && token.value in old(entries) ==>
                outcome == Pass && Snap() == Removed(old(Snap()), token.value)
      ensures token.Some? ==> token.value !in entries
    {
      if token.None? {
        return Fail(NullArgument);
      }
      var existed := DeleteEntry(token.value);
      if !existed {
        return Fail(KeyNotFound);
      }
      outcome := Pass;
    }

    /** `removeByCondition`: visits the keys in insertion order, keeps in each
        list the values that fail `condition`, and deletes a key whose list
        becomes empty. */
    method RemoveByCondition(condition: T -> bool)
      requires Valid()
      modifies this
      ensures Valid()
      ensures Snap() == Purged(old(Snap()), condition)
    {
      ghost var s0 := Snap();
      var ks := keys;
      var i := 0;
      VisitedStart(s0, condition);
      while i < |ks|
        invariant 0 <= i <= |ks|
        invariant Snap() == Visited(s0, i, condition)
      {
        VisitKey(s0, i, ks[i], condition);
        i := i + 1;
      }
      VisitedEnd(s0, condition);
    }

    /** The callback `removeByCondition` runs for the key `k`, the `i`-th
        key of the lookup as it was before the loop. */
    method VisitKey(ghost s0: Snapshot<K, T>, i: nat, k: K, condition: T -> bool)
      requires WellFormed(s0) && i < |s0.keys| && k == s0.keys[i]
      requires Snap() == Visited(s0, i, condition)
      modifies this
      ensures Snap() == Visited(s0, i + 1, condition)
    {
      VisitedStep(s0, i, condition);
      var updated := Reject(entries[k], condition);
      if |updated| > 0 {
        SetEntry(k, updated);
      } else {
        var _ := DeleteEntry(k);
      }
    }

    /** `hasKey`. */
    method HasKey(token: Option<K>) returns (r: Result<bool, LookupError>)
      requires Valid()
      ensures token.None? ==> r == Failure(NullArgument)
      ensures token.Some? ==> r == Success(token.value in entries)
    {
      if token.None? {
        return Failure(NullArgument);
      }
      r := Success(token.value in entries);
    }

    /** `clone`: a fresh lookup filled by `add`ing, key by key in insertion
        order, the clone of every stored value. */
    method Clone(cloneOf: T -> T) returns (copy: Lookup<K, T>)
      requires Valid()
      ensures fresh(copy)
      ensures copy.Valid()
      ensures copy.Snap() == Cloned(Snap(), cloneOf)
    {
      copy := new Lookup();
      ghost var s0 := Snap();
      var ks := keys;
      CopiedStart(s0, cloneOf);
      for i := 0 to |ks|
        invariant copy.Valid()
        invariant copy.Snap() == Copied(s0, i, 0, cloneOf)
      {
        var k := ks[i];
        var values := entries[k];
        for j := 0 to |values|
          invariant copy.Valid()
          invariant copy.Snap() == Copied(s0, i, j, cloneOf)
        {
          CopiedStep(s0, i, j, cloneOf);
          var _ := copy.Add(Some(k), Some(cloneOf(values[j])));
        }
        CopiedNextKey(s0, i, cloneOf);
      }
      CopiedEnd(s0, cloneOf);
    }
  }

  /** The clones of the lists of the keys in `ks`. */
  ghost function ClonedLists<K, T>(entries: map<K, seq<T>>, ks: seq<K>, cloneOf: T -> T): map<K, seq<T>> {
    map x | x in ks && x in entries :: CloneAll(entries[x], cloneOf)
  }

  lemma ClonedListsSnoc<K, T>(entries: map<K, seq<T>>, ks: seq<K>, k: K, cloneOf: T -> T)
    requires k in entries
    ensures ClonedLists(entries, ks + [k], cloneOf) == ClonedLists(entries, ks, cloneOf)[k := CloneAll(entries[k], cloneOf)]
  {
    var before, after := ClonedLists(entries, ks, cloneOf), ClonedLists(entries, ks + [k], cloneOf);
    forall x ensures x in ks + [k] <==> x in ks || x == k {
    }
    assert after == before[k := CloneAll(entries[k], cloneOf)];
  }

  /** The lookup `clone()` has built once it has copied the lists of the
      first `i` keys of `s` and the first `j` values of the next key's list. */
  ghost function Copied<K, T>(s: Snapshot<K, T>, i: nat, j: nat, cloneOf: T -> T): Snapshot<K, T>
    requires WellFormed(s) && i <= |s.keys|
    requires i < |s.keys| ==> j <= |s.entries[s.keys[i]]|
  {
    var done := ClonedLists(s.entries, s.keys[..i], cloneOf);
    if i == |s.keys| || j == 0 then Snapshot(s.keys[..i], done)
    else
      var k := s.keys[i];
      Snapshot(s.keys[..i + 1], done[k := CloneAll(s.entries[k][..j], cloneOf)])
  }

  lemma CopiedStart<K, T>(s: Snapshot<K, T>, cloneOf: T -> T)
    requires WellFormed(s)
    ensures Copied(s, 0, 0, cloneOf) == Snapshot([], map[])
  {
    assert s.keys[..0] == [];
  }

  lemma CopiedEnd<K, T>(s: Snapshot<K, T>, cloneOf: T -> T)
    requires WellFormed(s)
    ensures Copied(s, |s.keys|, 0, cloneOf) == Cloned(s, cloneOf)
  {
    assert s.keys[..|s.keys|] == s.keys;
  }

  /** Adding the clone of the next value to the copy. */
  lemma CopiedStep<K, T>(s: Snapshot<K, T>, i: nat, j: nat, cloneOf: T -> T)
    requires WellFormed(s) && i < |s.keys| && j < |s.entries[s.keys[i]]|
    ensures Added(Copied(s, i, j, cloneOf), s.keys[i], cloneOf(s.entries[s.keys[i]][j]))
            == Copied(s, i, j + 1, cloneOf)
  {
    var k := s.keys[i];
    assert k !in s.keys[..i] by {
      assert Distinct(s.keys);
    }
    if j == 0 {
      CopiedFirstValue(s, i, cloneOf);
    } else {
      CopiedNextValue(s, i, j, cloneOf);
    }
  }

  /** The first value of a key's list brings the key into the copy. */
  lemma CopiedFirstValue<K, T>(s: Snapshot<K, T>, i: nat, cloneOf: T -> T)
    requires WellFormed(s) && i < |s.keys| && s.keys[i] !in s.keys[..i]
    ensures Added(Copied(s, i, 0, cloneOf), s.keys[i], cloneOf(s.entries[s.keys[i]][0]))
            == Copied(s, i, 1, cloneOf)
  {
    var k, values := s.keys[i], s.entries[s.keys[i]];
    var c := cloneOf(values[0]);
    var done := ClonedLists(s.entries, s.keys[..i], cloneOf);
    assert Copied(s, i, 0, cloneOf) == Snapshot(s.keys[..i], done);
    assert k !in done;
    assert s.keys[..i + 1] == s.keys[..i] + [k];
    assert CloneAll(values[..1], cloneOf) == [c];
    assert [] + [c] == [c];
    assert Copied(s, i, 1, cloneOf) == Snapshot(s.keys[..i] + [k], done[k := [c]]);
  }

  /** A later value of a key's list is appended to the key's copied list. */
  lemma CopiedNextValue<K, T>(s: Snapshot<K, T>, i: nat, j: nat, cloneOf: T -> T)
    requires WellFormed(s) && i < |s.keys| && 0 < j < |s.entries[s.keys[i]]| && s.keys[i] !in s.keys[..i]
    ensures Added(Copied(s, i, j, cloneOf), s.keys[i], cloneOf(s.entries[s.keys[i]][j]))
            == Copied(s, i, j + 1, cloneOf)
  {
    var k, values := s.keys[i], s.entries[s.keys[i]];
    var c := cloneOf(values[j]);
    var done := ClonedLists(s.entries, s.keys[..i], cloneOf);
    var before := CloneAll(values[..j], cloneOf);
    assert Copied(s, i, j, cloneOf) == Snapshot(s.keys[..i + 1], done[k := before]);
    assert CloneAll(values[..j + 1], cloneOf) == before + [c];
    assert done[k := before][k := before + [c]] == done[k := before + [c]];
  }

  /** Once a key's whole list is copied, the copy holds the first `i + 1` keys. */
  lemma CopiedNextKey<K, T>(s: Snapshot<K, T>, i: nat, cloneOf: T -> T)
    requires WellFormed(s) && i < |s.keys|
    ensures Copied(s, i, |s.entries[s.keys[i]]|, cloneOf) == Copied(s, i + 1, 0, cloneOf)
  {
    var k, values := s.keys[i], s.entries[s.keys[i]];
    assert values[..|values|] == values;
    assert s.keys[..i + 1] == s.keys[..i] + [k];
    ClonedListsSnoc(s.entries, s.keys[..i], k, cloneOf);
  }

  /** The entries of `removeByCondition`'s state once the keys in `done` have
      been visited: those are purged, the others are as in `entries`. */
  ghost function PurgedEntries<K, T>(entries: map<K, seq<T>>, done: seq<K>, condition: T -> bool): map<K, seq<T>>
  {
    map k | k in entries && (k in done ==> Keeps(entries, condition, k)) ::
      if k in done then Reject(entries[k], condition) else entries[k]
  }

  /** The state of `removeByCondition` once it has visited the first `i`
      keys of `s0`. */
  ghost function Visited<K, T>(s0: Snapshot<K, T>, i: nat, condition: T -> bool): Snapshot<K, T>
    requires i <= |s0.keys|
  {
    Snapshot(Surviving(s0.keys[..i], s0.entries, condition) + s0.keys[i..],
             PurgedEntries(s0.entries, s0.keys[..i], condition))
  }

  lemma VisitedStart<K, T>(s0: Snapshot<K, T>, condition: T -> bool)
    ensures Visited(s0, 0, condition) == s0
  {
    assert s0.keys[..0] == [];
    assert s0.keys[0..] == s0.keys;
    var e := PurgedEntries(s0.entries, [], condition);
    forall k | k in s0.entries ensures k in e && e[k] == s0.entries[k] {
    }
    assert e == s0.entries;
  }

  lemma VisitedEnd<K, T>(s0: Snapshot<K, T>, condition: T -> bool)
    requires WellFormed(s0)
    ensures Visited(s0, |s0.keys|, condition) == Purged(s0, condition)
  {
    var ks := s0.keys;
    assert ks[..|ks|] == ks;
    assert ks[|ks|..] == [];
    assert Visited(s0, |ks|, condition).entries == Purged(s0, condition).entries;
  }

  lemma VisitedIsMap<K, T>(s0: Snapshot<K, T>, i: nat, condition: T -> bool)
    requires WellFormed(s0) && i <= |s0.keys|
    ensures IsMap(Visited(s0, i, condition))
  {
    var ks := s0.keys;
    var done, rest := ks[..i], ks[i..];
    assert ks == done + rest;
    assert Distinct(done) && Distinct(rest);
    SurvivingDistinct(done, s0.entries, condition);
    SurvivingMembers(done, s0.entries, condition);
    var front := Surviving(done, s0.entries, condition);
    forall x | x in front ensures x !in rest {
      var a :| 0 <= a < i && ks[a] == x;
    }
    DistinctConcat(front, rest);
  }

  /** One turn of the loop in `removeByCondition`, at the key `s0.keys[i]`. */
  lemma VisitedStep<K, T>(s0: Snapshot<K, T>, i: nat, condition: T -> bool)
    requires WellFormed(s0) && i < |s0.keys|
    ensures IsMap(Visited(s0, i, condition))
    ensures s0.keys[i] in Visited(s0, i, condition).entries
    ensures Visited(s0, i, condition).entries[s0.keys[i]] == s0.entries[s0.keys[i]]
    ensures Keeps(s0.entries, condition, s0.keys[i]) ==>
              MapSet(Visited(s0, i, condition), s0.keys[i], Reject(s0.entries[s0.keys[i]], condition))
              == Visited(s0, i + 1, condition)
    ensures !Keeps(s0.entries, condition, s0.keys[i]) ==>
              MapDelete(Visited(s0, i, condition), s0.keys[i]) == Visited(s0, i + 1, condition)
  {
    VisitedIsMap(s0, i, condition);
    var ks, k := s0.keys, s0.keys[i];
    assert k !in ks[..i] && k !in ks[i + 1..] by {
      assert Distinct(ks);
    }
    assert ks[..i + 1] == ks[..i] + [k];
    assert ks[i..] == [k] + ks[i + 1..];
    assert k in s0.entries;
    PurgedEntriesStep(s0.entries, ks[..i], k, condition);
    if Keeps(s0.entries, condition, k) {
      SurvivingKept(ks[..i], k, ks[i + 1..], s0.entries, condition);
    } else {
      SurvivingDropped(ks[..i], k, ks[i + 1..], s0.entries, condition);
    }
  }

  /** Visiting one more key of the entries. */
  lemma PurgedEntriesStep<K, T>(entries: map<K, seq<T>>, done: seq<K>, k: K, condition: T -> bool)
    requires k in entries && k !in done
    ensures k in PurgedEntries(entries, done, condition)
    ensures PurgedEntries(entries, done, condition)[k] == entries[k]
    ensures PurgedEntries(entries, done + [k], condition) ==
              if Keeps(entries, condition, k)
              then PurgedEntries(entries, done, condition)[k := Reject(entries[k], condition)]
              else PurgedEntries(entries, done, condition) - {k}
  {
    var before, after := PurgedEntries(entries, done, condition), PurgedEntries(entries, done + [k], condition);
    var updated :=
      if Keeps(entries, condition, k) then before[k := Reject(entries[k], condition)] else before - {k};
    forall x | x in after ensures x in updated && updated[x] == after[x] {
      assert x in done + [k] <==> x in done || x == k;
    }
    forall x | x in updated ensures x in after {
      assert x in done + [k] <==> x in done || x == k;
    }
    assert after == updated;
  }

  /** The key order after visiting a key that keeps values: it stays in place. */
  lemma SurvivingKept<K, T>(done: seq<K>, k: K, rest: seq<K>, entries: map<K, seq<T>>, condition: T -> bool)
    requires Keeps(entries, condition, k)
    ensures Surviving(done + [k], entries, condition) + rest == Surviving(done, entries, condition) + ([k] + rest)
  {
    SurvivingSnoc(done, k, entries, condition);
    var front := Surviving(done, entries, condition);
    assert front + [k] + rest == front + ([k] + rest);
  }

  /** The key order after visiting a key left without values: it is dropped. */
  lemma SurvivingDropped<K, T>(done: seq<K>, k: K, rest: seq<K>, entries: map<K, seq<T>>, condition: T -> bool)
    requires k !in done && k !in rest && !Keeps(entries, condition, k)
    ensures Surviving(done + [k], entries, condition) + rest
         == Without(Surviving(done, entries, condition) + ([k] + rest), k)
  {
    var front := Surviving(done, entries, condition);
    assert k !in front by {
      SurvivingMembers(done, entries, condition);
    }
    calc {
      Surviving(done + [k], entries, condition) + rest;
    == { SurvivingSnoc(done, k, entries, condition); assert front + [] == front; }
      front + rest;
    == { WithoutSplice(front, k, rest); }
      Without(front + ([k] + rest), k);
    }
  }

  /** Deleting a key that occurs once, between `front` and `rest`. */
  lemma WithoutSplice<K>(front: seq<K>, k: K, rest: seq<K>)
    requires k !in front && k !in rest
    ensures Without(front + ([k] + rest), k) == front + rest
  {
    assert Without([k] + rest, k) == rest by {
      assert ([k] + rest)[1..] == rest;
    }
    WithoutAppend(front, [k] + rest, k);
  }

  lemma SurvivingSnoc<K, T>(done: seq<K>, k: K, entries: map<K, seq<T>>, condition: T -> bool)
    ensures Surviving(done + [k], entries, condition)
         == Surviving(done, entries, condition) + (if Keeps(entries, condition, k) then [k] else [])
  {
    assert (done + [k])[..|done|] == done;
  }

  lemma DistinctConcat<K>(a: seq<K>, b: seq<K>)
    requires Distinct(a) && Distinct(b)
    requires forall x :: x in a ==> x !in b
    ensures Distinct(a + b)
  {
    forall i, j | 0 <= i < j < |a + b| ensures (a + b)[i] != (a + b)[j] {
      if j < |a| {
        assert (a + b)[i] == a[i] && (a + b)[j] == a[j];
      } else if i >= |a| {
        assert (a + b)[i] == b[i - |a|] && (a + b)[j] == b[j - |a|];
      } else {
        assert (a + b)[i] == a[i] && (a + b)[j] == b[j - |a|];
        assert a[i] in a;
      }
    }
  }

  lemma {:induction false} WithoutAppend<K>(a: seq<K>, b: seq<K>, k: K)
    ensures Without(a + b, k) == Without(a, k) + Without(b, k)
  {
    if a == [] {
      assert a + b == b;
    } else {
      assert (a + b)[1..] == a[1..] + b;
      WithoutAppend(a[1..], b, k);
    }
  }

  // Properties of the registry operations.

  /** `add` appends to the token's own list and touches no other key; a new
      token goes to the end of the key order. */
  lemma AddedFrame<K, T>(s: Snapshot<K, T>, k: K, v: T)
    requires WellFormed(s)
    ensures k in Added(s, k, v).entries
    ensures k in s.entries ==> Added(s, k, v).entries[k] == s.entries[k] + [v] && Added(s, k, v).keys == s.keys
    ensures k !in s.entries ==> Added(s, k, v).entries[k] == [v] && Added(s, k, v).keys == s.keys + [k]
    ensures forall x :: x != k ==> (x in Added(s, k, v).entries <==> x in s.entries)
    ensures forall x :: x != k && x in s.entries ==> Added(s, k, v).entries[x] == s.entries[x]
  {
  }

  /** The state after `add(k, v)` for each `v` of `vs` in turn. */
  ghost function AddedAll<K, T>(s: Snapshot<K, T>, k: K, vs: seq<T>): (r: Snapshot<K, T>)
    ensures WellFormed(s) ==> WellFormed(r)
  {
    if vs == [] then s else Added(AddedAll(s, k, vs[..|vs| - 1]), k, vs[|vs| - 1])
  }

  /** Values added one by one under a token come back from `get` in the
      order they were added, after whatever the token held before. */
  lemma {:induction false} AddedAllInOrder<K, T>(s: Snapshot<K, T>, k: K, vs: seq<T>)
    ensures vs != [] ==> k in AddedAll(s, k, vs).entries
    ensures vs != [] ==>
              AddedAll(s, k, vs).entries[k] == (if k in s.entries then s.entries[k] else []) + vs
  {
    if vs != [] {
      var front, last := vs[..|vs| - 1], vs[|vs| - 1];
      var before := if k in s.entries then s.entries[k] else [];
      var prev := AddedAll(s, k, front);
      assert AddedAll(s, k, vs) == Added(prev, k, last);
      AddedEntry(prev, k, last);
      if front == [] {
        assert prev == s;
        assert vs == [last];
      } else {
        AddedAllInOrder(s, k, front);
        assert vs == front + [last];
        assert before + front + [last] == before + vs;
      }
    }
  }

  lemma AddedEntry<K, T>(s: Snapshot<K, T>, k: K, v: T)
    ensures k in Added(s, k, v).entries
    ensures Added(s, k, v).entries[k] == (if k in s.entries then s.entries[k] else []) + [v]
  {
  }

  /** Adding under one token leaves every other token's presence as it was. */
  lemma {:induction false} AddedAllFrame<K, T>(s: Snapshot<K, T>, k: K, vs: seq<T>, x: K)
    requires x != k
    ensures x in AddedAll(s, k, vs).entries <==> x in s.entries
    ensures x in s.entries ==> AddedAll(s, k, vs).entries[x] == s.entries[x]
  {
    if vs != [] {
      AddedAllFrame(s, k, vs[..|vs| - 1], x);
    }
  }

  /** `remove` right after `add` of a new token restores the previous state. */
  lemma RemovedUndoesAdded<K, T>(s: Snapshot<K, T>, k: K, v: T)
    requires WellFormed(s) && k !in s.entries
    ensures Removed(Added(s, k, v), k) == s
  {
    DeleteUndoesSet(s, k, [] + [v]);
  }

  /** `remove(k)` drops `k` from the key order and touches no other key. */
  lemma RemovedFrame<K, T>(s: Snapshot<K, T>, k: K)
    requires WellFormed(s)
    ensures Removed(s, k).keys == Without(s.keys, k)
    ensures forall x :: x != k ==> (x in Removed(s, k).entries <==> x in s.entries)
    ensures forall x :: x != k && x in s.entries ==> Removed(s, k).entries[x] == s.entries[x]
  {
  }

  /** `Map.prototype.delete` undoes `Map.prototype.set` of a new key. */
  lemma DeleteUndoesSet<K, T>(s: Snapshot<K, T>, k: K, vs: seq<T>)
    requires IsMap(s) && k !in s.entries
    ensures MapDelete(MapSet(s, k, vs), k) == s
  {
    assert k !in s.keys;
    WithoutLast(s.keys, k);
    assert s.entries[k := vs] - {k} == s.entries;
  }

  lemma WithoutLast<K>(ks: seq<K>, k: K)
    requires k !in ks
    ensures Without(ks + [k], k) == ks
  {
    WithoutAppend(ks, [k], k);
    assert Without([k], k) == [];
  }

  lemma {:induction false} RejectNoMatch<T>(xs: seq<T>, condition: T -> bool)
    requires forall x :: x in xs ==> !condition(x)
    ensures Reject(xs, condition) == xs
  {
    if xs != [] {
      assert xs[0] in xs;
      assert forall x :: x in xs[1..] ==> x in xs;
      RejectNoMatch(xs[1..], condition);
    }
  }

  /** Filtering twice by the same condition is filtering once. */
  lemma RejectIdempotent<T>(xs: seq<T>, condition: T -> bool)
    ensures Reject(Reject(xs, condition), condition) == Reject(xs, condition)
  {
    RejectMembers(xs, condition);
    RejectNoMatch(Reject(xs, condition), condition);
  }

  lemma {:induction false} SurvivingAll<K, T>(ks: seq<K>, entries: map<K, seq<T>>, condition: T -> bool)
    requires forall i :: 0 <= i < |ks| ==> Keeps(entries, condition, ks[i])
    ensures Surviving(ks, entries, condition) == ks
  {
    if ks != [] {
      var front, last := ks[..|ks| - 1], ks[|ks| - 1];
      assert forall i :: 0 <= i < |front| ==> front[i] == ks[i];
      SurvivingAll(front, entries, condition);
      SurvivingSnoc(front, last, entries, condition);
      assert ks == front + [last];
    }
  }

  /** After `removeByCondition(condition)`: a key stays exactly when some
      value of its list fails the condition, its list is the order-preserving
      filter of the old list, no stored value satisfies the condition, and the
      surviving keys keep their relative order. */
  lemma PurgedContents<K, T>(s: Snapshot<K, T>, condition: T -> bool)
    requires WellFormed(s)
    ensures forall k :: k in Purged(s, condition).entries <==>
              k in s.entries && Reject(s.entries[k], condition) != []
    ensures forall k :: k in Purged(s, condition).entries ==>
              Purged(s, condition).entries[k] == Reject(s.entries[k], condition)
    ensures forall k, x :: k in Purged(s, condition).entries && x in Purged(s, condition).entries[k] ==> !condition(x)
    ensures Purged(s, condition).keys == Surviving(s.keys, s.entries, condition)
  {
    forall k | k in s.entries {
      RejectMembers(s.entries[k], condition);
    }
  }

  /** `a` is obtained from `b` by deleting elements, the rest kept in order. */
  ghost predicate SubsequenceOf<K>(a: seq<K>, b: seq<K>)
    decreases |b|
  {
    if b == [] then a == []
    else
      || SubsequenceOf(a, b[..|b| - 1])
      || (a != [] && a[|a| - 1] == b[|b| - 1] && SubsequenceOf(a[..|a| - 1], b[..|b| - 1]))
  }

  /** The keys that survive keep their relative order. */
  lemma {:induction false} SurvivingInOrder<K, T>(ks: seq<K>, entries: map<K, seq<T>>, condition: T -> bool)
    ensures SubsequenceOf(Surviving(ks, entries, condition), ks)
  {
    if ks != [] {
      var front := ks[..|ks| - 1];
      var k := ks[|ks| - 1];
      var r := Surviving(ks, entries, condition);
      SurvivingInOrder(front, entries, condition);
      if Keeps(entries, condition, k) {
        assert r == Surviving(front, entries, condition) + [k];
        assert r[..|r| - 1] == Surviving(front, entries, condition);
        assert r[|r| - 1] == k;
      } else {
        assert r == Surviving(front, entries, condition);
      }
      assert ks[..|ks| - 1] == front;
    }
  }

  /** After `removeByCondition`, the remaining keys are in their old order. */
  lemma PurgedKeepsOrder<K, T>(s: Snapshot<K, T>, condition: T -> bool)
    requires WellFormed(s)
    ensures SubsequenceOf(Purged(s, condition).keys, s.keys)
  {
    SurvivingInOrder(s.keys, s.entries, condition);
  }

  /** `removeByCondition` is idempotent. */
  lemma PurgedIdempotent<K, T>(s: Snapshot<K, T>, condition: T -> bool)
    requires WellFormed(s)
    ensures Purged(Purged(s, condition), condition) == Purged(s, condition)
  {
    var p := Purged(s, condition);
    forall k | k in p.entries
      ensures Reject(p.entries[k], condition) == p.entries[k]
    {
      RejectIdempotent(s.entries[k], condition);
    }
    PurgedUnchanged(p, condition);
  }

  /** A lookup in which no value satisfies the condition is left as it is. */
  lemma PurgedUnchanged<K, T>(s: Snapshot<K, T>, condition: T -> bool)
    requires WellFormed(s)
    requires forall k :: k in s.entries ==> Reject(s.entries[k], condition) == s.entries[k]
    ensures Purged(s, condition) == s
  {
    assert Surviving(s.keys, s.entries, condition) == s.keys by {
      assert forall i :: 0 <= i < |s.keys| ==> Keeps(s.entries, condition, s.keys[i]);
      SurvivingAll(s.keys, s.entries, condition);
    }
    assert (map k | k in s.entries && Keeps(s.entries, condition, k) :: Reject(s.entries[k], condition)) == s.entries by {
      KeptEntriesUnchanged(s.entries, condition);
    }
  }

  lemma KeptEntriesUnchanged<K, T>(entries: map<K, seq<T>>, condition: T -> bool)
    requires forall k :: k in entries ==> entries[k] != [] && Reject(entries[k], condition) == entries[k]
    ensures (map k | k in entries && Keeps(entries, condition, k) :: Reject(entries[k], condition)) == entries
  {
  }

  /** The clone has the same keys in the same order, and under each key a
      list of the same length whose elements are the clones of the original
      elements, in order. */
  lemma ClonedShape<K, T>(s: Snapshot<K, T>, cloneOf: T -> T)
    requires WellFormed(s)
    ensures Cloned(s, cloneOf).keys == s.keys
    ensures forall k :: k in Cloned(s, cloneOf).entries <==> k in s.entries
    ensures forall k :: k in s.entries ==> |Cloned(s, cloneOf).entries[k]| == |s.entries[k]|
    ensures forall k, i :: k in s.entries && 0 <= i < |s.entries[k]| ==>
              Cloned(s, cloneOf).entries[k][i] == cloneOf(s.entries[k][i])
  {
  }

  /** A clone is a separate lookup: changing it leaves the original as it was. */
  method CloneIsIndependent<K(==), T>(original: Lookup<K, T>, cloneOf: T -> T, k: K, v: T)
      returns (copy: Lookup<K, T>)
    requires original.Valid()
    ensures copy != original
    ensures original.Snap() == old(original.Snap())
    ensures copy.Snap() == Added(Cloned(original.Snap(), cloneOf), k, v)
  {
    copy := original.Clone(cloneOf);
    var _ := copy.Add(Some(k), Some(v));
  }
}
