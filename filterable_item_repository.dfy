/** A catalog of (item, filter) pairs answering "which items apply to this
    metadata?" (rspec-core's `FilterableItemRepository`), in its two forms:
    `UpdateOptimized`, which scans on every query, and `QueryOptimized`, which
    memoizes answers by the query metadata projected onto the keys the
    registered filters use.

    The collaborators of the filter (`World`) are fixed when a repository is
    made; what user procs return is passed to each query (`Calls`), since it
    may change from one query to the next. */
module FilterableItemRepository {
  import opened MetadataFilter

  // ---------------------------------------------------------------------------
  // What a query answers

  /** An item is selected when its filter is empty or `apply?` holds. */
  predicate Selected(env: Env, pred: Predicate, filter: Metadata, m: Metadata)
  {
    filter == [] || Apply(env, pred, filter, m)
  }

  function Pick<T>(env: Env, pred: Predicate, pair: (T, Metadata), m: Metadata): seq<T>
  {
    if Selected(env, pred, pair.1, m) then [pair.0] else []
  }

  /** The answer of `items_for` on an `UpdateOptimized`: the items whose filter
      selects `m`, in stored order. */
  function Scan<T>(env: Env, pred: Predicate, pairs: seq<(T, Metadata)>, m: Metadata): seq<T>
  {
    if pairs == [] then []
    else Scan(env, pred, pairs[..|pairs| - 1], m) + Pick(env, pred, pairs[|pairs| - 1], m)
  }

  /** The positions of the selected pairs, in increasing order. */
  function SelectedIndices<T>(env: Env, pred: Predicate, pairs: seq<(T, Metadata)>, m: Metadata): seq<nat>
  {
    if pairs == [] then []
    else
      var n := |pairs| - 1;
      SelectedIndices(env, pred, pairs[..n], m) + (if Selected(env, pred, pairs[n].1, m) then [n] else [])
  }

  /** The answer is exactly the subsequence of stored items at the positions
      whose filter selects `m`: positions increase, and a position is taken
      iff its filter selects. */
  lemma {:induction false} ScanIsSelectedSubsequence<T>(env: Env, pred: Predicate, pairs: seq<(T, Metadata)>, m: Metadata)
    ensures var idx := SelectedIndices(env, pred, pairs, m);
            && |idx| == |Scan(env, pred, pairs, m)|
            && (forall k | 0 <= k < |idx| :: idx[k] < |pairs| && Scan(env, pred, pairs, m)[k] == pairs[idx[k]].0)
            && (forall k, l | 0 <= k < l < |idx| :: idx[k] < idx[l])
            && (forall i | 0 <= i < |pairs| :: Selected(env, pred, pairs[i].1, m) <==> i in idx)
  {
    if pairs != [] {
      var n := |pairs| - 1;
      var front := pairs[..n];
      ScanIsSelectedSubsequence(env, pred, front, m);
      var idx0 := SelectedIndices(env, pred, front, m);
      assert forall i | 0 <= i < n :: front[i] == pairs[i];
      assert forall k | 0 <= k < |idx0| :: idx0[k] < n;
    }
  }

  /** A pair with an empty filter is returned for every query metadata. */
  lemma EmptyFilterAlwaysSelected<T>(env: Env, pred: Predicate, pairs: seq<(T, Metadata)>, m: Metadata, i: nat)
    requires i < |pairs| && pairs[i].1 == []
    ensures exists k | 0 <= k < |Scan(env, pred, pairs, m)| :: Scan(env, pred, pairs, m)[k] == pairs[i].0
  {
    ScanIsSelectedSubsequence(env, pred, pairs, m);
    var idx := SelectedIndices(env, pred, pairs, m);
    var k :| 0 <= k < |idx| && idx[k] == i;
    assert Scan(env, pred, pairs, m)[k] == pairs[i].0;
  }

  /** An appended pair is considered last. */
  lemma ScanAppend<T>(env: Env, pred: Predicate, pairs: seq<(T, Metadata)>, pair: (T, Metadata), m: Metadata)
    ensures Scan(env, pred, pairs + [pair], m) == Scan(env, pred, pairs, m) + Pick(env, pred, pair, m)
  {
    assert (pairs + [pair])[..|pairs|] == pairs;
  }

  /** A prepended pair is considered first: its item, if selected, precedes
      every earlier registered one. */
  lemma {:induction false} ScanPrepend<T>(env: Env, pred: Predicate, pair: (T, Metadata), pairs: seq<(T, Metadata)>, m: Metadata)
    ensures Scan(env, pred, [pair] + pairs, m) == Pick(env, pred, pair, m) + Scan(env, pred, pairs, m)
  {
    if pairs != [] {
      var n := |pairs| - 1;
      ScanPrepend(env, pred, pair, pairs[..n], m);
      assert ([pair] + pairs)[..|pairs|] == [pair] + pairs[..n];
    }
  }

  // ---------------------------------------------------------------------------
  // Keys the registered filters use

  predicate NoDuplicates(keys: seq<Key>)
  {
    forall i, j | 0 <= i < j < |keys| :: keys[i] != keys[j]
  }

  function KeySet(keys: seq<Key>): set<Key>
  {
    set k | k in keys
  }

  /** Every key of every registered filter. */
  ghost function FilterKeys<T>(pairs: seq<(T, Metadata)>): set<Key>
  {
    set i, j | 0 <= i < |pairs| && 0 <= j < |pairs[i].1| :: pairs[i].1[j].key
  }

  /** Every key a registered filter gives a proc value. */
  ghost function ProcKeys<T>(pairs: seq<(T, Metadata)>): set<Key>
  {
    set i, j | 0 <= i < |pairs| && 0 <= j < |pairs[i].1| && pairs[i].1[j].val.Callable? :: pairs[i].1[j].key
  }

  ghost function EntryKeys(filter: Metadata): set<Key>
  {
    set j | 0 <= j < |filter| :: filter[j].key
  }

  ghost function ProcEntryKeys(filter: Metadata): set<Key>
  {
    set j | 0 <= j < |filter| && filter[j].val.Callable? :: filter[j].key
  }

  lemma KeysAfterAppend<T>(pairs: seq<(T, Metadata)>, pair: (T, Metadata))
    ensures FilterKeys(pairs + [pair]) == FilterKeys(pairs) + EntryKeys(pair.1)
    ensures ProcKeys(pairs + [pair]) == ProcKeys(pairs) + ProcEntryKeys(pair.1)
  {
    var ps := pairs + [pair];
    assert forall i | 0 <= i < |pairs| :: ps[i] == pairs[i];
    assert ps[|pairs|] == pair;
  }

  lemma KeysAfterPrepend<T>(pair: (T, Metadata), pairs: seq<(T, Metadata)>)
    ensures FilterKeys([pair] + pairs) == EntryKeys(pair.1) + FilterKeys(pairs)
    ensures ProcKeys([pair] + pairs) == ProcEntryKeys(pair.1) + ProcKeys(pairs)
  {
    var ps := [pair] + pairs;
    assert forall i | 0 <= i < |pairs| :: ps[i + 1] == pairs[i];
    assert ps[0] == pair;
    forall k | k in FilterKeys(ps) ensures k in EntryKeys(pair.1) + FilterKeys(pairs) {
      var i, j :| 0 <= i < |ps| && 0 <= j < |ps[i].1| && ps[i].1[j].key == k;
      if i > 0 {
        assert pairs[i - 1].1[j].key == k;
      }
    }
    forall k | k in ProcKeys(ps) ensures k in ProcEntryKeys(pair.1) + ProcKeys(pairs) {
      var i, j :| 0 <= i < |ps| && 0 <= j < |ps[i].1| && ps[i].1[j].val.Callable? && ps[i].1[j].key == k;
      if i > 0 {
        assert pairs[i - 1].1[j].key == k && pairs[i - 1].1[j].val.Callable?;
      }
    }
  }

  /** `Set#merge`: each new key joins the end, in order, unless already present. */
  function MergeKeys(keys: seq<Key>, more: seq<Key>): (r: seq<Key>)
    ensures |keys| <= |r| && r[..|keys|] == keys
    ensures KeySet(r) == KeySet(keys) + KeySet(more)
    ensures NoDuplicates(keys) ==> NoDuplicates(r)
    decreases more
  {
    if more == [] then keys
    else
      var next := if more[0] in keys then keys else keys + [more[0]];
      var r := MergeKeys(next, more[1..]);
      assert KeySet(more) == {more[0]} + KeySet(more[1..]);
      assert next[..|keys|] == keys;
      assert r[..|keys|] == r[..|next|][..|keys|];
      r
  }

  function EntryKeySeq(filter: Metadata): (r: seq<Key>)
    ensures KeySet(r) == EntryKeys(filter)
  {
    if filter == [] then []
    else
      var rest := EntryKeySeq(filter[1..]);
      var r := [filter[0].key] + rest;
      assert KeySet(r) == {filter[0].key} + KeySet(rest);
      assert EntryKeys(filter) == {filter[0].key} + EntryKeys(filter[1..]) by {
        forall k | k in EntryKeys(filter) ensures k in {filter[0].key} + EntryKeys(filter[1..]) {
          var j :| 0 <= j < |filter| && filter[j].key == k;
          if j > 0 {
            assert filter[1..][j - 1].key == k;
          }
        }
        forall k | k in EntryKeys(filter[1..]) ensures k in EntryKeys(filter) {
          var j :| 0 <= j < |filter[1..]| && filter[1..][j].key == k;
          assert filter[j + 1].key == k;
        }
      }
      r
  }

  // ---------------------------------------------------------------------------
  // The projection used as a memo key

  /** `applicable_metadata_from`: `m` restricted to `keys`, in the order of
      `keys`, missing keys omitted. */
  function Project(keys: seq<Key>, m: Metadata): Metadata
  {
    if keys == [] then []
    else
      var k := keys[|keys| - 1];
      Project(keys[..|keys| - 1], m) + (if HasKey(m, k) then [Entry(k, Lookup(m, k).value)] else [])
  }

  lemma {:induction false} LookupAppend(a: Metadata, e: Entry, k: Key)
    ensures Lookup(a + [e], k) == if HasKey(a, k) then Lookup(a, k) else if e.key == k then Some(e.val) else None
  {
    if a != [] {
      LookupAppend(a[1..], e, k);
      assert (a + [e])[1..] == a[1..] + [e];
      if a[0].key != k && HasKey(a, k) {
        var i :| 0 <= i < |a| && a[i].key == k;
        assert a[1..][i - 1].key == k;
      }
    }
  }

  /** The projection keeps the value of every listed key the metadata has,
      and nothing else. */
  lemma {:induction false} ProjectLookup(keys: seq<Key>, m: Metadata, k: Key)
    ensures Lookup(Project(keys, m), k) == if k in keys then Lookup(m, k) else None
  {
    if keys != [] {
      var n := |keys| - 1;
      var front := keys[..n];
      ProjectLookup(front, m, k);
      assert k in keys <==> k in front || k == keys[n] by {
        assert keys == front + [keys[n]];
      }
      var a := Project(front, m);
      if HasKey(m, keys[n]) {
        LookupAppend(a, Entry(keys[n], Lookup(m, keys[n]).value), k);
      } else {
        assert Project(keys, m) == a + [] == a;
        if k == keys[n] {
          assert Lookup(m, k) == None;
        }
      }
    }
  }

  lemma {:induction false} ProjectProcFree(keys: seq<Key>, m: Metadata)
    requires ProcFreeHash(m)
    ensures ProcFreeHash(Project(keys, m))
  {
    if keys != [] {
      var k := keys[|keys| - 1];
      ProjectProcFree(keys[..|keys| - 1], m);
      ProcFreeLookup(m, k);
    }
  }

  /** Whether the projection holds a key some filter gives a proc value. */
  predicate TouchesProcKey(p: Metadata, procKeys: set<Key>)
  {
    exists i | 0 <= i < |p| :: p[i].key in procKeys
  }

  // ---------------------------------------------------------------------------
  // When a memoized answer is still right

  /** Every filter value is a proc at the top level or holds no proc at all.
      The source marks only top-level procs; a proc nested in a hash or an
      array escapes the bypass (see `NestedProcEscapesBypass`). */
  ghost predicate NoNestedProcs<T>(pairs: seq<(T, Metadata)>)
  {
    forall i, j | 0 <= i < |pairs| && 0 <= j < |pairs[i].1| ::
      pairs[i].1[j].val.Callable? || ProcFree(pairs[i].1[j].val)
  }

  /** Each clause either holds no proc or is a proc on a key `m` lacks, so no
      proc is called while evaluating the filter against `m`. */
  ghost predicate CallFree(filter: Metadata, m: Metadata)
  {
    forall j | 0 <= j < |filter| ::
      ProcFree(filter[j].val) || (filter[j].val.Callable? && !HasKey(m, filter[j].key))
  }

  lemma {:induction false} ApplyIgnoresCalls(w: World, c1: Calls, c2: Calls, filter: Metadata, m: Metadata)
    requires CallFree(filter, m) && ProcFreeHash(m)
    ensures AnyApplies(Env(w, c1), filter, m) == AnyApplies(Env(w, c2), filter, m)
    ensures AllApply(Env(w, c1), filter, m) == AllApply(Env(w, c2), filter, m)
  {
    if filter != [] {
      var e := filter[0];
      if ProcFree(e.val) {
        FilterAppliesIgnoresCalls(w, c1, c2, e.key, e.val, m);
      }
      assert CallFree(filter[1..], m) by {
        forall j | 0 <= j < |filter[1..]|
          ensures ProcFree(filter[1..][j].val) || (filter[1..][j].val.Callable? && !HasKey(m, filter[1..][j].key))
        {
          assert filter[1..][j] == filter[j + 1];
        }
      }
      ApplyIgnoresCalls(w, c1, c2, filter[1..], m);
    }
  }

  /** A scan of a metadata that no registered proc reads is the same whatever
      the procs would return: this is why memoizing it is sound. */
  lemma {:induction false} ScanIgnoresCalls<T>(w: World, c1: Calls, c2: Calls, pred: Predicate, pairs: seq<(T, Metadata)>, p: Metadata)
    requires NoNestedProcs(pairs) && ProcFreeHash(p)
    requires !TouchesProcKey(p, ProcKeys(pairs))
    ensures Scan(Env(w, c1), pred, pairs, p) == Scan(Env(w, c2), pred, pairs, p)
  {
    if pairs != [] {
      var n := |pairs| - 1;
      var front := pairs[..n];
      assert forall i | 0 <= i < n :: front[i] == pairs[i];
      assert ProcKeys(front) <= ProcKeys(pairs);
      ScanIgnoresCalls(w, c1, c2, pred, front, p);
      var filter := pairs[n].1;
      assert CallFree(filter, p) by {
        forall j | 0 <= j < |filter|
          ensures ProcFree(filter[j].val) || (filter[j].val.Callable? && !HasKey(p, filter[j].key))
        {
          if filter[j].val.Callable? {
            assert filter[j].key in ProcKeys(pairs);
          }
        }
      }
      ApplyIgnoresCalls(w, c1, c2, filter, p);
    }
  }

  /** A stale memoized answer: a proc nested inside a hash filter value does
      not make its key a proc key, so its projection is memoized although
      the answer depends on what the proc returns. */
  lemma NestedProcEscapesBypass<T>(w: World, c1: Calls, c2: Calls, item: T)
    requires c1(Proc(0, 1), [Bool(true)]) && !c2(Proc(0, 1), [Bool(true)])
    ensures var nested := Hash([Entry("slow", Callable(Proc(0, 1)))]);
            var pairs := [(item, [Entry("db", nested)])];
            var p := [Entry("db", Hash([Entry("slow", Bool(true))]))];
            && ProcKeys(pairs) == {}
            && !TouchesProcKey(p, ProcKeys(pairs))
            && Scan(Env(w, c1), All, pairs, p) == [item]
            && Scan(Env(w, c2), All, pairs, p) == []
  {
    var nested := Hash([Entry("slow", Callable(Proc(0, 1)))]);
    var pairs := [(item, [Entry("db", nested)])];
    var p := [Entry("db", Hash([Entry("slow", Bool(true))]))];
    var sub := [Entry("slow", Bool(true))];
    assert Lookup(p, "db") == Some(Hash(sub));
    assert Lookup(sub, "slow") == Some(Bool(true));
    assert pairs[..0] == [];
  }

  /** The same escape through an array: a filter value `[proc]` against
      array metadata swaps roles twice (`filter_applies_to_any_value?`), so
      the proc is called on each metadata element although its key is no
      proc key. */
  lemma NestedProcInArrayEscapesBypass<T>(w: World, c1: Calls, c2: Calls, item: T)
    requires c1(Proc(0, 1), [Bool(true)]) && !c2(Proc(0, 1), [Bool(true)])
    ensures var pairs := [(item, [Entry("db", Array([Callable(Proc(0, 1))]))])];
            var p := [Entry("db", Array([Bool(true)]))];
            && ProcKeys(pairs) == {}
            && !TouchesProcKey(p, ProcKeys(pairs))
            && Scan(Env(w, c1), All, pairs, p) == [item]
            && Scan(Env(w, c2), All, pairs, p) == []
  {
    var filterValue := Array([Callable(Proc(0, 1))]);
    var pairs := [(item, [Entry("db", filterValue)])];
    var p := [Entry("db", Array([Bool(true)]))];
    assert Lookup(p, "db") == Some(Array([Bool(true)]));
    assert Lookup([Entry("db", filterValue)], "db") == Some(filterValue);
    assert Lookup([Entry("db", Bool(true))], "db") == Some(Bool(true));
    assert pairs[..0] == [];
  }

  // ---------------------------------------------------------------------------
  // When a projected scan answers as the full scan

  /** No top-level `:locations` or `:ids` clause and no top-level
      two-argument proc: the clauses that read more of the metadata than
      their own key. */
  ghost predicate LocalFilters<T>(pairs: seq<(T, Metadata)>)
  {
    forall i, j | 0 <= i < |pairs| && 0 <= j < |pairs[i].1| ::
      var e := pairs[i].1[j];
      e.key != LocationsKey && e.key != IdsKey && !(e.val.Callable? && e.val.proc.arity == 2)
  }

  lemma {:induction false} ApplyOnProjection(env: Env, filter: Metadata, keys: seq<Key>, m: Metadata)
    requires forall j | 0 <= j < |filter| ::
               filter[j].key in keys && filter[j].key != LocationsKey && filter[j].key != IdsKey &&
               !(filter[j].val.Callable? && filter[j].val.proc.arity == 2)
    ensures AnyApplies(env, filter, Project(keys, m)) == AnyApplies(env, filter, m)
    ensures AllApply(env, filter, Project(keys, m)) == AllApply(env, filter, m)
  {
    if filter != [] {
      ProjectLookup(keys, m, filter[0].key);
      ClauseReadsOwnKey(env, filter[0].key, filter[0].val, Project(keys, m), m);
      assert forall j | 0 <= j < |filter[1..]| :: filter[1..][j] == filter[j + 1];
      ApplyOnProjection(env, filter[1..], keys, m);
    }
  }

  /** With local filters whose keys are all tracked, scanning the projection
      answers as scanning the whole metadata. */
  lemma {:induction false} ScanOnProjection<T>(env: Env, pred: Predicate, pairs: seq<(T, Metadata)>, keys: seq<Key>, m: Metadata)
    requires LocalFilters(pairs) && FilterKeys(pairs) <= KeySet(keys)
    ensures Scan(env, pred, pairs, Project(keys, m)) == Scan(env, pred, pairs, m)
  {
    if pairs != [] {
      var n := |pairs| - 1;
      var front := pairs[..n];
      assert forall i | 0 <= i < n :: front[i] == pairs[i];
      assert FilterKeys(front) <= FilterKeys(pairs);
      ScanOnProjection(env, pred, front, keys, m);
      var filter := pairs[n].1;
      assert forall j | 0 <= j < |filter| :: filter[j].key in FilterKeys(pairs);
      ApplyOnProjection(env, filter, keys, m);
    }
  }

  /** Without local filters the projection can change the answer: the
      projection onto `[:locations]` drops the file and line the `:locations`
      clause reads, so the clause holds vacuously on it but not on the full
      metadata. */
  lemma ProjectionChangesLocationsAnswer<T>(env: Env, item: T)
    requires forall x :: env.world.ascend(x) == [x]
    requires env.world.precedingDeclarationLine(5) == Some(7)
    ensures var pairs := [(item, [Entry(LocationsKey, LineIndex(map["/f" := [5]]))])];
            var m := [Entry(AbsoluteFilePathKey, Str("/f")), Entry(LineNumberKey, Int(3))];
            && FilterKeys(pairs) <= KeySet([LocationsKey])
            && Scan(env, All, pairs, Project([LocationsKey], m)) == [item]
            && Scan(env, All, pairs, m) == []
  {
    var lines := map["/f" := [5]];
    var filter := [Entry(LocationsKey, LineIndex(lines))];
    var pairs := [(item, filter)];
    var m := [Entry(AbsoluteFilePathKey, Str("/f")), Entry(LineNumberKey, Int(3))];
    assert Project([LocationsKey], m) == [] by {
      assert !HasKey(m, LocationsKey);
      assert Project([LocationsKey], m) == Project([], m) + [];
    }
    var empty: Metadata := [];
    assert env.world.ascend(empty) == [empty];
    assert LinesFor(lines, empty) == [];
    assert DeclarationLines(lines, [empty]) == [];
    assert FilterApplies(env, LocationsKey, LineIndex(lines), empty);
    assert filter[1..] == [];
    assert AllApply(env, filter, empty);
    assert Pick(env, All, pairs[0], empty) == [item];
    assert env.world.ascend(m) == [m];
    assert Lookup(m, LocationsKey) == None;
    assert LinesFor(lines, m) == [5];
    assert DeclarationLines(lines, [m]) == [5];
    assert Lookup(m, LineNumberKey) == Some(Int(3));
    LocationsClause(env, lines, m);
    assert !FilterApplies(env, LocationsKey, LineIndex(lines), m);
    assert pairs[..0] == [];
  }

  // ---------------------------------------------------------------------------
  // The repositories

  /** Stores the pairs in registration order; every query scans them. */
  class UpdateOptimized<T> {
    const appliesPredicate: Predicate
    const world: World
    var itemsAndFilters: seq<(T, Metadata)>

    constructor (appliesPredicate: Predicate, world: World)
      ensures this.appliesPredicate == appliesPredicate && this.world == world
      ensures itemsAndFilters == []
    {
      this.appliesPredicate := appliesPredicate;
      this.world := world;
      itemsAndFilters := [];
    }

    method Append(item: T, filter: Metadata)
      modifies this
      ensures itemsAndFilters == old(itemsAndFilters) + [(item, filter)]
    {
      itemsAndFilters := itemsAndFilters + [(item, filter)];
    }

    method Prepend(item: T, filter: Metadata)
      modifies this
      ensures itemsAndFilters == [(item, filter)] + old(itemsAndFilters)
    {
      itemsAndFilters := [(item, filter)] + itemsAndFilters;
    }

    /** `items_for`: the stored items whose filter is empty or applies. */
    method ItemsFor(calls: Calls, requestMeta: Metadata) returns (r: seq<T>)
      ensures r == Scan(Env(world, calls), appliesPredicate, itemsAndFilters, requestMeta)
    {
      var env := Env(world, calls);
      r := [];
      var i := 0;
      while i < |itemsAndFilters|
        invariant 0 <= i <= |itemsAndFilters|
        invariant r == Scan(env, appliesPredicate, itemsAndFilters[..i], requestMeta)
      {
        var (item, itemMeta) := itemsAndFilters[i];
        if itemMeta == [] || Apply(env, appliesPredicate, itemMeta, requestMeta) {
          r := r + [item];
        }
        assert itemsAndFilters[..i + 1][..i] == itemsAndFilters[..i];
        i := i + 1;
      }
      assert itemsAndFilters[..i] == itemsAndFilters;
    }
  }

  /** Memoizes answers by projected metadata; every registration clears the
      memo table. The storage and the scan are those of an `UpdateOptimized`
      it extends, here held as `base`. */
  class QueryOptimized<T> {
    const base: UpdateOptimized<T>
    /** The keys of every registered filter, in first-seen order. */
    var applicableKeys: seq<Key>
    /** The keys some registered filter gives a proc value. */
    var procKeys: set<Key>
    var memoizedLookups: map<Metadata, seq<T>>
    /** What the procs returned when each memo entry was computed. */
    ghost var memoCalls: map<Metadata, Calls>

    ghost predicate Valid()
      reads this, base
    {
      && NoDuplicates(applicableKeys)
      && KeySet(applicableKeys) == FilterKeys(base.itemsAndFilters)
      && procKeys == ProcKeys(base.itemsAndFilters)
      && memoCalls.Keys == memoizedLookups.Keys
      && forall p | p in memoizedLookups ::
           && !TouchesProcKey(p, procKeys)
           && memoizedLookups[p] ==
                Scan(Env(base.world, memoCalls[p]), base.appliesPredicate, base.itemsAndFilters, p)
    }

    constructor (appliesPredicate: Predicate, world: World)
      ensures Valid() && fresh(base)
      ensures base.appliesPredicate == appliesPredicate && base.world == world
      ensures base.itemsAndFilters == [] && applicableKeys == [] && procKeys == {}
      ensures memoizedLookups == map[]
    {
      base := new UpdateOptimized(appliesPredicate, world);
      applicableKeys := [];
      procKeys := {};
      memoizedLookups := map[];
      memoCalls := map[];
    }

    method Append(item: T, filter: Metadata)
      requires Valid()
      modifies this, base
      ensures Valid()
      ensures base.itemsAndFilters == old(base.itemsAndFilters) + [(item, filter)]
      ensures applicableKeys == MergeKeys(old(applicableKeys), EntryKeySeq(filter))
      ensures |old(applicableKeys)| <= |applicableKeys| && applicableKeys[..|old(applicableKeys)|] == old(applicableKeys)
      ensures KeySet(applicableKeys) == KeySet(old(applicableKeys)) + EntryKeys(filter)
      ensures procKeys == old(procKeys) + ProcEntryKeys(filter)
      ensures memoizedLookups == map[]
    {
      base.Append(item, filter);
      HandleMutation(filter);
      KeysAfterAppend(old(base.itemsAndFilters), (item, filter));
    }

    method Prepend(item: T, filter: Metadata)
      requires Valid()
      modifies this, base
      ensures Valid()
      ensures base.itemsAndFilters == [(item, filter)] + old(base.itemsAndFilters)
      ensures applicableKeys == MergeKeys(old(applicableKeys), EntryKeySeq(filter))
      ensures |old(applicableKeys)| <= |applicableKeys| && applicableKeys[..|old(applicableKeys)|] == old(applicableKeys)
      ensures KeySet(applicableKeys) == KeySet(old(applicableKeys)) + EntryKeys(filter)
      ensures procKeys == old(procKeys) + ProcEntryKeys(filter)
      ensures memoizedLookups == map[]
    {
      base.Prepend(item, filter);
      HandleMutation(filter);
      KeysAfterPrepend((item, filter), old(base.itemsAndFilters));
    }

    /** `handle_mutation`: track the filter's keys and proc keys, and forget
        every memoized answer. */
    method HandleMutation(filter: Metadata)
      modifies this
      ensures applicableKeys == MergeKeys(old(applicableKeys), EntryKeySeq(filter))
      ensures procKeys == old(procKeys) + ProcEntryKeys(filter)
      ensures memoizedLookups == map[] && memoCalls == map[]
    {
      applicableKeys := MergeKeys(applicableKeys, EntryKeySeq(filter));
      var newProcKeys := ProcKeysFrom(filter);
      procKeys := procKeys + KeySet(newProcKeys);
      memoizedLookups := map[];
      memoCalls := map[];
    }

    /** `applicable_metadata_from`. */
    method ApplicableMetadataFrom(m: Metadata) returns (p: Metadata)
      ensures p == Project(applicableKeys, m)
    {
      p := [];
      var i := 0;
      while i < |applicableKeys|
        invariant 0 <= i <= |applicableKeys|
        invariant p == Project(applicableKeys[..i], m)
      {
        var key := applicableKeys[i];
        if HasKey(m, key) {
          p := p + [Entry(key, Lookup(m, key).value)];
        }
        assert applicableKeys[..i + 1][..i] == applicableKeys[..i];
        i := i + 1;
      }
      assert applicableKeys[..i] == applicableKeys;
    }

    /** `items_for`: answer from the projection of `m`, memoized unless the
        projection holds a proc key. */
    method ItemsFor(calls: Calls, m: Metadata) returns (r: seq<T>)
      requires Valid()
      modifies this
      ensures Valid()
      ensures applicableKeys == old(applicableKeys) && procKeys == old(procKeys)
      ensures var p := Project(applicableKeys, m);
              var env := Env(base.world, calls);
              && (TouchesProcKey(p, procKeys) ==>
                    r == Scan(env, base.appliesPredicate, base.itemsAndFilters, p) &&
                    memoizedLookups == old(memoizedLookups))
              && (!TouchesProcKey(p, procKeys) ==>
                    && p in memoizedLookups && r == memoizedLookups[p]
                    && memoizedLookups == old(memoizedLookups)[p := r]
                    && (p in old(memoizedLookups) ==> r == old(memoizedLookups)[p]))
              // A miss stores the scan under the procs' current answers.
              && (!TouchesProcKey(p, procKeys) && p !in old(memoizedLookups) ==>
                    r == Scan(env, base.appliesPredicate, base.itemsAndFilters, p) &&
                    memoCalls == old(memoCalls)[p := calls])
              && (TouchesProcKey(p, procKeys) || p in old(memoizedLookups) ==>
                    memoCalls == old(memoCalls))
      // Never stale, when no proc hides inside a filter value or the metadata.
      ensures NoNestedProcs(base.itemsAndFilters) && ProcFreeHash(m) ==>
                r == Scan(Env(base.world, calls), base.appliesPredicate, base.itemsAndFilters,
                          Project(applicableKeys, m))
      // Then also the answer an `UpdateOptimized` gives, for local filters.
      ensures NoNestedProcs(base.itemsAndFilters) && ProcFreeHash(m) && LocalFilters(base.itemsAndFilters) ==>
                r == Scan(Env(base.world, calls), base.appliesPredicate, base.itemsAndFilters, m)
    {
      var p := ApplicableMetadataFrom(m);
      if TouchesProcKey(p, procKeys) {
        r := base.ItemsFor(calls, p);
      } else if p in memoizedLookups {
        r := memoizedLookups[p];
        if NoNestedProcs(base.itemsAndFilters) && ProcFreeHash(m) {
          ProjectProcFree(applicableKeys, m);
          ScanIgnoresCalls(base.world, memoCalls[p], calls, base.appliesPredicate, base.itemsAndFilters, p);
        }
      } else {
        r := base.ItemsFor(calls, p);
        memoizedLookups := memoizedLookups[p := r];
        memoCalls := memoCalls[p := calls];
      }
      if LocalFilters(base.itemsAndFilters) {
        ScanOnProjection(Env(base.world, calls), base.appliesPredicate, base.itemsAndFilters, applicableKeys, m);
      }
    }
  }

  /** `proc_keys_from`: the keys the filter gives a proc value. */
  method ProcKeysFrom(filter: Metadata) returns (r: seq<Key>)
    ensures KeySet(r) == ProcEntryKeys(filter)
  {
    r := [];
    var i := 0;
    while i < |filter|
      invariant 0 <= i <= |filter|
      invariant KeySet(r) == ProcEntryKeys(filter[..i])
    {
      assert ProcEntryKeys(filter[..i + 1]) ==
               ProcEntryKeys(filter[..i]) + (if filter[i].val.Callable? then {filter[i].key} else {}) by {
        var a, b := filter[..i], filter[..i + 1];
        assert forall j | 0 <= j < i :: b[j] == a[j];
        assert b[i] == filter[i];
        forall k | k in ProcEntryKeys(b)
          ensures k in ProcEntryKeys(a) + (if filter[i].val.Callable? then {filter[i].key} else {})
        {
          var j :| 0 <= j < |b| && b[j].val.Callable? && b[j].key == k;
          if j < i {
            assert a[j].val.Callable? && a[j].key == k;
          }
        }
      }
      if filter[i].val.Callable? {
        r := r + [filter[i].key];
      }
      i := i + 1;
    }
    assert filter[..i] == filter;
  }

  // ---------------------------------------------------------------------------
  // Clients

  /** Two queries with no registration between them, whose projection holds
      no proc key, give the same answer whatever procs return the second
      time: the second is served from the memo table. */
  method QueryTwice<T>(repo: QueryOptimized<T>, c1: Calls, c2: Calls, m: Metadata) returns (first: seq<T>, second: seq<T>)
    requires repo.Valid() && !TouchesProcKey(Project(repo.applicableKeys, m), repo.procKeys)
    modifies repo
    ensures repo.Valid()
    ensures first == second
    ensures Project(repo.applicableKeys, m) !in old(repo.memoizedLookups) ==>
              second == Scan(Env(repo.base.world, c1), repo.base.appliesPredicate, repo.base.itemsAndFilters,
                             Project(repo.applicableKeys, m))
  {
    first := repo.ItemsFor(c1, m);
    second := repo.ItemsFor(c2, m);
  }

  /** Tracking the keys of a one-clause filter on "db" and projecting a
      metadata whose only key is "db" gives that metadata back. */
  lemma SingleKeyProjection(filter: Metadata, m: Metadata)
    requires |filter| == 1 && filter[0].key == "db"
    requires |m| == 1 && m[0].key == "db"
    ensures MergeKeys([], EntryKeySeq(filter)) == ["db"]
    ensures Project(["db"], m) == m
  {
    assert EntryKeySeq(filter) == ["db"];
    assert Lookup(m, "db") == Some(m[0].val);
    assert Project(["db"], m) == Project([], m) + [Entry("db", m[0].val)];
  }

  /** A stale memoized answer on the class itself: the filter nests a proc
      inside a hash, so its key is no proc key and the first answer is
      memoized; the second query gets it back although the proc now answers
      false and a fresh scan selects nothing. */
  method StaleMemoizedAnswer(world: World, c1: Calls, c2: Calls) returns (first: seq<string>, second: seq<string>)
    requires c1(Proc(0, 1), [Bool(true)]) && !c2(Proc(0, 1), [Bool(true)])
    ensures first == ["A"] && second == ["A"]
    ensures Scan(Env(world, c2), All, [("A", [Entry("db", Hash([Entry("slow", Callable(Proc(0, 1)))]))])],
                 [Entry("db", Hash([Entry("slow", Bool(true))]))]) == []
  {
    var filter := [Entry("db", Hash([Entry("slow", Callable(Proc(0, 1)))]))];
    var m := [Entry("db", Hash([Entry("slow", Bool(true))]))];
    NestedProcEscapesBypass(world, c1, c2, "A");
    SingleKeyProjection(filter, m);
    var repo := new QueryOptimized<string>(All, world);
    repo.Append("A", filter);
    first := repo.ItemsFor(c1, m);
    second := repo.ItemsFor(c2, m);
  }

  /** Registration order decides answer order: A and B appended, then C
      prepended, so C is stored first; C's filter does not match `{slow: true}`
      and B's empty filter matches everything. */
  lemma RegistrationOrderAnswer(env: Env)
    ensures var slow, unit := [Entry("slow", Bool(true))], [Entry("type", Str("unit"))];
            var pairs := [("C", unit), ("A", slow), ("B", [])];
            && Scan(env, Any, pairs, slow) == ["A", "B"]
            && NoNestedProcs(pairs) && LocalFilters(pairs) && ProcFreeHash(slow)
  {
    var slow, unit := [Entry("slow", Bool(true))], [Entry("type", Str("unit"))];
    var a, b, c := ("A", slow), ("B", []), ("C", unit);
    assert Pick(env, Any, a, slow) == ["A"] by {
      assert Lookup(slow, "slow") == Some(Bool(true));
    }
    assert Pick(env, Any, b, slow) == ["B"];
    assert Pick(env, Any, c, slow) == [] by {
      assert Lookup(slow, "type") == None;
      AbsentKeyFails(env, "type", Str("unit"), slow);
      ApplySemantics(env, unit, slow);
    }
    ScanAppend(env, Any, [], a, slow);
    assert [] + [a] == [a];
    ScanAppend(env, Any, [a], b, slow);
    assert [a] + [b] == [a, b];
    ScanPrepend(env, Any, c, [a, b], slow);
    assert [c] + [a, b] == [c, a, b];
  }

  /** The scenario on an `UpdateOptimized`. */
  method UpdateOptimizedScenario(world: World, calls: Calls) returns (r: seq<string>)
    ensures r == ["A", "B"]
  {
    var slow, unit := [Entry("slow", Bool(true))], [Entry("type", Str("unit"))];
    RegistrationOrderAnswer(Env(world, calls));
    var repo := new UpdateOptimized<string>(Any, world);
    repo.Append("A", slow);
    repo.Append("B", []);
    repo.Prepend("C", unit);
    assert repo.itemsAndFilters == [("C", unit), ("A", slow), ("B", [])];
    r := repo.ItemsFor(calls, slow);
  }

  /** The same scenario on a `QueryOptimized`: the same answer. */
  method QueryOptimizedScenario(world: World, calls: Calls) returns (r: seq<string>)
    ensures r == ["A", "B"]
  {
    var slow, unit := [Entry("slow", Bool(true))], [Entry("type", Str("unit"))];
    RegistrationOrderAnswer(Env(world, calls));
    var repo := new QueryOptimized<string>(Any, world);
    repo.Append("A", slow);
    repo.Append("B", []);
    repo.Prepend("C", unit);
    assert repo.base.itemsAndFilters == [("C", unit), ("A", slow), ("B", [])];
    r := repo.ItemsFor(calls, slow);
  }
}
