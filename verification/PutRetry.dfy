/** VxDbSchema.Put: put every element, then retry those that failed until the errors stop getting fewer. */
module PutRetry {
  /** One element put into a database in some state, given the state that was read at the start of the round. */
  datatype Backend<!S> = Backend(attempt: (S, S, string) -> (S, bool))

  datatype PutResult<S> = PutResult(state: S, errs: seq<string>, rounds: nat)

  /** The keys one after the other: the final state, and the keys that failed. */
  function TryAll<S>(b: Backend<S>, read: S, s: S, keys: seq<string>): (r: (S, seq<string>))
    ensures |r.1| <= |keys|
  {
    if keys == [] then (s, [])
    else
      var (s1, errs) := TryAll(b, read, s, keys[..|keys| - 1]);
      var key := keys[|keys| - 1];
      var (s2, ok) := b.attempt(read, s1, key);
      (s2, if ok then errs else errs + [key])
  }

  function Filter(keys: seq<string>, p: string -> bool): (r: seq<string>)
    ensures |r| <= |keys|
  {
    if keys == [] then []
    else Filter(keys[..|keys| - 1], p) + if p(keys[|keys| - 1]) then [keys[|keys| - 1]] else []
  }

  /** Tables first, then the rest. */
  function Arranged(keys: seq<string>, isTable: string -> bool): seq<string> {
    Filter(keys, isTable) + Filter(keys, key => !isTable(key))
  }

  function OneRound<S>(b: Backend<S>, isTable: string -> bool, s: S, keys: seq<string>): (r: (S, seq<string>))
    ensures |r.1| <= |keys|
  {
    ArrangedLength(keys, isTable);
    TryAll(b, s, s, Arranged(keys, isTable))
  }

  /** The order in which the failed keys come back: anything that is a permutation. */
  ghost predicate Permutes(order: seq<string> -> seq<string>) {
    forall keys :: multiset(order(keys)) == multiset(keys)
  }

  /** All rounds.  Only the first may leave as many errors as it had keys and still be followed by another. */
  function PutAll<S>(b: Backend<S>, isTable: string -> bool, order: seq<string> -> seq<string>, noRetry: bool,
                     single: bool, first: bool, s: S, keys: seq<string>): PutResult<S>
    requires Permutes(order)
    decreases |keys|, first
  {
    var (s1, errs) := OneRound(b, isTable, s, keys);
    if noRetry || errs == [] || single || (!first && |errs| == |keys|) then PutResult(s1, errs, 1)
    else
      OrderLength(order, errs);
      var r := PutAll(b, isTable, order, noRetry, single, false, s1, order(errs));
      r.(rounds := r.rounds + 1)
  }

  lemma OrderLength(order: seq<string> -> seq<string>, keys: seq<string>)
    requires Permutes(order)
    ensures |order(keys)| == |keys|
  {
    assert |multiset(order(keys))| == |multiset(keys)|;
  }

  lemma {:induction false} ArrangedLength(keys: seq<string>, isTable: string -> bool)
    ensures |Arranged(keys, isTable)| == |keys|
  {
    if keys != [] {
      ArrangedLength(keys[..|keys| - 1], isTable);
    }
  }

  // ---------------------------------------------------------------- the methods

  class VxDbSchema<S(!new)> {
    var state: S
    const backend: Backend<S>
    const isTable: string -> bool
    const order: seq<string> -> seq<string>

    constructor (state: S, backend: Backend<S>, isTable: string -> bool, order: seq<string> -> seq<string>)
      ensures this.state == state && this.backend == backend && this.isTable == isTable && this.order == order
    {
      this.state, this.backend, this.isTable, this.order := state, backend, isTable, order;
    }

    method PutEach(read: S, keys: seq<string>) returns (errs: seq<string>)
      modifies this`state
      ensures (state, errs) == TryAll(backend, read, old(state), keys)
    {
      errs := [];
      ghost var was := state;
      for i := 0 to |keys|
        invariant (state, errs) == TryAll(backend, read, was, keys[..i])
      {
        assert keys[..i + 1][..i] == keys[..i];
        var (after, ok) := backend.attempt(read, state, keys[i]);
        state := after;
        if !ok {
          errs := errs + [keys[i]];
        }
      }
      assert keys[..|keys|] == keys;
    }

    method Split(keys: seq<string>) returns (tables: seq<string>, nontables: seq<string>)
      ensures tables + nontables == Arranged(keys, isTable)
    {
      tables, nontables := [], [];
      for i := 0 to |keys|
        invariant tables == Filter(keys[..i], isTable)
        invariant nontables == Filter(keys[..i], key => !isTable(key))
      {
        assert keys[..i + 1][..i] == keys[..i];
        if isTable(keys[i]) {
          tables := tables + [keys[i]];
        } else {
          nontables := nontables + [keys[i]];
        }
      }
      assert keys[..|keys|] == keys;
    }

    method Put(schema: seq<string>, noRetry: bool) returns (errs: seq<string>, ghost rounds: nat)
      requires Permutes(order)
      modifies this`state
      ensures PutResult(state, errs, rounds) ==
        PutAll(backend, isTable, order, noRetry, |schema| == 1, true, old(state), schema)
    {
      hide Arranged, TryAll, OneRound, Permutes, PutAll;
      var keys := schema;
      errs := [];
      var oldErrCount := -1;
      rounds := 0;
      ghost var total := PutAll(backend, isTable, order, noRetry, |schema| == 1, true, state, schema);
      ghost var rest := total;
      while |errs| != oldErrCount
        invariant Permutes(order) && oldErrCount >= -1
        invariant total == rest.(rounds := rest.rounds + rounds)
        invariant if oldErrCount == -1
          then errs == [] && rest == PutAll(backend, isTable, order, noRetry, |schema| == 1, true, state, keys)
          else |keys| == |errs| && rest == if |errs| == oldErrCount then PutResult(state, errs, 0)
                                           else PutAll(backend, isTable, order, noRetry, |schema| == 1, false, state,
                                                       keys)
        decreases |keys|, oldErrCount == -1, |errs| != oldErrCount
      {
        ghost var first := oldErrCount == -1;
        var was := state;  // Get(tables)
        oldErrCount := |errs|;
        var tables, nontables := Split(keys);
        var tableErrs := PutEach(was, tables);
        var otherErrs := PutEach(was, nontables);
        errs := tableErrs + otherErrs;
        TryBoth(backend, was, was, tables, nontables);
        RoundIs(backend, isTable, was, keys);
        PutStep(backend, isTable, order, noRetry, |schema| == 1, first, was, keys);
        rounds := rounds + 1;
        rest := rest.(rounds := rest.rounds - 1);
        if noRetry || |errs| == 0 || |schema| == 1 {
          break;
        }
        OrderLength(order, errs);
        keys := order(errs);
      }
    }
  }

  lemma RoundIs<S>(b: Backend<S>, isTable: string -> bool, s: S, keys: seq<string>)
    ensures OneRound(b, isTable, s, keys) == TryAll(b, s, s, Arranged(keys, isTable))
  {
  }

  lemma {:induction false} TryBoth<S>(b: Backend<S>, read: S, s: S, xs: seq<string>, ys: seq<string>)
    ensures var (s1, e1) := TryAll(b, read, s, xs); var (s2, e2) := TryAll(b, read, s1, ys);
      TryAll(b, read, s, xs + ys) == (s2, e1 + e2)
  {
    if ys == [] {
      assert xs + ys == xs && TryAll(b, read, s, xs).1 + [] == TryAll(b, read, s, xs).1;
    } else {
      assert (xs + ys)[..|xs + ys| - 1] == xs + ys[..|ys| - 1];
      TryBoth(b, read, s, xs, ys[..|ys| - 1]);
      var (s1, e1) := TryAll(b, read, s, xs);
      var (s2, e2) := TryAll(b, read, s1, ys[..|ys| - 1]);
      var key := ys[|ys| - 1];
      assert (xs + ys)[|xs + ys| - 1] == key && e1 + (e2 + [key]) == e1 + e2 + [key];
    }
  }

  lemma PutStep<S>(b: Backend<S>, isTable: string -> bool, order: seq<string> -> seq<string>, noRetry: bool,
                   single: bool, first: bool, s: S, keys: seq<string>)
    requires Permutes(order)
    ensures var (s1, errs) := OneRound(b, isTable, s, keys);
      && |errs| <= |keys|
      && PutAll(b, isTable, order, noRetry, single, first, s, keys) ==
         if noRetry || errs == [] || single || (!first && |errs| == |keys|) then PutResult(s1, errs, 1)
         else var r := PutAll(b, isTable, order, noRetry, single, false, s1, order(errs)); r.(rounds := r.rounds + 1)
  {
  }

  // ---------------------------------------------------------------- how long it takes

  /** At most one round more than there are elements. */
  lemma {:induction false} RoundsBound<S>(b: Backend<S>, isTable: string -> bool, order: seq<string> -> seq<string>,
        noRetry: bool,
                                          single: bool, first: bool, s: S, keys: seq<string>)
    requires Permutes(order) && (first || keys != [])
    ensures PutAll(b, isTable, order, noRetry, single, first, s, keys).rounds <= |keys| + if first then 1 else 0
    decreases |keys|, first
  {
    hide *;
    PutStep(b, isTable, order, noRetry, single, first, s, keys);
    var (s1, errs) := OneRound(b, isTable, s, keys);
    if !(noRetry || errs == [] || single || (!first && |errs| == |keys|)) {
      OrderLength(order, errs);
      RoundsBound(b, isTable, order, noRetry, single, false, s1, order(errs));
    }
  }

  // ---------------------------------------------------------------- which keys fail

  /** The errors of a pass are among the keys it tried, whatever the database does. */
  lemma {:induction false} ErrorsTried<S>(b: Backend<S>, read: S, s: S, keys: seq<string>)
    ensures forall k :: k in TryAll(b, read, s, keys).1 ==> k in keys
  {
    if keys != [] {
      ErrorsTried(b, read, s, keys[..|keys| - 1]);
      assert keys == keys[..|keys| - 1] + [keys[|keys| - 1]];
    }
  }

  lemma {:induction false} PutErrorsTried<S>(b: Backend<S>, isTable: string -> bool,
        order: seq<string> -> seq<string>, noRetry: bool,
                                             single: bool, first: bool, s: S, keys: seq<string>)
    requires Permutes(order)
    ensures forall k :: k in PutAll(b, isTable, order, noRetry, single, first, s, keys).errs ==> k in keys
    decreases |keys|, first
  {
    hide TryAll, PutAll, Arranged, Permutes;
    PutStep(b, isTable, order, noRetry, single, first, s, keys);
    ErrorsTried(b, s, s, Arranged(keys, isTable));
    ArrangedMember(keys, isTable);
    var (s1, errs) := OneRound(b, isTable, s, keys);
    if !(noRetry || errs == [] || single || (!first && |errs| == |keys|)) {
      OrderLength(order, errs);
      OrderMember(order, errs);
      PutErrorsTried(b, isTable, order, noRetry, single, false, s1, order(errs));
    }
  }

  lemma OrderMember(order: seq<string> -> seq<string>, keys: seq<string>)
    requires Permutes(order)
    ensures forall k :: k in order(keys) <==> k in keys
  {
    forall k ensures k in order(keys) <==> k in keys {
      assert k in multiset(order(keys)) <==> k in multiset(keys);
    }
  }

  lemma ArrangedMember(keys: seq<string>, isTable: string -> bool)
    ensures forall k :: k in Arranged(keys, isTable) <==> k in keys
  {
    FilterMember(keys, isTable);
    FilterMember(keys, key => !isTable(key));
  }

  lemma {:induction false} FilterMember(keys: seq<string>, p: string -> bool)
    ensures forall k :: k in Filter(keys, p) <==> k in keys && p(k)
  {
    if keys != [] {
      FilterMember(keys[..|keys| - 1], p);
      assert keys == keys[..|keys| - 1] + [keys[|keys| - 1]];
    }
  }

  lemma {:induction false} FilterDistinct(keys: seq<string>, p: string -> bool)
    requires Distinct(keys)
    ensures Distinct(Filter(keys, p))
  {
    if keys != [] {
      var init := keys[..|keys| - 1];
      FilterDistinct(init, p);
      FilterMember(init, p);
    }
  }

  lemma ArrangedSame(keys: seq<string>, isTable: string -> bool)
    requires Distinct(keys)
    ensures Distinct(Arranged(keys, isTable)) && forall k :: k in Arranged(keys, isTable) <==> k in keys
  {
    FilterDistinct(keys, isTable);
    FilterDistinct(keys, key => !isTable(key));
    FilterMember(keys, isTable);
    FilterMember(keys, key => !isTable(key));
    hide Filter;
    var a, b := Filter(keys, isTable), Filter(keys, key => !isTable(key));
    forall i, j | 0 <= i < j < |a + b| ensures (a + b)[i] != (a + b)[j] {
      if i < |a| <= j {
        assert a[i] in a && b[j - |a|] in b;
      }
    }
  }

  predicate Distinct(keys: seq<string>) {
    forall i, j :: 0 <= i < j < |keys| ==> keys[i] != keys[j]
  }

  /** A put works exactly when what the element depends on is there.  It adds the element; a failed one may have lost
      it, if it is of a kind that can be lost. */
  ghost predicate Depends<S(!new)>(b: Backend<S>, present: S -> set<string>, deps: string -> set<string>,
                                   lossy: string -> bool) {
    forall read, s, key :: Lawful(present, deps, lossy, s, key, b.attempt(read, s, key))
  }

  ghost predicate Lawful<S>(present: S -> set<string>, deps: string -> set<string>, lossy: string -> bool, s: S,
                            key: string, r: (S, bool)) {
    && (r.1 <==> deps(key) <= present(s))
    && (if r.1 then present(r.0) == present(s) + {key}
        else present(s) - {key} <= present(r.0) <= present(s) && (!lossy(key) ==> present(r.0) == present(s)))
  }

  /** What one pass over distinct keys does: the errors are some of its keys, the others are there now, whatever was not
      tried is as before, and what cannot be lost stays. */
  lemma {:induction false} PassFacts<S(!new)>(b: Backend<S>, present: S -> set<string>, deps: string -> set<string>,
                                              lossy: string -> bool, read: S, s: S, keys: seq<string>)
    requires Depends(b, present, deps, lossy) && Distinct(keys)
    ensures var (s1, errs) := TryAll(b, read, s, keys);
      && Distinct(errs) && (forall k :: k in errs ==> k in keys)
      && (forall k :: k in keys && k !in errs ==> k in present(s1))
      && (forall k :: k !in keys ==> (k in present(s1) <==> k in present(s)))
      && (forall k :: k in present(s) && !lossy(k) ==> k in present(s1))
  {
    if keys != [] {
      var init, key := keys[..|keys| - 1], keys[|keys| - 1];
      PassFacts(b, present, deps, lossy, read, s, init);
      var (s1, errs) := TryAll(b, read, s, init);
      assert Lawful(present, deps, lossy, s1, key, b.attempt(read, s1, key));
      assert keys == init + [key] && key !in init;
    }
  }

  /** A key does not fail whose dependencies are there and are not themselves being put, or at least cannot be lost. */
  lemma {:induction false} ReadyWorks<S(!new)>(b: Backend<S>, present: S -> set<string>, deps: string -> set<string>,
                                               lossy: string -> bool, read: S, s: S, keys: seq<string>, key: string)
    requires Depends(b, present, deps, lossy) && Distinct(keys) && key in keys
    requires forall d :: d in deps(key) ==> d in present(s) && (d !in keys || !lossy(d))
    ensures key !in TryAll(b, read, s, keys).1
  {
    var init, last := keys[..|keys| - 1], keys[|keys| - 1];
    assert keys == init + [last] && last !in init;
    PassFacts(b, present, deps, lossy, read, s, init);
    var (s1, errs) := TryAll(b, read, s, init);
    assert Lawful(present, deps, lossy, s1, last, b.attempt(read, s1, last));
    if key != last {
      ReadyWorks(b, present, deps, lossy, read, s, init, key);
    }
  }

  /** Where everything that is there is in base or in a closed set, a pass brings in nothing else, and all keys that are
      not in the closed set fail. */
  lemma {:induction false} PassWithin<S(!new)>(b: Backend<S>, present: S -> set<string>, deps: string -> set<string>,
                                               lossy: string -> bool, read: S, s: S, keys: seq<string>,
                                               schema: set<string>, base: set<string>, r: set<string>)
    requires Depends(b, present, deps, lossy) && Closed(deps, schema, base, r)
    requires (forall k :: k in keys ==> k in schema) && present(s) <= base + r
    ensures var (s1, errs) := TryAll(b, read, s, keys);
      present(s1) <= base + r && forall k :: k in keys && k !in r ==> k in errs
  {
    if keys != [] {
      var init, key := keys[..|keys| - 1], keys[|keys| - 1];
      assert keys == init + [key];
      PassWithin(b, present, deps, lossy, read, s, init, schema, base, r);
      var (s1, errs) := TryAll(b, read, s, init);
      assert Lawful(present, deps, lossy, s1, key, b.attempt(read, s1, key));
    }
  }

  lemma Twice(keys: seq<string>, i: nat, j: nat)
    requires i < j < |keys| && keys[i] == keys[j]
    ensures multiset(keys)[keys[i]] >= 2
  {
    assert keys == keys[..i] + [keys[i]] + keys[i + 1..j] + [keys[j]] + keys[j + 1..];
  }

  lemma OrderSame(order: seq<string> -> seq<string>, keys: seq<string>)
    requires Permutes(order) && Distinct(keys)
    ensures Distinct(order(keys)) && forall k :: k in order(keys) <==> k in keys
  {
    var o := order(keys);
    OrderMember(order, keys);
    OnceEach(keys);
    forall i, j | 0 <= i < j < |o| ensures o[i] != o[j] {
      if o[i] == o[j] {
        Twice(o, i, j);
        assert false;
      }
    }
  }

  lemma {:induction false} OnceEach(keys: seq<string>)
    requires Distinct(keys)
    ensures forall k :: multiset(keys)[k] <= 1
  {
    if keys != [] {
      OnceEach(keys[1..]);
      assert keys == [keys[0]] + keys[1..];
    }
  }

  lemma {:induction false} SetSize(keys: seq<string>)
    requires Distinct(keys)
    ensures |KeySet(keys)| == |keys|
  {
    if keys != [] {
      SetSize(keys[1..]);
      assert KeySet(keys) == KeySet(keys[1..]) + {keys[0]};
    }
  }

  /** As many distinct keys out of distinct keys are all of them. */
  lemma AllOfThem(errs: seq<string>, keys: seq<string>)
    requires Distinct(errs) && Distinct(keys) && |errs| == |keys| && forall k :: k in errs ==> k in keys
    ensures KeySet(errs) == KeySet(keys)
  {
    SetSize(errs);
    SetSize(keys);
    SameSize(KeySet(errs), KeySet(keys));
  }

  lemma SameSize(a: set<string>, b: set<string>)
    requires a <= b && |a| == |b|
    ensures a == b
  {
    assert b == a + (b - a);
  }

  function KeySet(keys: seq<string>): set<string> {
    set k | k in keys
  }

  // ---------------------------------------------------------------- what can be built

  /** A set that has every element of the schema whose dependencies are in it or in base. */
  ghost predicate Closed(deps: string -> set<string>, schema: set<string>, base: set<string>, r: set<string>) {
    forall k :: k in schema && deps(k) <= base + r ==> k in r
  }

  /** The element can be built on base, step by step: it is in the least closed set. */
  ghost predicate Buildable(deps: string -> set<string>, schema: set<string>, base: set<string>, key: string) {
    forall r: set<string> :: Closed(deps, schema, base, r) ==> key in r
  }

  /** An element can be built exactly if everything it depends on is in base or can itself be built. */
  lemma BuildableStep(deps: string -> set<string>, schema: set<string>, base: set<string>, key: string)
    ensures Buildable(deps, schema, base, key) <==>
      key in schema && forall d :: d in deps(key) ==> d in base || Buildable(deps, schema, base, d)
  {
    var all := set k | k in schema && forall d :: d in deps(k) ==> d in base || Buildable(deps, schema, base, d);
    assert Closed(deps, schema, base, all) by {
      forall k | k in schema && deps(k) <= base + all ensures k in all {
        forall d | d in deps(k) ensures d in base || Buildable(deps, schema, base, d) {
          if d in all {
            BuiltBelow(deps, schema, base, d);
          }
        }
      }
    }
    if key in all {
      BuiltBelow(deps, schema, base, key);
    }
  }

  lemma BuiltBelow(deps: string -> set<string>, schema: set<string>, base: set<string>, key: string)
    requires key in schema && forall d :: d in deps(key) ==> d in base || Buildable(deps, schema, base, d)
    ensures Buildable(deps, schema, base, key)
  {
  }

  /** Where dependencies have no cycle and lead to nothing missing outside the schema, all of it can be built. */
  lemma {:induction false} AllBuildable(deps: string -> set<string>, rank: string -> nat, schema: set<string>,
                                        base: set<string>, key: string)
    requires forall k, d :: k in schema && d in deps(k) ==> d in base || (d in schema && rank(d) < rank(k))
    requires key in schema
    ensures Buildable(deps, schema, base, key)
    decreases rank(key)
  {
    forall d | d in deps(key) && d !in base ensures Buildable(deps, schema, base, d) {
      AllBuildable(deps, rank, schema, base, d);
    }
    BuildableStep(deps, schema, base, key);
  }

  /** Elements each of which needs another of them that is not in base cannot be built. */
  lemma CycleNotBuildable(deps: string -> set<string>, schema: set<string>, base: set<string>, cycle: set<string>)
    requires cycle !! base && forall k :: k in cycle ==> deps(k) * cycle != {}
    ensures Closed(deps, schema, base, schema - cycle)
    ensures forall k :: k in cycle ==> !Buildable(deps, schema, base, k)
  {
    forall k | k in schema && k in cycle ensures !(deps(k) <= base + (schema - cycle)) {
      var d :| d in deps(k) * cycle;
      assert d !in base + (schema - cycle);
    }
  }

  // ---------------------------------------------------------------- the errors at the end

  /** What a put that failed cannot take away: what is not in the schema, and what cannot be lost. */
  function Secure(held: set<string>, schema: set<string>, lossy: string -> bool): set<string> {
    set k | k in held && (k !in schema || !lossy(k))
  }

  /** In the middle of a put: the keys are distinct elements of the schema, the others are there, and so is what is
      secure. */
  ghost predicate Going<S>(present: S -> set<string>, lossy: string -> bool, schema: set<string>, secure: set<string>,
                           s: S, keys: seq<string>) {
    && Distinct(keys) && (forall k :: k in keys ==> k in schema)
    && (forall k :: k in schema && k !in keys ==> k in present(s))
    && secure <= present(s) && (forall k :: k in secure ==> k !in schema || !lossy(k))
  }

  lemma RoundFacts<S(!new)>(b: Backend<S>, isTable: string -> bool, present: S -> set<string>,
                            deps: string -> set<string>, lossy: string -> bool, schema: set<string>,
                            secure: set<string>, s: S, keys: seq<string>)
    requires Depends(b, present, deps, lossy) && Going(present, lossy, schema, secure, s, keys)
    ensures var (s1, errs) := OneRound(b, isTable, s, keys);
      && Going(present, lossy, schema, secure, s1, errs) && (forall k :: k in errs ==> k in keys)
      && (forall k :: k !in schema ==> (k in present(s1) <==> k in present(s)))
  {
    hide Depends, TryAll, Arranged;
    ArrangedSame(keys, isTable);
    PassFacts(b, present, deps, lossy, s, s, Arranged(keys, isTable));
    RoundIs(b, isTable, s, keys);
  }

  /** If all keys of a round fail, none of them was ready. */
  lemma NoneReady<S(!new)>(b: Backend<S>, isTable: string -> bool, present: S -> set<string>,
                           deps: string -> set<string>, lossy: string -> bool, schema: set<string>,
                           secure: set<string>, s: S, keys: seq<string>)
    requires Depends(b, present, deps, lossy) && Going(present, lossy, schema, secure, s, keys)
    requires KeySet(OneRound(b, isTable, s, keys).1) == KeySet(keys)
    ensures Closed(deps, schema, secure, schema - KeySet(keys))
  {
    hide Depends, TryAll, Arranged;
    var all, errs := Arranged(keys, isTable), OneRound(b, isTable, s, keys).1;
    ArrangedSame(keys, isTable);
    RoundIs(b, isTable, s, keys);
    forall k | k in schema && deps(k) <= secure + (schema - KeySet(keys)) ensures k !in keys {
      if k in keys {
        assert k in KeySet(errs);
        ReadyWorks(b, present, deps, lossy, s, s, all, k);
      }
    }
  }

  lemma GoingOn<S>(present: S -> set<string>, lossy: string -> bool, schema: set<string>, secure: set<string>, s: S,
                   errs: seq<string>, order: seq<string> -> seq<string>)
    requires Permutes(order) && Going(present, lossy, schema, secure, s, errs)
    ensures Going(present, lossy, schema, secure, s, order(errs)) && KeySet(order(errs)) == KeySet(errs)
  {
    OrderSame(order, errs);
  }

  lemma GoingKeys<S>(present: S -> set<string>, lossy: string -> bool, schema: set<string>, secure: set<string>, s: S,
                     keys: seq<string>)
    requires Going(present, lossy, schema, secure, s, keys)
    ensures Distinct(keys) && forall k :: k in keys ==> k in schema
  {
  }

  lemma OneOfOne(schema: set<string>, errs: seq<string>, keys: seq<string>)
    requires |schema| == 1 && Distinct(keys) && (forall k :: k in keys ==> k in schema)
    requires errs != [] && forall k :: k in errs ==> k in keys
    ensures KeySet(errs) == KeySet(keys)
  {
    assert errs[0] in schema;
    SameSize({errs[0]}, schema);
  }

  /** The errors that are left are of elements that were not ready: the others make a closed set, and are all there. */
  lemma {:induction false} ErrorsNotReady<S(!new)>(
      b: Backend<S>, isTable: string -> bool, order: seq<string> -> seq<string>, present: S -> set<string>,
      deps: string -> set<string>, lossy: string -> bool, schema: set<string>, secure: set<string>, first: bool, s: S,
      keys: seq<string>)
    requires Permutes(order) && Depends(b, present, deps, lossy) && Going(present, lossy, schema, secure, s, keys)
    ensures var r := PutAll(b, isTable, order, false, |schema| == 1, first, s, keys);
      && Going(present, lossy, schema, secure, r.state, r.errs)
      && Closed(deps, schema, secure, schema - KeySet(r.errs))
      && (forall k :: k !in schema ==> (k in present(r.state) <==> k in present(s)))
    decreases |keys|, first
  {
    hide Depends, PutAll, OneRound, Going, Permutes, Distinct;
    PutStep(b, isTable, order, false, |schema| == 1, first, s, keys);
    RoundFacts(b, isTable, present, deps, lossy, schema, secure, s, keys);
    var (s1, errs) := OneRound(b, isTable, s, keys);
    GoingKeys(present, lossy, schema, secure, s, keys);
    GoingKeys(present, lossy, schema, secure, s1, errs);
    if errs == [] {
    } else if |schema| == 1 || (!first && |errs| == |keys|) {
      if |schema| == 1 {
        OneOfOne(schema, errs, keys);
      } else {
        AllOfThem(errs, keys);
      }
      NoneReady(b, isTable, present, deps, lossy, schema, secure, s, keys);
    } else {
      OrderLength(order, errs);
      GoingOn(present, lossy, schema, secure, s1, errs, order);
      ErrorsNotReady(b, isTable, order, present, deps, lossy, schema, secure, false, s1, order(errs));
    }
  }

  /** Whatever cannot be built on what is there at first fails to the end. */
  lemma {:induction false} OnlyBuilt<S(!new)>(
      b: Backend<S>, isTable: string -> bool, order: seq<string> -> seq<string>, present: S -> set<string>,
      deps: string -> set<string>, lossy: string -> bool, noRetry: bool, single: bool, first: bool, s: S,
      keys: seq<string>, schema: set<string>, base: set<string>, r: set<string>)
    requires Permutes(order) && Depends(b, present, deps, lossy) && Closed(deps, schema, base, r)
    requires (forall k :: k in keys ==> k in schema) && present(s) <= base + r
    ensures forall k :: k in keys && k !in r ==> k in PutAll(b, isTable, order, noRetry, single, first, s, keys).errs
    decreases |keys|, first
  {
    hide Depends, TryAll, Arranged, PutAll, OneRound, Permutes, Closed;
    PutStep(b, isTable, order, noRetry, single, first, s, keys);
    ArrangedMember(keys, isTable);
    RoundIs(b, isTable, s, keys);
    PassWithin(b, present, deps, lossy, s, s, Arranged(keys, isTable), schema, base, r);
    ErrorsTried(b, s, s, Arranged(keys, isTable));
    var (s1, errs) := OneRound(b, isTable, s, keys);
    if !(noRetry || errs == [] || single || (!first && |errs| == |keys|)) {
      OrderLength(order, errs);
      OrderMember(order, errs);
      OnlyBuilt(b, isTable, order, present, deps, lossy, noRetry, single, false, s1, order(errs), schema, base, r);
    }
  }

  /** Which keys are the errors at the end, for any dependencies and whatever order they come in: none that can be built
      on what is secure, and all that cannot be built on what is there at first.  That settles every key if nothing is
      there at first that a failed put can lose. */
  lemma FinalErrors<S(!new)>(b: Backend<S>, isTable: string -> bool, order: seq<string> -> seq<string>,
                             present: S -> set<string>, deps: string -> set<string>, lossy: string -> bool, s: S,
                             keys: seq<string>, key: string)
    requires Permutes(order) && Depends(b, present, deps, lossy) && Distinct(keys) && key in keys
    ensures var r := PutAll(b, isTable, order, false, |keys| == 1, true, s, keys);
      var schema := KeySet(keys);
      && (key !in r.errs ==> key in present(r.state))
      && (Buildable(deps, schema, Secure(present(s), schema, lossy), key) ==> key !in r.errs)
      && (!Buildable(deps, schema, present(s), key) ==> key in r.errs)
      && ((forall k :: k in schema && lossy(k) ==> k !in present(s)) ==>
          (key in r.errs <==> !Buildable(deps, schema, present(s), key)))
  {
    hide Depends, PutAll, Permutes, Closed, Distinct;
    var schema := KeySet(keys);
    var secure := Secure(present(s), schema, lossy);
    SetSize(keys);
    ErrorsNotReady(b, isTable, order, present, deps, lossy, schema, secure, true, s, keys);
    if !Buildable(deps, schema, present(s), key) {
      var r: set<string> :| Closed(deps, schema, present(s), r) && key !in r;
      OnlyBuilt(b, isTable, order, present, deps, lossy, false, |keys| == 1, true, s, keys, schema, present(s), r);
    }
    if forall k :: k in schema && lossy(k) ==> k !in present(s) {
      assert secure == present(s);
    }
  }

  /** If dependencies have no cycle and lead to nothing missing outside the schema, putting with retries ends with no
      errors, in whatever order the keys come, with every element there. */
  lemma Converges<S(!new)>(b: Backend<S>, isTable: string -> bool, order: seq<string> -> seq<string>,
                           present: S -> set<string>, deps: string -> set<string>, lossy: string -> bool,
                           rank: string -> nat, s: S, keys: seq<string>)
    requires Permutes(order) && Depends(b, present, deps, lossy) && Distinct(keys)
    requires forall k, d :: k in keys && d in deps(k) ==> if d in keys then rank(d) < rank(k) else d in present(s)
    ensures var r := PutAll(b, isTable, order, false, |keys| == 1, true, s, keys);
      r.errs == [] && KeySet(keys) <= present(r.state)
  {
    hide Depends, PutAll, Permutes, Distinct, Buildable;
    var schema := KeySet(keys);
    forall k | k in keys
      ensures var r := PutAll(b, isTable, order, false, |keys| == 1, true, s, keys);
        k !in r.errs && k in present(r.state)
    {
      AllBuildable(deps, rank, schema, Secure(present(s), schema, lossy), k);
      FinalErrors(b, isTable, order, present, deps, lossy, s, keys, k);
    }
    PutErrorsTried(b, isTable, order, false, |keys| == 1, true, s, keys);
    NoMember(PutAll(b, isTable, order, false, |keys| == 1, true, s, keys).errs);
  }

  lemma NoMember(errs: seq<string>)
    ensures errs == [] || exists k :: k in errs
  {
    if errs != [] {
      assert errs[0] in errs;
    }
  }

  /** Missing elements that each need another of them, as in a cycle, are all among the errors at the end, also without
      retries. */
  lemma CycleFails<S(!new)>(b: Backend<S>, isTable: string -> bool, order: seq<string> -> seq<string>,
                            present: S -> set<string>, deps: string -> set<string>, lossy: string -> bool,
                            noRetry: bool, single: bool, s: S, keys: seq<string>, cycle: set<string>)
    requires Permutes(order) && Depends(b, present, deps, lossy)
    requires cycle <= KeySet(keys) && cycle !! present(s) && forall k :: k in cycle ==> deps(k) * cycle != {}
    ensures forall k :: k in cycle ==> k in PutAll(b, isTable, order, noRetry, single, true, s, keys).errs
  {
    hide Depends, PutAll, Permutes, Closed;
    var schema := KeySet(keys);
    CycleNotBuildable(deps, schema, present(s), cycle);
    OnlyBuilt(b, isTable, order, present, deps, lossy, noRetry, single, true, s, keys, schema, present(s),
      schema - cycle);
  }
}
