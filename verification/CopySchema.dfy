/** Making one schema store look like another, touching only what their checksums say is different. */
module CopySchema {
  type Sums = map<string, seq<nat>>

  /** What a store holds under a key. */
  datatype Item = Item(text: string, sums: seq<nat>)

  datatype DiffType = Add | Remove | Change

  type Errors = map<string, string>

  /** How an operation on one key ends; a failed one may or may not have lost the old element. */
  datatype Fate = Done | Kept(msg: string) | Lost(msg: string)

  function SumsOf(items: map<string, Item>): Sums {
    map k | k in items :: items[k].sums
  }

  function TextsOf(items: map<string, Item>): map<string, string> {
    map k | k in items :: items[k].text
  }

  predicate Differs(k: string, src: Sums, goal: Sums) {
    (k in src || k in goal) && !(k in src && k in goal && src[k] == goal[k])
  }

  function Kind(k: string, src: Sums, goal: Sums): DiffType {
    if k !in src then Add else if k !in goal then Remove else Change
  }

  function DiffOf(src: Sums, goal: Sums): map<string, DiffType> {
    map k | k in src.Keys + goal.Keys && Differs(k, src, goal) :: Kind(k, src, goal)
  }

  ghost predicate DiffExcept(diff: map<string, DiffType>, keys: set<string>, src: Sums, goal: Sums) {
    && (forall k :: k in diff <==> k !in keys && Differs(k, src, goal))
    && (forall k :: k in diff ==> diff[k] == Kind(k, src, goal))
  }

  lemma DiffStep(diff: map<string, DiffType>, keys: set<string>, key: string, src: Sums, goal: Sums)
    requires DiffExcept(diff, keys, src, goal) && key in keys
    ensures DiffExcept(if Differs(key, src, goal) then diff[key := Kind(key, src, goal)]
      else diff, keys - {key}, src, goal)
  {
    hide Differs, Kind;
  }

  lemma DiffEnds(src: Sums, goal: Sums)
    ensures DiffExcept(map[], src.Keys + goal.Keys, src, goal)
    ensures forall diff :: DiffExcept(diff, {}, src, goal) ==> diff == DiffOf(src, goal)
  {
  }

  /** The constructor of VxSchemaDiff. */
  method VxSchemaDiff(srcsums: Sums, goalsums: Sums) returns (diff: map<string, DiffType>)
    ensures diff == DiffOf(srcsums, goalsums)
  {
    hide DiffExcept, DiffOf;
    diff := map[];
    var keys := srcsums.Keys + goalsums.Keys;
    DiffEnds(srcsums, goalsums);
    while keys != {}
      invariant keys <= srcsums.Keys + goalsums.Keys
      invariant DiffExcept(diff, keys, srcsums, goalsums)
      decreases |keys|
    {
      var key :| key in keys;
      DiffStep(diff, keys, key, srcsums, goalsums);
      keys := keys - {key};
      if key !in srcsums {
        diff := diff[key := Add];
      } else if key !in goalsums {
        diff := diff[key := Remove];
      } else if srcsums[key] != goalsums[key] {
        diff := diff[key := Change];
      }
    }
  }

  function KeySet(keys: seq<string>): set<string> {
    set k | k in keys
  }

  /** The items after keys were dropped, some of them with errors. */
  ghost predicate Dropped(was: map<string, Item>, now: map<string, Item>, keys: set<string>, errs: Errors) {
    && errs.Keys <= keys
    && (forall k :: k in now ==> k in was && now[k] == was[k])
    && (forall k :: k in was && k !in keys ==> k in now)
    && (forall k :: k in keys && k !in errs ==> k !in now)
  }

  /** The items after keys were put, some of them with errors. */
  ghost predicate PutInto(was: map<string, Item>, now: map<string, Item>, keys: set<string>, errs: Errors,
                      schema: map<string, string>, sums: Sums)
    requires keys <= schema.Keys <= sums.Keys
  {
    && errs.Keys <= keys
    && (forall k :: k !in keys ==> (k in now <==> k in was) && (k in now ==> now[k] == was[k]))
    && (forall k :: k in keys && k !in errs ==>
      if schema[k] == "" then k !in now else k in now && now[k] == Item(schema[k], sums[k]))
  }

  /** A schema store.  Which operations fail is arbitrary; an operation on a key changes nothing but that key. */
  class Backend {
    var items: map<string, Item>
    var clock: nat
    const fate: (nat, string) -> Fate
    ghost var dropped: set<string>  // every key ever dropped
    ghost var put: set<string>      // every key ever put

    constructor (items: map<string, Item>, fate: (nat, string) -> Fate)
      ensures this.items == items && dropped == {} && put == {}
    {
      this.items, this.clock, this.fate, this.dropped, this.put := items, 0, fate, {}, {};
    }

    /** An operation on the key failed with that message. */
    ghost predicate Failed(key: string, msg: string) {
      exists n :: fate(n, key) in {Kept(msg), Lost(msg)}
    }

    /** Every error is that of an operation on its key. */
    ghost predicate Reported(errs: Errors) {
      forall k :: k in errs ==> Failed(k, errs[k])
    }

    method GetChecksums() returns (sums: Sums)
      ensures sums == SumsOf(items)
    {
      sums := SumsOf(items);
    }

    /** The listed elements; but for an empty list, everything. */
    method Get(keys: seq<string>) returns (schema: map<string, string>)
      ensures schema == if keys == [] then TextsOf(items) else map k | k in items && k in keys :: items[k].text
    {
      schema := if keys == [] then TextsOf(items) else map k | k in items && k in keys :: items[k].text;
    }

    method DropOne(key: string) returns (err: Fate)
      modifies this
      ensures dropped == old(dropped) + {key} && put == old(put)
      ensures err == fate(old(clock), key) && clock == old(clock) + 1
      ensures items == if err.Kept? then old(items) else old(items) - {key}
    {
      dropped := dropped + {key};
      err := fate(clock, key);
      clock := clock + 1;
      if !err.Kept? {
        items := items - {key};
      }
    }

    method DropSchema(keys: seq<string>) returns (errs: Errors)
      modifies this
      ensures dropped == old(dropped) + KeySet(keys) && put == old(put)
      ensures Reported(errs) && clock == old(clock) + |keys|
      ensures forall i :: 0 <= i < |keys| && !fate(old(clock) + i, keys[i]).Done? ==> keys[i] in errs
      ensures Dropped(old(items), items, KeySet(keys), errs)
    {
      hide Dropped, Reported, KeySet;
      errs := map[];
      NoError(this);
      NoKeys(keys);
      NothingDropped(items);
      for i := 0 to |keys|
        invariant dropped == old(dropped) + KeySet(keys[..i]) && put == old(put)
        invariant Reported(errs) && clock == old(clock) + i
        invariant forall j :: 0 <= j < i && !fate(old(clock) + j, keys[j]).Done? ==> keys[j] in errs
        invariant Dropped(old(items), items, KeySet(keys[..i]), errs)
      {
        var key := keys[i];
        OneMoreKey(keys, i);
        ghost var before, failed := items, errs;
        var err := DropOne(key);
        if !err.Done? {
          errs := errs[key := err.msg];
          OneMoreError(this, failed, key, err, old(clock) + i);
        }
        DropStep(old(items), before, items, KeySet(keys[..i]), key, failed, errs);
      }
    }

    method PutOne(key: string, text: string, sums: seq<nat>) returns (err: Fate)
      modifies this
      ensures put == old(put) + {key} && dropped == old(dropped)
      ensures err == fate(old(clock), key) && (err.Kept? ==> items == old(items))
      ensures items - {key} == old(items) - {key}
      ensures err.Done? ==> if text == "" then key !in items else key in items && items[key] == Item(text, sums)
    {
      put := put + {key};
      err := fate(clock, key);
      clock := clock + 1;
      if err.Done? && text != "" {
        items := items[key := Item(text, sums)];
      } else if !err.Kept? {
        items := items - {key};
      }
    }

    method Put(schema: map<string, string>, sums: Sums) returns (errs: Errors)
      requires schema.Keys <= sums.Keys
      modifies this
      ensures put == old(put) + schema.Keys && dropped == old(dropped)
      ensures Reported(errs)
      ensures PutInto(old(items), items, schema.Keys, errs, schema, sums)
    {
      hide Reported;
      errs := map[];
      NoError(this);
      var todo := schema.Keys;
      while todo != {}
        invariant todo <= schema.Keys
        invariant put == old(put) + (schema.Keys - todo) && dropped == old(dropped)
        invariant Reported(errs)
        invariant PutInto(old(items), items, schema.Keys - todo, errs, schema, sums)
        decreases |todo|
      {
        var key :| key in todo;
        ghost var before, done := items, schema.Keys - todo;
        todo := todo - {key};
        assert schema.Keys - todo == done + {key};
        ghost var now := clock;
        var err := PutOne(key, schema[key], sums[key]);
        PutStep(old(items), before, items, done, key, errs, err, schema, sums);
        if !err.Done? {
          OneMoreError(this, errs, key, err, now);
          errs := errs[key := err.msg];
        }
      }
      assert schema.Keys - todo == schema.Keys;
    }
  }

  lemma NoKeys(keys: seq<string>)
    ensures KeySet(keys[..0]) == {} && keys[..|keys|] == keys
  {
  }

  lemma OneMoreKey(keys: seq<string>, i: nat)
    requires i < |keys|
    ensures KeySet(keys[..i + 1]) == KeySet(keys[..i]) + {keys[i]}
  {
    assert keys[..i + 1] == keys[..i] + [keys[i]];
  }

  lemma NoError(b: Backend)
    ensures b.Reported(map[])
  {
  }

  lemma OneMoreError(b: Backend, errs: Errors, key: string, err: Fate, n: nat)
    requires b.Reported(errs) && !err.Done? && err == b.fate(n, key)
    ensures b.Reported(errs[key := err.msg])
  {
    assert b.fate(n, key) in {Kept(err.msg), Lost(err.msg)};
  }

  lemma BothReported(b: Backend, dropErrs: Errors, putErrs: Errors)
    requires b.Reported(dropErrs) && b.Reported(putErrs)
    ensures b.Reported(putErrs + dropErrs)
  {
    hide Backend.Failed;
  }

  lemma NothingDropped(items: map<string, Item>)
    ensures Dropped(items, items, {}, map[])
  {
  }

  lemma DropStep(was: map<string, Item>, before: map<string, Item>, now: map<string, Item>, done: set<string>,
                 key: string, errs: Errors, errs': Errors)
    requires Dropped(was, before, done, errs)
    requires errs' == errs || (key in errs' && errs' == errs[key := errs'[key]])
    requires now == before - {key} || (now == before && key in errs')
    ensures Dropped(was, now, done + {key}, errs')
  {
  }

  lemma PutStep(was: map<string, Item>, before: map<string, Item>, now: map<string, Item>, done: set<string>,
        key: string,
                errs: Errors, err: Fate, schema: map<string, string>, sums: Sums)
    requires key in schema && key !in done && done <= schema.Keys <= sums.Keys
    requires PutInto(was, before, done, errs, schema, sums) && now - {key} == before - {key}
    requires err.Done? ==>
      if schema[key] == "" then key !in now else key in now && now[key] == Item(schema[key], sums[key])
    ensures PutInto(was, now, done + {key}, if err.Done? then errs else errs[key := err.msg], schema, sums)
  {
    forall k | k != key ensures (k in now <==> k in before) && (k in now ==> now[k] == before[k]) {
      assert k in now <==> k in now - {key};
      assert k in before <==> k in before - {key};
      assert k in now ==> now[k] == (now - {key})[k];
    }
  }

  // ---------------------------------------------------------------- CopySchema

  /** The keys to drop and those to put. */
  method ParseDiff(diff: map<string, DiffType>) returns (toDrop: seq<string>, names: seq<string>)
    ensures forall k :: k in toDrop <==> k in diff && diff[k] == Remove
    ensures forall k :: k in names <==> k in diff && diff[k] != Remove
  {
    toDrop, names := [], [];
    var keys := diff.Keys;
    while keys != {}
      invariant keys <= diff.Keys
      invariant forall k :: k in toDrop <==> k in diff && k !in keys && diff[k] == Remove
      invariant forall k :: k in names <==> k in diff && k !in keys && diff[k] != Remove
      decreases |keys|
    {
      var key :| key in keys;
      keys := keys - {key};
      if diff[key] == Remove {
        toDrop := toDrop + [key];
      } else {
        names := names + [key];
      }
    }
  }

  /** Put together; a key in both would be refused, and there is none. */
  method Combine(dropErrs: Errors, putErrs: Errors) returns (errs: Errors)
    requires dropErrs.Keys !! putErrs.Keys
    ensures errs == putErrs + dropErrs
  {
    errs := putErrs;
    var rest := dropErrs.Keys;
    while rest != {}
      invariant rest <= dropErrs.Keys && errs.Keys == putErrs.Keys + (dropErrs.Keys - rest)
      invariant forall k :: k in errs ==> errs[k] == if k in dropErrs then dropErrs[k] else putErrs[k]
      decreases |rest|
    {
      var key :| key in rest;
      rest := rest - {key};
      assert key !in errs;
      errs := errs[key := dropErrs[key]];
    }
  }

  function KeysOf(diff: map<string, DiffType>, removed: bool): set<string> {
    set k | k in diff && (removed <==> diff[k] == Remove)
  }

  /** Exactly the keys of the difference are dropped or put, and no other is changed.  Apart from errors, what is
      dropped is gone, and what is put is as in the source, or gone if its text is empty: that is taken for a request
      to delete. */
  ghost predicate CopyDone(src: map<string, Item>, was: map<string, Item>, now: map<string, Item>, errs: Errors,
                           dropped: set<string>, put: set<string>) {
    var diff := DiffOf(SumsOf(was), SumsOf(src));
    && dropped == KeysOf(diff, true) && put == KeysOf(diff, false) && errs.Keys <= diff.Keys
    && (forall k :: k !in diff ==> (k in now <==> k in was) && (k in now ==> now[k] == was[k]))
    && (forall k :: k in diff && k !in errs ==>
          if k in put && src[k].text != "" then k in now && now[k] == src[k] else k !in now)
  }

  /** What dropping and putting along a difference leaves. */
  lemma Copied(src: map<string, Item>, was: map<string, Item>, mid: map<string, Item>, now: map<string, Item>,
               dropErrs: Errors, putErrs: Errors)
    requires var diff := DiffOf(SumsOf(was), SumsOf(src));
      && Dropped(was, mid, KeysOf(diff, true), dropErrs)
      && KeysOf(diff, false) <= src.Keys && PutInto(mid, now, KeysOf(diff, false), putErrs, TextsOf(src), SumsOf(src))
    ensures var diff := DiffOf(SumsOf(was), SumsOf(src));
      CopyDone(src, was, now, putErrs + dropErrs, KeysOf(diff, true), KeysOf(diff, false))
  {
    hide DiffOf;
  }

  /** Dropping and putting along the difference. */
  method ApplyDiff(source: Backend, dest: Backend, diff: map<string, DiffType>, toPut: map<string, string>,
                   toDrop: seq<string>, names: seq<string>)
      returns (errs: Errors, ghost dropped: set<string>, ghost put: set<string>)
    requires source != dest && diff == DiffOf(SumsOf(dest.items), SumsOf(source.items))
    requires KeySet(toDrop) == KeysOf(diff, true) && KeySet(names) == KeysOf(diff, false)
    requires names != [] ==> toPut == map k | k in source.items && k in names :: source.items[k].text
    modifies dest
    ensures dest.dropped == old(dest.dropped) + dropped && dest.put == old(dest.put) + put
    ensures dest.Reported(errs)
    ensures CopyDone(source.items, old(dest.items), dest.items, errs, dropped, put)
  {
    hide *;
    ghost var src, was := source.items, dest.items;
    var dropErrs: Errors, putErrs: Errors := map[], map[];
    NothingDone(was, src);
    NoError(dest);
    if |toDrop| > 0 {
      dropErrs := dest.DropSchema(toDrop);
    }
    ghost var mid := dest.items;
    NothingDone(mid, src);
    PutKeysHeld(src, was, names);
    if |names| > 0 {
      putErrs := dest.Put(toPut, SumsOf(source.items));
      PutNamed(src, mid, dest.items, names, putErrs);
    }
    ErrorsApart(was, mid, dest.items, src, KeySet(toDrop), KeySet(names), dropErrs, putErrs, diff);
    assert (toDrop == [] || |toDrop| > 0) && (names == [] || |names| > 0);
    errs := Combine(dropErrs, putErrs);
    BothReported(dest, dropErrs, putErrs);
    Copied(src, was, mid, dest.items, dropErrs, putErrs);
    dropped, put := KeySet(toDrop), KeySet(names);
  }

  lemma NothingDone(items: map<string, Item>, src: map<string, Item>)
    ensures Dropped(items, items, {}, map[]) && PutInto(items, items, {}, map[], TextsOf(src), SumsOf(src))
    ensures KeySet([]) == {}
  {
  }

  lemma PutKeysHeld(src: map<string, Item>, was: map<string, Item>, names: seq<string>)
    requires KeySet(names) == KeysOf(DiffOf(SumsOf(was), SumsOf(src)), false)
    ensures SumsOf(src).Keys == src.Keys && forall k :: k in names ==> k in src
    ensures (map k | k in src && k in names :: src[k].text).Keys == KeySet(names)
  {
    forall k | k in names ensures k in src {
      assert k in KeySet(names);
    }
  }

  lemma PutNamed(src: map<string, Item>, mid: map<string, Item>, now: map<string, Item>, names: seq<string>,
        errs: Errors)
    requires forall k :: k in names ==> k in src
    requires var toPut := map k | k in src && k in names :: src[k].text;
      toPut.Keys <= SumsOf(src).Keys && PutInto(mid, now, toPut.Keys, errs, toPut, SumsOf(src))
    ensures KeySet(names) <= src.Keys && PutInto(mid, now, KeySet(names), errs, TextsOf(src), SumsOf(src))
  {
    var toPut := map k | k in src && k in names :: src[k].text;
    assert toPut.Keys == KeySet(names);
  }

  lemma ErrorsApart(was: map<string, Item>, mid: map<string, Item>, now: map<string, Item>, src: map<string, Item>,
                    drops: set<string>, puts: set<string>, dropErrs: Errors, putErrs: Errors,
                    diff: map<string, DiffType>)
    requires drops == KeysOf(diff, true) && puts == KeysOf(diff, false) && puts <= src.Keys
    requires Dropped(was, mid, drops, dropErrs) && PutInto(mid, now, puts, putErrs, TextsOf(src), SumsOf(src))
    ensures dropErrs.Keys !! putErrs.Keys && dropErrs.Keys + putErrs.Keys <= diff.Keys && drops + puts == diff.Keys
  {
  }

  method CopySchema(source: Backend, dest: Backend, dryRun: bool) returns (errs: Errors, ghost dropped: set<string>,
        ghost put: set<string>)
    requires source != dest
    modifies dest
    ensures dest.dropped == old(dest.dropped) + dropped && dest.put == old(dest.put) + put
    ensures dest.Reported(errs)
    ensures var emptySource := source.items == map[] && old(dest.items) != map[];
      if dryRun || emptySource then dest.items == old(dest.items) && errs == map[] && dropped == put == {}
      else CopyDone(source.items, old(dest.items), dest.items, errs, dropped, put)
  {
    hide CopyDone, DiffOf, KeysOf, Backend.Reported;
    errs, dropped, put := map[], {}, {};
    NoError(dest);
    var srcsums := source.GetChecksums();
    var destsums := dest.GetChecksums();
    SameCount(source.items);
    SameCount(dest.items);
    if |srcsums| == 0 && |destsums| != 0 {
      return;
    }
    var diff := VxSchemaDiff(destsums, srcsums);
    if |diff| == 0 {
      NoDifference(source.items, dest.items);
      return;
    }
    var toDrop, names := ParseDiff(diff);
    SplitKeys(diff, toDrop, names);
    var toPut := source.Get(names);
    if dryRun {
      return;
    }
    errs, dropped, put := ApplyDiff(source, dest, diff, toPut, toDrop, names);
  }

  lemma SameCount(items: map<string, Item>)
    ensures |SumsOf(items)| == 0 <==> items == map[]
  {
    assert SumsOf(items).Keys == items.Keys;
  }

  lemma SplitKeys(diff: map<string, DiffType>, toDrop: seq<string>, names: seq<string>)
    requires forall k :: k in toDrop <==> k in diff && diff[k] == Remove
    requires forall k :: k in names <==> k in diff && diff[k] != Remove
    ensures KeySet(toDrop) == KeysOf(diff, true) && KeySet(names) == KeysOf(diff, false)
  {
  }

  lemma NoDifference(src: map<string, Item>, dest: map<string, Item>)
    requires DiffOf(SumsOf(dest), SumsOf(src)) == map[]
    ensures CopyDone(src, dest, dest, map[], {}, {})
  {
  }

  // ---------------------------------------------------------------- agreement

  /** A key without error is still in the difference after a copy exactly if it was put and its text is empty. */
  lemma LeftOver(src: map<string, Item>, was: map<string, Item>, now: map<string, Item>, errs: Errors,
                 dropped: set<string>, put: set<string>, key: string)
    requires CopyDone(src, was, now, errs, dropped, put) && key !in errs
    ensures put <= src.Keys
    ensures key in DiffOf(SumsOf(now), SumsOf(src)) <==> key in put && src[key].text == ""
    ensures key in DiffOf(SumsOf(now), SumsOf(src)) ==> DiffOf(SumsOf(now), SumsOf(src))[key] == Add
  {
    var diff := DiffOf(SumsOf(was), SumsOf(src));
    assert key in diff <==> Differs(key, SumsOf(was), SumsOf(src));
    assert key in DiffOf(SumsOf(now), SumsOf(src)) <==> Differs(key, SumsOf(now), SumsOf(src));
  }

  lemma DiffEmpty(a: Sums, b: Sums)
    ensures DiffOf(a, b) == map[] <==> a == b
  {
    if DiffOf(a, b) == map[] {
      forall k ensures (k in a <==> k in b) && (k in a ==> a[k] == b[k]) {
        assert k !in DiffOf(a, b);
      }
    }
  }

  /** Without errors the checksums are equal, and a second copy finds nothing to do, exactly if nothing with an empty
      text was put. */
  lemma Converged(src: map<string, Item>, was: map<string, Item>, now: map<string, Item>, dropped: set<string>,
                  put: set<string>)
    requires CopyDone(src, was, now, map[], dropped, put)
    ensures put <= src.Keys
    ensures SumsOf(now) == SumsOf(src) <==> forall k :: k in put ==> src[k].text != ""
    ensures SumsOf(now) == SumsOf(src) <==> DiffOf(SumsOf(now), SumsOf(src)) == map[]
  {
    var again := DiffOf(SumsOf(now), SumsOf(src));
    forall k ensures put <= src.Keys && (k in again <==> k in put && src[k].text == "") {
      LeftOver(src, was, now, map[], dropped, put, k);
    }
    DiffEmpty(SumsOf(now), SumsOf(src));
    hide DiffOf, CopyDone, SumsOf;
    if forall k :: k in put ==> src[k].text != "" {
      assert again == map[];
    }
  }

  /** An element whose text is empty never settles: put without error in one copy, it is put again in every later
      one. */
  lemma EmptyTextNeverSettles(src: map<string, Item>, was: map<string, Item>, now: map<string, Item>, errs: Errors,
                              dropped: set<string>, put: set<string>, key: string,
                              later: map<string, Item>, errs': Errors, dropped': set<string>, put': set<string>)
    requires CopyDone(src, was, now, errs, dropped, put) && key in put && key in src && src[key].text == ""
    requires key !in errs && CopyDone(src, now, later, errs', dropped', put')
    ensures key in put' && (key !in errs' ==> key !in later)
  {
    LeftOver(src, was, now, errs, dropped, put, key);
  }
}
