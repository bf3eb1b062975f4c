/** VxSchemaTable: the element list and its dictionary, the text property, and GetDiff. */
module TableDiff {
  import opened Text
  import opened Wrappers
  import opened TableText

  datatype DiffType = Add | Remove | Change

  type Diff = seq<(Element, DiffType)>

  /** The dictionary holds exactly the listed elements under their keys. */
  ghost predicate Agrees(es: seq<Element>, d: map<string, Element>) {
    && (forall k :: k in d <==> k in Keys(es))
    && (forall i :: 0 <= i < |es| ==> Keys(es)[i] in d && d[Keys(es)[i]] == es[i])
  }

  class VxSchemaTable {
    var elems: seq<Element>
    var elemdict: map<string, Element>

    ghost predicate Valid()
      reads this
    {
      UniqueKeys(elems) && Agrees(elems, elemdict)
    }

    constructor ()
      ensures Valid() && elems == []
    {
      elems, elemdict := [], map[];
    }

    /** A duplicate is noticed after the element went into the list; the object is then abandoned. */
    method AddElement(elem: Element) returns (ok: bool)
      requires Valid()
      modifies this
      ensures ok <==> ElemKey(elem) !in old(Keys(elems))
      ensures elems == old(elems) + [elem]
      ensures ok ==> Valid()
    {
      ghost var was := elems;
      elems := elems + [elem];
      var elemkey := ElemKey(elem);
      assert Keys(elems) == Keys(was) + [elemkey];
      if elemkey in elemdict {
        return false;
      }
      elemdict := elemdict[elemkey := elem];
      UniqueAppend(was, elem);
      return true;
    }

    method SetText(value: string, isSpace: char -> bool) returns (r: Result<(), ParseError>)
      modifies this
      ensures match Parse(value, isSpace)
        case Success(es) => r == Success(()) && Valid() && elems == es
        case Failure(e) => r == Failure(e)
    {
      hide Parse, ParseLines, ParseLine, Trim, Split, ElemKey, Normal, Keys;
      elems, elemdict := [], map[];
      ParseIsLines(value, isSpace);
      var lines := Split(value, '\n');
      var i := 0;
      assert lines[0..] == lines;
      while i < |lines|
        invariant i <= |lines| && Valid()
        invariant Parse(value, isSpace) == ParseLines(lines[i..], isSpace, elems)
      {
        assert lines[i..][1..] == lines[i + 1..] && lines[i..][0] == lines[i];
        ParseStep(lines[i..], isSpace, elems);
        var line := Trim(lines[i], isSpace);
        i := i + 1;
        if line == "" {
          continue;
        }
        match ParseLine(line) {
          case Failure(e) => return Failure(e);
          case Success(elem) =>
            var ok := AddElement(elem);
            if !ok {
              return Failure(DuplicateEntry(ElemKey(elem)));
            }
        }
      }
      assert lines[i..] == [];
      ParseEnd(isSpace, elems);
      return Success(());
    }

    method GetText() returns (text: string)
      ensures text == PrintAll(elems)
    {
      text := "";
      for i := 0 to |elems|
        invariant text == PrintAll(elems[..i])
      {
        PrintAllAppend(elems[..i], elems[i]);
        assert elems[..i + 1] == elems[..i] + [elems[i]];
        text := text + (Print(elems[i]) + "\n");
      }
      assert elems[..|elems|] == elems;
    }

    predicate Contains(elemkey: string)
      reads this
    {
      elemkey in elemdict
    }
  }

  lemma ParseIsLines(value: string, isSpace: char -> bool)
    ensures Parse(value, isSpace) == ParseLines(Split(value, '\n'), isSpace, [])
  {
  }

  // ---------------------------------------------------------------- the difference

  predicate Differs(e: Element, was: map<string, Element>) {
    ElemKey(e) !in was || Print(e) != Print(was[ElemKey(e)])
  }

  /** The removals among es, in their order. */
  function Removals(es: seq<Element>, now: map<string, Element>): Diff {
    if es == [] then []
    else
      var e := es[|es| - 1];
      Removals(es[..|es| - 1], now) + if ElemKey(e) in now then [] else [(e, Remove)]
  }

  /** The additions and changes among es, in their order. */
  function Updates(es: seq<Element>, was: map<string, Element>): Diff {
    if es == [] then []
    else
      var e := es[|es| - 1];
      Updates(es[..|es| - 1], was)
      + if !Differs(e, was) then [] else [(e, if ElemKey(e) in was then Change else Add)]
  }

  /** Deleted elements first, then modified and added ones in the order of the new table. */
  function DiffOf(o: seq<Element>, od: map<string, Element>, n: seq<Element>, nd: map<string, Element>): Diff {
    Removals(o, nd) + Updates(n, od)
  }

  lemma RemovalsNext(es: seq<Element>, i: nat, now: map<string, Element>)
    requires i < |es|
    ensures Removals(es[..i + 1], now) ==
      Removals(es[..i], now) + if ElemKey(es[i]) in now then [] else [(es[i], Remove)]
  {
    assert es[..i + 1][..i] == es[..i];
  }

  lemma UpdatesNext(es: seq<Element>, i: nat, was: map<string, Element>)
    requires i < |es|
    ensures Updates(es[..i + 1], was) ==
      Updates(es[..i], was)
      + if ElemKey(es[i]) !in was then [(es[i], Add)]
        else if Print(es[i]) != Print(was[ElemKey(es[i])]) then [(es[i], Change)] else []
  {
    assert es[..i + 1][..i] == es[..i];
  }

  lemma LookedUp(es: seq<Element>, d: map<string, Element>, i: nat)
    requires Agrees(es, d) && i < |es|
    ensures ElemKey(es[i]) in d && d[ElemKey(es[i])] == es[i]
  {
    assert Keys(es)[i] == ElemKey(es[i]);
  }

  method GetDiff(oldtable: VxSchemaTable, newtable: VxSchemaTable) returns (diff: Diff)
    requires oldtable.Valid() && newtable.Valid()
    ensures diff == DiffOf(oldtable.elems, oldtable.elemdict, newtable.elems, newtable.elemdict)
  {
    hide Print, ElemKey, Removals, Updates, Agrees, UniqueKeys;
    diff := [];
    NoneYet(oldtable.elemdict);
    NoneYet(newtable.elemdict);
    assert oldtable.elems[..0] == [] == newtable.elems[..0];
    for i := 0 to |oldtable.elems|
      invariant diff == Removals(oldtable.elems[..i], newtable.elemdict)
    {
      var elem := oldtable.elems[i];
      var elemkey := ElemKey(elem);
      LookedUp(oldtable.elems, oldtable.elemdict, i);
      RemovalsNext(oldtable.elems, i, newtable.elemdict);
      if !newtable.Contains(elemkey) {
        diff := diff + [(oldtable.elemdict[elemkey], Remove)];
      }
    }
    assert oldtable.elems[..|oldtable.elems|] == oldtable.elems;
    ghost var removals := diff;
    for i := 0 to |newtable.elems|
      invariant diff == removals + Updates(newtable.elems[..i], oldtable.elemdict)
    {
      var elem := newtable.elems[i];
      var elemkey := ElemKey(elem);
      LookedUp(newtable.elems, newtable.elemdict, i);
      UpdatesNext(newtable.elems, i, oldtable.elemdict);
      if !oldtable.Contains(elemkey) {
        diff := diff + [(newtable.elemdict[elemkey], Add)];
      } else if Print(elem) != Print(oldtable.elemdict[elemkey]) {
        diff := diff + [(newtable.elemdict[elemkey], Change)];
      }
    }
    assert newtable.elems[..|newtable.elems|] == newtable.elems;
  }

  lemma NoneYet(d: map<string, Element>)
    ensures Removals([], d) == [] && Updates([], d) == []
  {
  }

  // ---------------------------------------------------------------- what a difference does

  function ApplyOne(m: map<string, Element>, step: (Element, DiffType)): map<string, Element> {
    if step.1 == Remove then m - {ElemKey(step.0)} else m[ElemKey(step.0) := step.0]
  }

  function Apply(m: map<string, Element>, diff: Diff): map<string, Element> {
    if diff == [] then m else ApplyOne(Apply(m, diff[..|diff| - 1]), diff[|diff| - 1])
  }

  lemma {:induction false} ApplyConcat(m: map<string, Element>, a: Diff, b: Diff)
    ensures Apply(m, a + b) == Apply(Apply(m, a), b)
  {
    if b == [] {
      assert a + b == a;
    } else {
      assert (a + b)[..|a + b| - 1] == a + b[..|b| - 1];
      ApplyConcat(m, a, b[..|b| - 1]);
    }
  }

  lemma ApplyNone(m: map<string, Element>, step: (Element, DiffType))
    ensures Apply(m, []) == m && Apply(m, [step]) == ApplyOne(m, step)
  {
    assert [step][..0] == [];
  }

  lemma KeysAppend(es: seq<Element>)
    requires es != []
    ensures Keys(es) == Keys(es[..|es| - 1]) + [ElemKey(es[|es| - 1])]
  {
  }

  lemma {:induction false} ApplyRemovals(m: map<string, Element>, es: seq<Element>, now: map<string, Element>)
    ensures var r := Apply(m, Removals(es, now));
      && (forall k :: k in r <==> k in m && (k in now || k !in Keys(es)))
      && (forall k :: k in r ==> r[k] == m[k])
  {
    if es == [] {
      ApplyNone(m, (Element("", []), Add));
    } else {
      var n := |es| - 1;
      var before := Removals(es[..n], now);
      var step := if ElemKey(es[n]) in now then [] else [(es[n], Remove)];
      assert Removals(es, now) == before + step;
      hide Apply, Removals, ElemKey, Keys;
      ApplyRemovals(m, es[..n], now);
      ApplyConcat(m, before, step);
      ApplyNone(Apply(m, before), (es[n], Remove));
      KeysAppend(es);
    }
  }

  /** Keys of es that the update lists, looked up in a dictionary that knows them. */
  lemma {:induction false} ApplyUpdates(m: map<string, Element>, es: seq<Element>, now: map<string, Element>,
        was: map<string, Element>)
    requires forall i :: 0 <= i < |es| ==> Keys(es)[i] in now && now[Keys(es)[i]] == es[i]
    ensures var r := Apply(m, Updates(es, was));
      && (forall k :: k in Keys(es) ==> k in now)
      && (forall k :: k in r <==> k in m || (k in Keys(es) && Differs(now[k], was)))
      && (forall k :: k in r ==> r[k] == if k in Keys(es) && Differs(now[k], was) then now[k] else m[k])
  {
    if es == [] {
      ApplyNone(m, (Element("", []), Add));
    } else {
      var n := |es| - 1;
      KeysAppend(es);
      var before := Updates(es[..n], was);
      var step := (es[n], if ElemKey(es[n]) in was then Change else Add);
      assert Updates(es, was) == before + if !Differs(es[n], was) then [] else [step];
      assert Keys(es)[n] == ElemKey(es[n]);
      hide Apply, Updates, ElemKey, Keys, Differs;
      ApplyUpdates(m, es[..n], now, was);
      ApplyConcat(m, before, if !Differs(es[n], was) then [] else [step]);
      ApplyNone(Apply(m, before), step);
    }
  }

  /** The difference turns the old table into the new one: every key of the new table and no other, with the
      new element wherever the text differs and the old one, of equal text, elsewhere. */
  lemma DiffIsSound(o: seq<Element>, od: map<string, Element>, n: seq<Element>, nd: map<string, Element>)
    requires Agrees(o, od) && Agrees(n, nd)
    ensures var r := Apply(od, DiffOf(o, od, n, nd));
      && r.Keys == nd.Keys
      && forall k :: k in r ==> r[k] == if k in od && Print(od[k]) == Print(nd[k]) then od[k] else nd[k]
  {
    var removals, updates := Removals(o, nd), Updates(n, od);
    assert DiffOf(o, od, n, nd) == removals + updates;
    KeysMatch(n, nd);
    hide Apply, Removals, Updates, Print, ElemKey, DiffOf, Keys;
    ApplyConcat(od, removals, updates);
    ApplyRemovals(od, o, nd);
    ApplyUpdates(Apply(od, removals), n, nd, od);
  }

  lemma KeysMatch(es: seq<Element>, d: map<string, Element>)
    requires Agrees(es, d)
    ensures forall k :: k in d ==> ElemKey(d[k]) == k
  {
    forall k | k in d ensures ElemKey(d[k]) == k {
      var i :| 0 <= i < |es| && Keys(es)[i] == k;
    }
  }

  /** Elements of equal key and text are the same. */
  ghost predicate TextDecides(od: map<string, Element>, nd: map<string, Element>) {
    forall k :: k in od && k in nd && Print(od[k]) == Print(nd[k]) ==> od[k] == nd[k]
  }

  /** The result is the new table exactly where equal text means equal elements, as between tables that came from
      text. */
  lemma DiffIsExact(o: seq<Element>, od: map<string, Element>, n: seq<Element>, nd: map<string, Element>)
    requires Agrees(o, od) && Agrees(n, nd)
    ensures Apply(od, DiffOf(o, od, n, nd)) == nd <==> TextDecides(od, nd)
    ensures (forall k :: k in od ==> Canonical(od[k])) && (forall k :: k in nd ==> Canonical(nd[k])) ==>
      TextDecides(od, nd)
  {
    hide Apply, DiffOf, Print, ParseLine;
    DiffIsSound(o, od, n, nd);
  }

  // ---------------------------------------------------------------- minimality

  function DiffKeys(diff: Diff): (r: seq<string>)
    ensures |r| == |diff| && forall i :: 0 <= i < |r| ==> r[i] == ElemKey(diff[i].0)
  {
    seq(|diff|, i requires 0 <= i < |diff| => ElemKey(diff[i].0))
  }

  predicate Distinct(ks: seq<string>) {
    forall i, j :: 0 <= i < j < |ks| ==> ks[i] != ks[j]
  }

  function Elements(diff: Diff): (r: seq<Element>)
    ensures |r| == |diff|
  {
    seq(|diff|, i requires 0 <= i < |diff| => diff[i].0)
  }

  /** Some of the elements of es, in their order. */
  predicate Subsequence(part: seq<Element>, es: seq<Element>) {
    part == []
    || (es != [] && Subsequence(part, es[..|es| - 1]))
    || (es != [] && part[|part| - 1] == es[|es| - 1] && Subsequence(part[..|part| - 1], es[..|es| - 1]))
  }

  lemma LastElement(d: Diff, step: (Element, DiffType))
    ensures Elements(d + [step]) == Elements(d) + [step.0]
  {
  }

  lemma LongerSubsequence(part: seq<Element>, es: seq<Element>)
    requires es != [] && Subsequence(part, es[..|es| - 1])
    ensures Subsequence(part, es) && Subsequence(part + [es[|es| - 1]], es)
  {
    assert (part + [es[|es| - 1]])[..|part|] == part;
  }

  /** Removals come in the order of the old table ... */
  lemma {:induction false} RemovalsInOrder(es: seq<Element>, now: map<string, Element>)
    ensures Subsequence(Elements(Removals(es, now)), es)
  {
    if es != [] {
      var n := |es| - 1;
      RemovalsInOrder(es[..n], now);
      var before := Removals(es[..n], now);
      assert Removals(es, now) == before || Removals(es, now) == before + [(es[n], Remove)];
      hide Removals, Subsequence;
      LastElement(before, (es[n], Remove));
      LongerSubsequence(Elements(before), es);
    }
  }

  /** ... and additions and changes in the order of the new one. */
  lemma {:induction false} UpdatesInOrder(es: seq<Element>, was: map<string, Element>)
    ensures Subsequence(Elements(Updates(es, was)), es)
  {
    if es != [] {
      var n := |es| - 1;
      UpdatesInOrder(es[..n], was);
      var before, step := Updates(es[..n], was), (es[n], if ElemKey(es[n]) in was then Change else Add);
      assert Updates(es, was) == before || Updates(es, was) == before + [step];
      hide Updates, Subsequence, ElemKey;
      LastElement(before, step);
      LongerSubsequence(Elements(before), es);
    }
  }

  /** What is listed: an element of the old table that the new one lacks ... */
  lemma {:induction false} RemovalsMeaning(es: seq<Element>, now: map<string, Element>)
    requires UniqueKeys(es)
    ensures forall e, t :: (e, t) in Removals(es, now) <==> e in es && ElemKey(e) !in now && t == Remove
    ensures Distinct(DiffKeys(Removals(es, now)))
  {
    if es != [] {
      var n := |es| - 1;
      RemovalsMeaning(es[..n], now);
      assert es == es[..n] + [es[n]];
      DistinctAppend(es, Removals(es[..n], now), Remove);
    }
  }

  /** ... or one of the new table that the old one lacks or words differently. */
  lemma {:induction false} UpdatesMeaning(es: seq<Element>, was: map<string, Element>)
    requires UniqueKeys(es)
    ensures forall e, t :: (e, t) in Updates(es, was) <==>
      e in es && Differs(e, was) && t == if ElemKey(e) in was then Change else Add
    ensures Distinct(DiffKeys(Updates(es, was)))
  {
    if es != [] {
      var n := |es| - 1;
      UpdatesMeaning(es[..n], was);
      assert es == es[..n] + [es[n]];
      var t := if ElemKey(es[n]) in was then Change else Add;
      DistinctAppend(es, Updates(es[..n], was), t);
    }
  }

  /** Listing the last element after others of the list keeps the keys distinct. */
  lemma DistinctAppend(es: seq<Element>, d: Diff, t: DiffType)
    requires UniqueKeys(es) && es != [] && Distinct(DiffKeys(d))
    requires forall i :: 0 <= i < |d| ==> d[i] in d
    requires forall e, t' :: (e, t') in d ==> e in es[..|es| - 1]
    ensures Distinct(DiffKeys(d + [(es[|es| - 1], t)]))
  {
    var last := es[|es| - 1];
    var ks := DiffKeys(d + [(last, t)]);
    forall i, j | 0 <= i < j < |ks| ensures ks[i] != ks[j] {
      if j < |d| {
        assert DiffKeys(d)[i] != DiffKeys(d)[j];
      } else {
        assert (d[i].0, d[i].1) in d;
        assert d[i].0 in es[..|es| - 1];
        var k :| 0 <= k < |es| - 1 && es[k] == d[i].0;
      }
    }
  }

  lemma InDictionary(es: seq<Element>, d: map<string, Element>)
    requires Agrees(es, d)
    ensures forall e :: e in es ==> ElemKey(e) in d && d[ElemKey(e)] == e
  {
    forall e | e in es ensures ElemKey(e) in d && d[ElemKey(e)] == e {
      var i :| 0 <= i < |es| && es[i] == e;
      assert Keys(es)[i] == ElemKey(e);
    }
  }

  lemma SomethingListed(d: Diff)
    requires d != []
    ensures exists e, t :: (e, t) in d
  {
    assert (d[0].0, d[0].1) in d;
  }

  /** Tables that agree have an empty difference. */
  lemma Unchanged(o: seq<Element>, od: map<string, Element>, n: seq<Element>, nd: map<string, Element>)
    requires UniqueKeys(o) && Agrees(o, od) && UniqueKeys(n) && Agrees(n, nd)
    requires od.Keys == nd.Keys && forall k :: k in od ==> Print(od[k]) == Print(nd[k])
    ensures DiffOf(o, od, n, nd) == []
  {
    RemovalsMeaning(o, nd);
    UpdatesMeaning(n, od);
    InDictionary(o, od);
    InDictionary(n, nd);
    hide Removals, Updates, Print, ElemKey;
    if Removals(o, nd) != [] {
      SomethingListed(Removals(o, nd));
      assert false;
    } else if Updates(n, od) != [] {
      SomethingListed(Updates(n, od));
      assert false;
    }
  }

  /** An empty difference leaves the old table as it is, so it is the new one. */
  lemma Empty(o: seq<Element>, od: map<string, Element>, n: seq<Element>, nd: map<string, Element>)
    requires Agrees(o, od) && Agrees(n, nd) && DiffOf(o, od, n, nd) == []
    ensures od.Keys == nd.Keys && forall k :: k in od ==> Print(od[k]) == Print(nd[k])
  {
    hide DiffOf, Print, ElemKey;
    DiffIsSound(o, od, n, nd);
    ApplyNone(od, (Element("", []), Add));
  }

  /** No key twice, and nothing at all exactly when the tables agree. */
  lemma DiffIsMinimal(o: seq<Element>, od: map<string, Element>, n: seq<Element>, nd: map<string, Element>)
    requires UniqueKeys(o) && Agrees(o, od) && UniqueKeys(n) && Agrees(n, nd)
    ensures Distinct(DiffKeys(DiffOf(o, od, n, nd)))
    ensures DiffOf(o, od, n, nd) == [] <==> od.Keys == nd.Keys && forall k :: k in od ==> Print(od[k]) == Print(nd[k])
  {
    hide Removals, Updates, Print, ElemKey;
    RemovalsMeaning(o, nd);
    UpdatesMeaning(n, od);
    var removals, updates := Removals(o, nd), Updates(n, od);
    forall i | 0 <= i < |removals| ensures ElemKey(removals[i].0) !in nd {
      assert (removals[i].0, removals[i].1) in removals;
    }
    forall i | 0 <= i < |updates| ensures updates[i].0 in n {
      assert (updates[i].0, updates[i].1) in updates;
    }
    NoClash(removals, updates, n, nd);
    if od.Keys == nd.Keys && forall k :: k in od ==> Print(od[k]) == Print(nd[k]) {
      Unchanged(o, od, n, nd);
    } else if DiffOf(o, od, n, nd) == [] {
      Empty(o, od, n, nd);
    }
  }

  /** Removed keys are not in the new table, updated ones are. */
  lemma NoClash(removals: Diff, updates: Diff, n: seq<Element>, nd: map<string, Element>)
    requires Distinct(DiffKeys(removals)) && Distinct(DiffKeys(updates)) && Agrees(n, nd)
    requires forall i :: 0 <= i < |removals| ==> ElemKey(removals[i].0) !in nd
    requires forall i :: 0 <= i < |updates| ==> updates[i].0 in n
    ensures Distinct(DiffKeys(removals + updates))
  {
    var ks := DiffKeys(removals + updates);
    forall i, j | 0 <= i < j < |ks| ensures ks[i] != ks[j] {
      if j < |removals| {
        assert DiffKeys(removals)[i] != DiffKeys(removals)[j];
      } else if i >= |removals| {
        assert DiffKeys(updates)[i - |removals|] != DiffKeys(updates)[j - |removals|];
      } else {
        var e := updates[j - |removals|].0;
        var k :| 0 <= k < |n| && n[k] == e;
        assert Keys(n)[k] == ElemKey(e);
      }
    }
  }
}
