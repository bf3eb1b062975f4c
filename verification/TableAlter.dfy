/** Altering a table in place: trial runs, additions, a transaction, and the undo by hand when it fails. */
module TableAlter {
  import opened Wrappers
  import opened TableText
  import opened TableDiff
  import opened Server

  datatype PutError =
    | SqlFailed(errnum: int)
    | RefusingToDrop(columns: seq<string>)
    | RefusingToReadd(column: string, errnum: int)

  // ---------------------------------------------------------------- elements as database objects

  predicate IsIndex(e: Element) {
    e.elemtype == "primary-key" || e.elemtype == "index"
  }

  predicate Known(e: Element) {
    e.elemtype == "column" || IsIndex(e)
  }

  function Name(e: Element): string {
    Param(e, "name")
  }

  function SizeOf(len: string, prec: string, scale: string): Size {
    if len != "" then Length(len) else if prec != "" && scale != "" then Decimal(prec, scale) else NoSize
  }

  function NullityOf(text: string): Nullity {
    if text == "" then Unstated else if text == "0" then NotNull else Null
  }

  /** What ColumnToSql asks for. */
  function ColumnOf(e: Element, includeDefault: bool): Column {
    var seed, incr := Param(e, "identity_seed"), Param(e, "identity_incr");
    Column(Param(e, "type"),
           SizeOf(Param(e, "length"), Param(e, "precision"), Param(e, "scale")),
           if includeDefault then Param(e, "default") else "",
           NullityOf(Param(e, "null")),
           if seed != "" && incr != "" then Identity(seed, incr) else NoIdentity)
  }

  function ParamList(ps: seq<(string, string)>, name: string): seq<string> {
    if ps == [] then [] else (if ps[0].0 == name then [ps[0].1] else []) + ParamList(ps[1..], name)
  }

  /** What IndexToSql and PrimaryKeyToSql ask for. */
  function IndexOf(e: Element): Index {
    var primary := e.elemtype == "primary-key";
    Index(primary, primary || (Param(e, "unique") != "" && Param(e, "unique") != "0"),
          Param(e, "clustered") == "1", ParamList(e.parameters, "column"))
  }

  /** A primary key without a name gets the default one. */
  function IndexName(tabname: string, e: Element): string {
    if e.elemtype == "primary-key" && Name(e) == "" then "PK_" + tabname else Name(e)
  }

  function AllowNull(ps: seq<(string, string)>): seq<(string, string)> {
    if ps == [] then [] else [if ps[0].0 == "null" then ("null", "1") else ps[0]] + AllowNull(ps[1..])
  }

  function NullableColumn(e: Element): Element {
    Element(e.elemtype, AllowNull(e.parameters))
  }

  predicate SaysNull(ps: seq<(string, string)>) {
    exists k :: 0 <= k < |ps| && ps[k].0 == "null"
  }

  lemma {:induction false} AllowNullParam(ps: seq<(string, string)>, name: string)
    ensures GetParam(AllowNull(ps), name) == if name == "null" && SaysNull(ps) then "1" else GetParam(ps, name)
  {
    if ps == [] {
    } else {
      AllowNullParam(ps[1..], name);
      assert SaysNull(ps) <==> ps[0].0 == "null" || SaysNull(ps[1..]) by {
        if SaysNull(ps[1..]) {
          var k :| 0 <= k < |ps[1..]| && ps[1..][k].0 == "null";
          assert ps[k + 1].0 == "null";
        }
      }
    }
  }

  /** The nullable form of a column differs in nothing but its nullity, and only if that was stated. */
  lemma NullableOnlyRelaxes(e: Element, includeDefault: bool)
    ensures Name(NullableColumn(e)) == Name(e)
    ensures ColumnOf(NullableColumn(e), includeDefault) ==
      if SaysNull(e.parameters) then ColumnOf(e, includeDefault).(nullity := Null) else ColumnOf(e, includeDefault)
  {
    var ps := e.parameters;
    AllowNullParam(ps, "name");
    AllowNullParam(ps, "type");
    AllowNullParam(ps, "length");
    AllowNullParam(ps, "default");
    AllowNullParam(ps, "null");
    AllowNullParam(ps, "precision");
    AllowNullParam(ps, "scale");
    AllowNullParam(ps, "identity_seed");
    AllowNullParam(ps, "identity_incr");
    hide GetParam, AllowNull, SaysNull, SizeOf;
  }

  /** The column as asked for, or relaxed to allow nulls where that is tolerated. */
  predicate Near(c: Column, e: Element, relax: bool) {
    c == ColumnOf(e, true) || (relax && c == ColumnOf(NullableColumn(e), true))
  }

  // ---------------------------------------------------------------- in terms of the parameters

  /** A column as the parameters of its element have it; a relaxed one may allow nulls although it is not to. */
  predicate Meets(c: Column, e: Element, relaxed: bool) {
    && c.sqltype == Param(e, "type") && c.dflt == Param(e, "default")
    && (Param(e, "length") != "" ==> c.size == Length(Param(e, "length")))
    && (Param(e, "length") == "" ==>
        if Param(e, "precision") == "" || Param(e, "scale") == "" then c.size.NoSize?
        else c.size == Decimal(Param(e, "precision"), Param(e, "scale")))
    && (if Param(e, "identity_seed") == "" || Param(e, "identity_incr") == "" then c.identity.NoIdentity?
        else c.identity == Identity(Param(e, "identity_seed"), Param(e, "identity_incr")))
    && (Param(e, "null") == "" ==> c.nullity.Unstated? || (relaxed && c.nullity.Null?))
    && (Param(e, "null") == "0" ==> c.nullity.NotNull? || (relaxed && c.nullity.Null?))
    && (Param(e, "null") != "" && Param(e, "null") != "0" ==> c.nullity.Null?)
  }

  /** An index or primary key as its parameters have it, with the columns in their order. */
  predicate IndexMeets(i: Index, e: Element) {
    && (i.primary <==> e.elemtype == "primary-key")
    && (i.unique <==> e.elemtype == "primary-key" || Param(e, "unique") !in {"", "0"})
    && (i.clustered <==> Param(e, "clustered") == "1")
    && i.columns == ParamList(e.parameters, "column")
  }

  /** Every element is in the table under its name, a primary key without a name under that of the table with PK_ in
      front, and nothing else is. */
  ghost predicate Fulfils(tab: string, es: seq<Element>, t: Table, relaxed: set<string>) {
    && (forall e :: e in es && e.elemtype != "index" && e.elemtype != "primary-key" ==>
          var name := Param(e, "name"); name in t.cols && Meets(t.cols[name], e, name in relaxed))
    && (forall e :: e in es && (e.elemtype == "index" || e.elemtype == "primary-key") ==>
          var name := if e.elemtype == "primary-key" && Param(e, "name") == "" then "PK_" + tab else Param(e, "name");
          name in t.indexes && IndexMeets(t.indexes[name], e))
    && (forall name :: name in t.cols ==>
          exists e :: e in es && e.elemtype != "index" && e.elemtype != "primary-key" && Param(e, "name") == name)
  }

  lemma NearMeets(c: Column, e: Element, relaxed: bool)
    requires Near(c, e, relaxed)
    ensures Meets(c, e, relaxed)
  {
    NullableOnlyRelaxes(e, true);
    hide GetParam, SaysNull, NullableColumn;
  }

  lemma DescribesFulfils(tab: string, es: seq<Element>, t: Table, relaxed: set<string>)
    requires Describes(tab, es, t, relaxed)
    ensures Fulfils(tab, es, t, relaxed)
  {
    hide Near, Meets, ColumnOf, GetParam;
    forall e | e in es && e.elemtype != "index" && e.elemtype != "primary-key"
      ensures Name(e) in t.cols && Meets(t.cols[Name(e)], e, Name(e) in relaxed)
    {
      NearMeets(t.cols[Name(e)], e, Name(e) in relaxed);
    }
  }

  // ---------------------------------------------------------------- tables that fit their description

  function Names(es: seq<Element>): set<string> {
    set e | e in es :: Name(e)
  }

  function IndexNames(tab: string, es: seq<Element>): set<string> {
    set e | e in es :: IndexName(tab, e)
  }

  /** Only the columns named may be nullable against their description. */
  ghost predicate Describes(tab: string, es: seq<Element>, t: Table, relaxed: set<string>) {
    && t.cols.Keys == (set e | e in es && !IsIndex(e) :: Name(e))
    && t.indexes.Keys == (set e | e in es && IsIndex(e) :: IndexName(tab, e))
    && (forall e :: e in es && !IsIndex(e) ==> Near(t.cols[Name(e)], e, Name(e) in relaxed))
    && (forall e :: e in es && IsIndex(e) ==> t.indexes[IndexName(tab, e)] == IndexOf(e))
  }

  // ---------------------------------------------------------------- the plan

  datatype Plan = Plan(coladd: seq<Element>, coldel: seq<Element>, colchanged: seq<Element>,
                       otheradd: seq<Element>, otherdel: seq<Element>)

  /** No list names a key twice. */
  predicate EachOnce(plan: Plan) {
    && UniqueKeys(plan.coladd) && UniqueKeys(plan.coldel) && UniqueKeys(plan.colchanged)
    && UniqueKeys(plan.otheradd) && UniqueKeys(plan.otherdel)
  }

  ghost predicate PlanFor(plan: Plan, o: seq<Element>, od: map<string, Element>, n: seq<Element>, nd: map<string,
        Element>) {
    && (forall e :: e in plan.coladd <==> e in n && !IsIndex(e) && ElemKey(e) !in od)
    && (forall e :: e in plan.coldel <==> e in o && !IsIndex(e) && ElemKey(e) !in nd)
    && (forall e :: e in plan.colchanged <==> e in n && !IsIndex(e) && ElemKey(e) in od && Differs(e, od))
    && (forall e :: e in plan.otheradd <==> e in n && IsIndex(e) && Differs(e, od))
    && (forall e :: e in plan.otherdel <==> e in o && IsIndex(e) && Differs(e, nd))
    && EachOnce(plan)
  }

  /** The elements among the first steps of a difference, by kind. */
  ghost predicate Sorted(plan: Plan, d: Diff, od: map<string, Element>) {
    && (forall e :: e in plan.coladd <==> (e, DiffType.Add) in d && !IsIndex(e))
    && (forall e :: e in plan.coldel <==> (e, Remove) in d && !IsIndex(e))
    && (forall e :: e in plan.colchanged <==> (e, DiffType.Change) in d && !IsIndex(e))
    && (forall e :: e in plan.otheradd <==> IsIndex(e) && ((e, DiffType.Add) in d || (e, DiffType.Change) in d))
    && (forall e :: e in plan.otherdel <==>
      (IsIndex(e) && (e, Remove) in d)
      || exists c :: IsIndex(c) && (c, DiffType.Change) in d && ElemKey(c) in od && e == od[ElemKey(c)])
    && EachOnce(plan)
  }

  function SortOne(plan: Plan, step: (Element, DiffType), od: map<string, Element>): Plan
    requires step.1 == DiffType.Change ==> ElemKey(step.0) in od
  {
    var (e, t) := step;
    if IsIndex(e) then
      match t
      case Add => plan.(otheradd := plan.otheradd + [e])
      case Remove => plan.(otherdel := plan.otherdel + [e])
      case Change => plan.(otherdel := plan.otherdel + [od[ElemKey(e)]], otheradd := plan.otheradd + [e])
    else
      match t
      case Add => plan.(coladd := plan.coladd + [e])
      case Remove => plan.(coldel := plan.coldel + [e])
      case Change => plan.(colchanged := plan.colchanged + [e])
  }

  /** A new key may follow those that stand there. */
  lemma OnceMore(es: seq<Element>, d: Diff, step: (Element, DiffType), e: Element)
    requires UniqueKeys(es) && Distinct(DiffKeys(d + [step])) && ElemKey(e) == ElemKey(step.0)
    requires forall x :: x in es ==> ElemKey(x) in DiffKeys(d)
    ensures UniqueKeys(es + [e])
  {
    hide ElemKey;
    var d' := d + [step];
    forall i | 0 <= i < |es| ensures ElemKey(es[i]) != ElemKey(e) {
      assert es[i] in es;
      var k :| 0 <= k < |d| && DiffKeys(d)[k] == ElemKey(es[i]);
      assert DiffKeys(d')[k] == DiffKeys(d)[k] && DiffKeys(d')[|d|] == ElemKey(step.0);
    }
  }

  /** The keys of the lists are those of the difference. */
  lemma SortedKeys(plan: Plan, d: Diff, od: map<string, Element>)
    requires Sorted(plan, d, od) && forall k :: k in od ==> ElemKey(od[k]) == k
    ensures forall e :: e in plan.coladd + plan.coldel + plan.colchanged + plan.otheradd + plan.otherdel ==>
      ElemKey(e) in DiffKeys(d)
  {
    hide ElemKey, EachOnce, IsIndex;
    forall e, t | (e, t) in d ensures ElemKey(e) in DiffKeys(d) {
      var k :| 0 <= k < |d| && d[k] == (e, t);
      assert DiffKeys(d)[k] == ElemKey(e);
    }
  }

  lemma StillOnce(plan: Plan, d: Diff, step: (Element, DiffType), od: map<string, Element>)
    requires Sorted(plan, d, od) && Distinct(DiffKeys(d + [step])) && forall k :: k in od ==> ElemKey(od[k]) == k
    requires step.1 == DiffType.Change ==> ElemKey(step.0) in od
    ensures EachOnce(SortOne(plan, step, od))
  {
    hide ElemKey, UniqueKeys, Distinct, IsIndex;
    SortedKeys(plan, d, od);
    assert EachOnce(plan);
    hide Sorted;
    var (e, t) := step;
    if !IsIndex(e) {
      OnceMore(if t == DiffType.Add then plan.coladd else if t == Remove then plan.coldel
        else plan.colchanged, d, step, e);
    } else {
      if t != Remove {
        OnceMore(plan.otheradd, d, step, e);
      }
      if t != DiffType.Add {
        OnceMore(plan.otherdel, d, step, if t == Remove then e else od[ElemKey(e)]);
      }
    }
  }

  lemma SortStep(plan: Plan, d: Diff, step: (Element, DiffType), od: map<string, Element>)
    requires Sorted(plan, d, od) && Distinct(DiffKeys(d + [step])) && forall k :: k in od ==> ElemKey(od[k]) == k
    requires step.1 == DiffType.Change ==> ElemKey(step.0) in od
    ensures Sorted(SortOne(plan, step, od), d + [step], od)
  {
    StillOnce(plan, d, step, od);
    hide ElemKey, EachOnce, Distinct;
    var (e, t) := step;
    var d' := d + [step];
    assert forall x, u :: (x, u) in d' <==> (x, u) in d || (x == e && u == t);
  }

  /** The key shows the type, whatever it is. */
  lemma SameKey(a: Element, b: Element)
    requires PlainType(a) && PlainType(b) && ElemKey(a) == ElemKey(b)
    ensures a.elemtype == b.elemtype && (a.elemtype != "primary-key" ==> Name(a) == Name(b))
  {
    if a.elemtype == "primary-key" && b.elemtype != "primary-key" {
      KeyHasCut(b);
    } else if a.elemtype != "primary-key" && b.elemtype == "primary-key" {
      KeyHasCut(a);
    } else if a.elemtype != "primary-key" {
      KeyHasCut(a);
      KeyHasCut(b);
      CutOnce(a.elemtype, Name(a), b.elemtype, Name(b));
    }
  }

  lemma KeyHasCut(e: Element)
    requires e.elemtype != "primary-key"
    ensures ElemKey(e) == e.elemtype + ": " + Name(e) && ':' in ElemKey(e) && ElemKey(e) != "primary-key"
  {
    assert ElemKey(e)[|e.elemtype|] == ':';
  }

  lemma CutOnce(t: string, a: string, u: string, b: string)
    requires NoCut(t) && NoCut(u) && t + ": " + a == u + ": " + b
    ensures t == u && a == b
  {
    var x, y := t + ": " + a, u + ": " + b;
    assert x[|t|] == ':' && x[|t| + 1] == ' ' && y[|u|] == ':' && y[|u| + 1] == ' ';
    assert x[..|t|] == t && y[..|u|] == u && x[|t| + 2..] == a && y[|u| + 2..] == b;
  }

  predicate PlainType(e: Element) {
    NoCut(e.elemtype)
  }

  lemma KnownIsPlain(e: Element)
    requires Known(e)
    ensures PlainType(e)
  {
  }

  /** The steps of a difference in terms of the two tables. */
  lemma Listed(o: seq<Element>, od: map<string, Element>, n: seq<Element>, nd: map<string, Element>)
    requires UniqueKeys(o) && UniqueKeys(n)
    ensures var d := DiffOf(o, od, n, nd);
      && (forall e :: (e, Remove) in d <==> e in o && ElemKey(e) !in nd)
      && (forall e :: (e, DiffType.Add) in d <==> e in n && ElemKey(e) !in od)
      && (forall e :: (e, DiffType.Change) in d <==> e in n && ElemKey(e) in od && Differs(e, od))
  {
    hide Removals, Updates, Print, ElemKey;
    RemovalsMeaning(o, nd);
    UpdatesMeaning(n, od);
    assert forall e, t :: (e, t) in DiffOf(o, od, n, nd) <==> (e, t) in Removals(o, nd) || (e, t) in Updates(n, od);
  }

  /** Elements with the same key are of the same kind, and the old one is reworded exactly if the new one is. */
  lemma Counterpart(c: Element, o: seq<Element>, od: map<string, Element>, n: seq<Element>, nd: map<string, Element>)
    requires Agrees(o, od) && Agrees(n, nd) && (forall e :: e in o + n ==> PlainType(e))
    requires c in n && ElemKey(c) in od
    ensures var e := od[ElemKey(c)];
      e in o && ElemKey(e) == ElemKey(c) && (IsIndex(e) <==> IsIndex(c)) && (Differs(e, nd) <==> Differs(c, od))
  {
    InDictionary(n, nd);
    KeysMatch(o, od);
    InDomain(o, od);
    hide ElemKey, Print;
    SameKey(od[ElemKey(c)], c);
  }

  lemma InDomain(es: seq<Element>, d: map<string, Element>)
    requires Agrees(es, d)
    ensures forall k :: k in d ==> d[k] in es
  {
    forall k | k in d ensures d[k] in es {
      var i :| 0 <= i < |es| && Keys(es)[i] == k;
    }
  }

  /** The kinds in terms of the two tables. */
  lemma SortedIsPlan(plan: Plan, o: seq<Element>, od: map<string, Element>, n: seq<Element>, nd: map<string, Element>)
    requires UniqueKeys(o) && Agrees(o, od) && UniqueKeys(n) && Agrees(n, nd)
    requires Sorted(plan, DiffOf(o, od, n, nd), od)
    requires forall e :: e in o + n ==> PlainType(e)
    ensures PlanFor(plan, o, od, n, nd)
  {
    hide DiffOf, Print, ElemKey, Keys, IsIndex, UniqueKeys, Agrees, PlainType;
    Listed(o, od, n, nd);
    InDictionary(o, od);
    InDictionary(n, nd);
    InDomain(n, nd);
    KeysMatch(n, nd);
    var d := DiffOf(o, od, n, nd);
    hide Differs;
    forall e | e in plan.otherdel ensures e in o && IsIndex(e) && Differs(e, nd) {
      if IsIndex(e) && (e, Remove) in d {
        NewDiffers(e, nd);
      } else {
        var c :| IsIndex(c) && (c, DiffType.Change) in d && ElemKey(c) in od && e == od[ElemKey(c)];
        Counterpart(c, o, od, n, nd);
      }
    }
    forall e | e in o && IsIndex(e) && Differs(e, nd) ensures e in plan.otherdel {
      if ElemKey(e) in nd {
        var c := nd[ElemKey(e)];
        Counterpart(c, o, od, n, nd);
        assert (c, DiffType.Change) in d;
      } else {
        assert (e, Remove) in d;
      }
    }
    forall e ensures e in plan.otheradd <==> e in n && IsIndex(e) && Differs(e, od) {
      if ElemKey(e) !in od {
        NewDiffers(e, od);
      }
    }
  }

  lemma NewDiffers(e: Element, d: map<string, Element>)
    requires ElemKey(e) !in d
    ensures Differs(e, d)
  {
  }

  method Classify(diff: Diff, od: map<string, Element>) returns (plan: Plan)
    requires Distinct(DiffKeys(diff))
    requires forall e :: (e, DiffType.Change) in diff ==> ElemKey(e) in od
    requires forall k :: k in od ==> ElemKey(od[k]) == k
    ensures Sorted(plan, diff, od)
  {
    hide *;
    plan := Plan([], [], [], [], []);
    NothingSorted(od);
    for i := 0 to |diff|
      invariant Sorted(plan, diff[..i], od)
    {
      var (elem, difftype) := diff[i];
      assert diff[..i + 1] == diff[..i] + [diff[i]] && diff[i] in diff;
      DistinctPrefix(diff, i + 1);
      SortStep(plan, diff[..i], diff[i], od);
      SortCases(plan, diff[i], od);
      if elem.elemtype == "primary-key" || elem.elemtype == "index" {
        if difftype == DiffType.Add {
          plan := plan.(otheradd := plan.otheradd + [elem]);
        } else if difftype == Remove {
          plan := plan.(otherdel := plan.otherdel + [elem]);
        } else {
          plan := plan.(otherdel := plan.otherdel + [od[ElemKey(elem)]], otheradd := plan.otheradd + [elem]);
        }
      } else if difftype == DiffType.Add {
        plan := plan.(coladd := plan.coladd + [elem]);
      } else if difftype == Remove {
        plan := plan.(coldel := plan.coldel + [elem]);
      } else {
        plan := plan.(colchanged := plan.colchanged + [elem]);
      }
    }
    assert diff[..|diff|] == diff;
  }

  lemma NothingSorted(od: map<string, Element>)
    ensures Sorted(Plan([], [], [], [], []), [], od)
  {
  }

  lemma DistinctPrefix(diff: Diff, i: nat)
    requires Distinct(DiffKeys(diff)) && i <= |diff|
    ensures Distinct(DiffKeys(diff[..i]))
  {
    assert DiffKeys(diff[..i]) == DiffKeys(diff)[..i];
  }

  lemma SortCases(plan: Plan, step: (Element, DiffType), od: map<string, Element>)
    requires step.1 == DiffType.Change ==> ElemKey(step.0) in od
    ensures IsIndex(step.0) <==> step.0.elemtype == "primary-key" || step.0.elemtype == "index"
    ensures SortOne(plan, step, od) ==
      if IsIndex(step.0) then
        if step.1 == DiffType.Add then plan.(otheradd := plan.otheradd + [step.0])
        else if step.1 == Remove then plan.(otherdel := plan.otherdel + [step.0])
        else plan.(otherdel := plan.otherdel + [od[ElemKey(step.0)]], otheradd := plan.otheradd + [step.0])
      else if step.1 == DiffType.Add then plan.(coladd := plan.coladd + [step.0])
      else if step.1 == Remove then plan.(coldel := plan.coldel + [step.0])
      else plan.(colchanged := plan.colchanged + [step.0])
  {
  }

  // ---------------------------------------------------------------- states on the way

  /** The columns of base, with those of es laid over them. */
  ghost predicate Laid(base: map<string, Column>, cols: map<string, Column>, es: seq<Element>, relaxed: set<string>) {
    && cols.Keys == base.Keys + Names(es)
    && (forall e :: e in es ==> Near(cols[Name(e)], e, Name(e) in relaxed))
    && (forall n :: n in base && n !in Names(es) ==> cols[n] == base[n])
  }

  lemma LaidStep(base: map<string, Column>, cols: map<string, Column>, es: seq<Element>, relaxed: set<string>,
                 e: Element, c: Column)
    requires Laid(base, cols, es, relaxed) && Name(e) !in Names(es) && Near(c, e, Name(e) in relaxed)
    ensures Laid(base, cols[Name(e) := c], es + [e], relaxed)
  {
    hide Near;
    assert Names(es + [e]) == Names(es) + {Name(e)};
  }

  ghost predicate Rebuilt(tab: string, base: map<string, Index>, idx: map<string, Index>, es: seq<Element>) {
    && idx.Keys == base.Keys + IndexNames(tab, es)
    && (forall e :: e in es ==> idx[IndexName(tab, e)] == IndexOf(e))
    && (forall n :: n in base && n !in IndexNames(tab, es) ==> idx[n] == base[n])
  }

  lemma RebuiltStep(tab: string, base: map<string, Index>, idx: map<string, Index>, es: seq<Element>, e: Element)
    requires Rebuilt(tab, base, idx, es) && IndexName(tab, e) !in idx
    ensures Rebuilt(tab, base, idx[IndexName(tab, e) := IndexOf(e)], es + [e])
  {
    hide IndexOf, IndexName;
    assert IndexNames(tab, es + [e]) == IndexNames(tab, es) + {IndexName(tab, e)};
  }

  lemma NamesStep(es: seq<Element>, i: nat)
    requires i < |es|
    ensures es[..i + 1] == es[..i] + [es[i]] && Names(es[..i + 1]) == Names(es[..i]) + {Name(es[i])}
    ensures forall tab: string :: IndexNames(tab, es[..i + 1]) == IndexNames(tab, es[..i]) + {IndexName(tab, es[i])}
    ensures es[..|es|] == es && es[..0] == []
  {
    hide Name, IndexName;
    assert es[..i + 1] == es[..i] + [es[i]];
  }

  // ---------------------------------------------------------------- errors

  /** The last statement was refused with that error. */
  ghost predicate FailedLast(before: seq<(Stmt, int)>, after: seq<(Stmt, int)>, err: int) {
    before < after && err != 0 && after[|after| - 1].1 == err
  }

  /** No column is dropped but those named. */
  ghost predicate Spares(before: seq<(Stmt, int)>, after: seq<(Stmt, int)>, dropped: set<string>) {
    before <= after && forall k :: |before| <= k < |after| && after[k].0.DropColumn? ==> after[k].0.name in dropped
  }

  /** What the undo reports: every index that could not be made again. */
  function CreateErrors(h: seq<(Stmt, int)>, from: nat): seq<PutError> {
    if |h| <= from then []
    else
      var (stmt, err) := h[|h| - 1];
      CreateErrors(h[..|h| - 1], from) + if stmt.CreateIndex? && err != 0 then [SqlFailed(err)] else []
  }

  lemma {:induction false} NoneCreated(before: seq<(Stmt, int)>, after: seq<(Stmt, int)>, from: nat)
    requires before <= after && forall k :: |before| <= k < |after| ==> !after[k].0.CreateIndex?
    ensures CreateErrors(after, from) == CreateErrors(before, from)
    decreases |after|
  {
    if |before| == |after| {
      assert before == after;
    } else {
      NoneCreated(before, after[..|after| - 1], from);
      if |after| <= from {
        assert CreateErrors(before, from) == [];
      }
    }
  }

  lemma OneCreated(before: seq<(Stmt, int)>, from: nat, answered: (Stmt, int))
    requires from <= |before| && answered.0.CreateIndex?
    ensures CreateErrors(before + [answered], from) ==
      CreateErrors(before, from) + if answered.1 != 0 then [SqlFailed(answered.1)] else []
  {
    assert (before + [answered])[..|before|] == before;
  }

  /** What stopped the transaction: the statement before, or a column that may not be dropped and added again. */
  ghost predicate Stopped(errs: seq<PutError>, before: seq<(Stmt, int)>, after: seq<(Stmt, int)>, changed: seq<Element>,
                          errWhenAltering: map<string, Option<int>>, destructive: bool) {
    && |errs| == 1
    && match errs[0]
       case SqlFailed(err) => FailedLast(before, after, err)
       case RefusingToReadd(column, err) => !destructive && Refuses(column, err, changed, errWhenAltering)
       case RefusingToDrop(_) => false
  }

  ghost predicate Refuses(column: string, err: int, changed: seq<Element>, errWhenAltering: map<string, Option<int>>) {
    err != 515 && exists e :: e in changed && Name(e) == column && Anticipated(e, err, errWhenAltering)
  }

  predicate Anticipated(e: Element, err: int, errWhenAltering: map<string, Option<int>>) {
    ElemKey(e) in errWhenAltering && errWhenAltering[ElemKey(e)] == Some(err)
  }

  /** Statements on columns or indexes and how they failed. */
  function Failures(h: seq<(Stmt, int)>, from: nat): set<(string, int)> {
    set k | from <= k < |h| && !Control(h[k].0) && h[k].1 != 0 :: (h[k].0.name, h[k].1)
  }

  lemma FailuresGrow(before: seq<(Stmt, int)>, from: nat, after: seq<(Stmt, int)>, from': nat)
    requires before <= after && from' <= from
    ensures Failures(before, from) <= Failures(after, from')
  {
    forall f | f in Failures(before, from) ensures f in Failures(after, from') {
      var k :| from <= k < |before| && !Control(before[k].0) && before[k].1 != 0
        && (before[k].0.name, before[k].1) == f;
      assert after[k] == before[k];
    }
  }

  // ---------------------------------------------------------------- the statements

  const TABLE_UPDATE := "TableUpdate"
  const COLTEST := "coltest"

  method DropTableColumn(dbi: Database, col: Element) returns (err: int)
    modifies dbi
    ensures Spares(old(dbi.history), dbi.history, {Name(col)})
    ensures Quiet(old(dbi.history), dbi.history, TABLE_UPDATE)
    ensures err == 0 <==> AllFine(dbi.history, |old(dbi.history)|)
    ensures err != 0 ==> FailedLast(old(dbi.history), dbi.history, err)
    ensures forall k :: |old(dbi.history)| <= k < |dbi.history| ==> !dbi.history[k].0.CreateIndex?
    ensures err == 0 ==> dbi.s == old(dbi.s).(now := old(dbi.s).now.(cols := old(dbi.s).now.cols - {Name(col)}))
    ensures dbi.Willing() && Fits(old(dbi.s).now.cols, col) ==> err == 0
    ensures old(dbi.s).saved.Some? ==> Home(dbi.s) == Home(old(dbi.s))
    ensures old(dbi.s).saved.None? ==> dbi.s.saved.None?
  {
    if HasDefault(col) {
      err := dbi.Exec(DropConstraint(Name(col)));
      if err != 0 {
        assert dbi.history[|old(dbi.history)|].1 == err;
        return;
      }
    }
    err := dbi.Exec(DropColumn(Name(col)));
    assert dbi.history[|dbi.history| - 1].1 == err;
  }

  /** The column is there, with a default constraint exactly if the element says so. */
  predicate Fits(cols: map<string, Column>, e: Element) {
    Name(e) in cols && (cols[Name(e)].dflt != "" <==> HasDefault(e))
  }

  /** Only that column changed, and it is now as the element says. */
  ghost predicate Altered(was: Table, now: Table, e: Element, relax: bool) {
    && Name(e) in now.cols && Near(now.cols[Name(e)], e, relax)
    && now == was.(cols := was.cols[Name(e) := now.cols[Name(e)]])
  }

  predicate Complains(answered: (Stmt, int), name: string) {
    Complaint(answered.0, answered.1) && answered.0.name == name
  }

  /** The last statement was one on that, and refused with that error. */
  predicate FailedOn(history: seq<(Stmt, int)>, name: string, err: int) {
    && |history| > 0 && history[|history| - 1].1 == err != 0
    && !Control(history[|history| - 1].0) && history[|history| - 1].0.name == name
  }

  /** All statements were on that, and if they are to be fine, they are. */
  ghost predicate OnlyOn(before: seq<(Stmt, int)>, after: seq<(Stmt, int)>, name: string, fine: bool) {
    && before <= after
    && (forall k :: |before| <= k < |after| ==>
          !Control(after[k].0) && after[k].0.name == name && (fine ==> after[k].1 == 0))
  }

  /** Statements on that column: it is dropped only to be added again, where that was expected to be needed, and altered
      only where that was expected to work. */
  predicate Fitting(stmt: Stmt, name: string, expected: Option<int>, destructive: bool) {
    && !Control(stmt) && !stmt.CreateIndex? && stmt.name == name
    && (stmt.DropColumn? ==> expected.Some? && destructive)
    && (stmt.AlterColumn? && expected.Some? ==> expected.value == 515 && !destructive)
  }

  ghost predicate Attempt(before: seq<(Stmt, int)>, after: seq<(Stmt, int)>, name: string, expected: Option<int>,
                          destructive: bool, fine: bool) {
    && before <= after
    && (forall k :: |before| <= k < |after| ==>
          Fitting(after[k].0, name, expected, destructive) && (fine ==> after[k].1 == 0))
  }

  lemma AttemptMeans(before: seq<(Stmt, int)>, after: seq<(Stmt, int)>, name: string, expected: Option<int>,
                     destructive: bool, fine: bool)
    requires Attempt(before, after, name, expected, destructive, fine)
    ensures Spares(before, after, if expected.Some? && destructive then {name} else {})
    ensures Quiet(before, after, TABLE_UPDATE) && OnlyOn(before, after, name, fine)
  {
  }

  lemma AttemptBegun(h: seq<(Stmt, int)>, name: string, expected: Option<int>, destructive: bool)
    ensures Attempt(h, h, name, expected, destructive, true)
  {
  }

  lemma AttemptMore(h: seq<(Stmt, int)>, before: seq<(Stmt, int)>, after: seq<(Stmt, int)>, name: string,
                    expected: Option<int>, destructive: bool, stmt: Stmt, err: int)
    requires Attempt(h, before, name, expected, destructive, true) && after == before + [(stmt, err)]
    requires Fitting(stmt, name, expected, destructive)
    ensures h <= after && Attempt(h, after, name, expected, destructive, err == 0)
  {
    hide Fitting;
  }

  lemma AttemptJoin(h: seq<(Stmt, int)>, before: seq<(Stmt, int)>, after: seq<(Stmt, int)>, name: string,
                    expected: Option<int>, destructive: bool, fine: bool)
    requires Attempt(h, before, name, expected, destructive, true)
    requires Attempt(before, after, name, expected, destructive, fine)
    ensures h <= before <= after && Attempt(h, after, name, expected, destructive, fine)
  {
    hide Fitting;
    forall k | |h| <= k < |before| ensures after[k] == before[k] {}
  }

  /** The middle part of ApplyChangedColumn, once the old default is gone. */
  method ChangeDefinition(dbi: Database, newelem: Element, expected: Option<int>, destructive: bool)
      returns (err: int, refused: Option<PutError>)
    requires dbi.s.saved.Some? && Name(newelem) in dbi.s.now.cols && dbi.s.now.cols[Name(newelem)].dflt == ""
    modifies dbi
    ensures Attempt(old(dbi.history), dbi.history, Name(newelem), expected, destructive, err == 0)
    ensures Home(dbi.s) == Home(old(dbi.s))
    ensures err != 0 ==> FailedLast(old(dbi.history), dbi.history, err) && FailedOn(dbi.history, Name(newelem), err)
    ensures err == 515 && !destructive ==> Complains(dbi.history[|dbi.history| - 1], Name(newelem))
    ensures dbi.Willing() ==> err == 0
    ensures refused.Some? <==> err == 0 && expected.Some? && expected.value != 515 && !destructive
    ensures refused.Some? ==> refused.value == RefusingToReadd(Name(newelem), expected.value)
    ensures err == 0 && refused.None? ==> dbi.s == Placed(old(dbi.s), Name(newelem),
      ColumnOf(if expected.Some? && !destructive then NullableColumn(newelem) else newelem,
               expected.Some? && destructive))
  {
    hide ColumnOf, NullableColumn, Name, Attempt;
    var colname := Name(newelem);
    refused := None;
    ghost var h := dbi.history;
    AttemptBegun(h, colname, expected, destructive);
    if expected.None? {
      BareColumn(newelem);
      err := dbi.Exec(AlterColumn(colname, ColumnOf(newelem, false)));
      AttemptMore(h, h, dbi.history, colname, expected, destructive,
                  AlterColumn(colname, ColumnOf(newelem, false)), err);
    } else if destructive {
      err := dbi.Exec(DropColumn(colname));
      AttemptMore(h, h, dbi.history, colname, expected, destructive, DropColumn(colname), err);
      ghost var h1 := dbi.history;
      if err != 0 {
        return;
      }
      ghost var mid := dbi.s;
      err := dbi.Exec(AddColumn(colname, ColumnOf(newelem, true)));
      AttemptMore(h, h1, dbi.history, colname, expected, destructive, AddColumn(colname, ColumnOf(newelem, true)), err);
      if err == 0 {
        assert dbi.s.now.cols == old(dbi.s).now.cols[colname := ColumnOf(newelem, true)];
      }
    } else if expected.value == 515 {
      BareColumn(NullableColumn(newelem));
      err := dbi.Exec(AlterColumn(colname, ColumnOf(NullableColumn(newelem), false)));
      AttemptMore(h, h, dbi.history, colname, expected, destructive,
                  AlterColumn(colname, ColumnOf(NullableColumn(newelem), false)), err);
    } else {
      return 0, Some(RefusingToReadd(colname, expected.value));
    }
  }

  function Placed(s: Session, name: string, c: Column): Session {
    s.(now := s.now.(cols := s.now.cols[name := c]))
  }

  lemma BareColumn(e: Element)
    ensures ColumnOf(e, false).dflt == "" && ColumnOf(e, false).(dflt := Param(e, "default")) == ColumnOf(e, true)
    ensures Param(e, "default") == "" ==> ColumnOf(e, false) == ColumnOf(e, true)
  {
  }

  method ApplyChangedColumn(dbi: Database, oldelem: Element, newelem: Element, expected: Option<int>, destructive: bool)
      returns (err: int, refused: Option<PutError>)
    requires dbi.s.saved.Some? && Fits(dbi.s.now.cols, oldelem)
    requires Name(oldelem) == Name(newelem) && newelem.elemtype == "column"
    modifies dbi
    ensures Attempt(old(dbi.history), dbi.history, Name(newelem), expected, destructive, err == 0)
    ensures Home(dbi.s) == Home(old(dbi.s))
    ensures err != 0 ==> FailedLast(old(dbi.history), dbi.history, err) && FailedOn(dbi.history, Name(newelem), err)
    ensures err == 515 && !destructive ==> Complains(dbi.history[|dbi.history| - 1], Name(newelem))
    ensures dbi.Willing() ==> err == 0
    ensures refused.Some? ==> err == 0 && expected.Some? && expected.value != 515 && !destructive
    ensures refused.Some? ==> refused.value == RefusingToReadd(Name(newelem), expected.value)
    ensures err == 0 && expected.Some? && expected.value != 515 && !destructive ==> refused.Some?
    ensures err == 0 && refused.None? ==>
      && dbi.s.saved == old(dbi.s).saved
      && Altered(old(dbi.s).now, dbi.s.now, newelem, expected.Some? && !destructive)
  {
    hide ColumnOf, NullableColumn, Name, Param, Home, Near, Failed, GetParam, AllowNull,
      Attempt;
    var colname := Name(newelem);
    ghost var was := dbi.s;
    refused := None;
    ghost var h := dbi.history;
    AttemptBegun(h, colname, expected, destructive);
    if HasDefault(oldelem) {
      err := dbi.Exec(DropConstraint(colname));
      AttemptMore(h, h, dbi.history, colname, expected, destructive, DropConstraint(colname), err);
      if err != 0 {
        return;
      }
    }
    assert dbi.s.now.cols[colname].dflt == "" && dbi.s == Placed(was, colname, dbi.s.now.cols[colname]);
    ghost var h1 := dbi.history;
    err, refused := ChangeDefinition(dbi, newelem, expected, destructive);
    AttemptJoin(h, h1, dbi.history, colname, expected, destructive, err == 0);
    ghost var h2 := dbi.history;
    if err != 0 || refused.Some? {
      return;
    }
    ghost var target := if expected.Some? && !destructive then NullableColumn(newelem) else newelem;
    DefaultKept(newelem);
    BareColumn(target);
    if HasDefault(newelem) && !(expected.Some? && destructive) {
      err := dbi.Exec(AddConstraint(colname, Param(newelem, "default")));
      AttemptMore(h, h2, dbi.history, colname, expected, destructive,
                  AddConstraint(colname, Param(newelem, "default")), err);
    }
    if err == 0 {
      assert dbi.s == Placed(was, colname, ColumnOf(target, true));
      IsNear(newelem, expected.Some? && !destructive);
    }
  }

  lemma DefaultKept(e: Element)
    ensures Param(NullableColumn(e), "default") == Param(e, "default")
  {
    AllowNullParam(e.parameters, "default");
  }

  lemma IsNear(e: Element, relax: bool)
    ensures Near(ColumnOf(if relax then NullableColumn(e) else e, true), e, relax)
  {
  }

  /** The error of a statement on the column; and it may be made nullable only if it would have to hold nulls. */
  ghost predicate Expected(e: Element, errWhenAltering: map<string, Option<int>>, complaints: set<string>,
                           failures: set<(string, int)>) {
    && ElemKey(e) in errWhenAltering && (errWhenAltering[ElemKey(e)] == Some(515) ==> Name(e) in complaints)
    && (errWhenAltering[ElemKey(e)].Some? ==> (Name(e), errWhenAltering[ElemKey(e)].value) in failures)
  }

  /** Where no error is to be expected there was none. */
  ghost predicate Silent(e: Element, errWhenAltering: map<string, Option<int>>, failures: set<(string, int)>) {
    ElemKey(e) in errWhenAltering
    && (errWhenAltering[ElemKey(e)] == None ==> forall err :: (Name(e), err) !in failures)
  }

  /** The failures of one trial. */
  lemma TrialFailures(before: seq<(Stmt, int)>, start: seq<(Stmt, int)>, tried: seq<(Stmt, int)>,
                      after: seq<(Stmt, int)>, n: nat, name: string, thrown: int)
    requires n <= |before| && before <= start && |start| == |before| + 1 && Control(start[|before|].0)
    requires OnlyOn(start, tried, name, thrown == 0)
    requires tried <= after && |after| == |tried| + 1 && Control(after[|tried|].0)
    ensures forall f :: f in Failures(after, n) ==> f in Failures(before, n) || (f.0 == name && thrown != 0)
  {
    assert tried[|before|] == start[|before|] && after[|before|] == tried[|before|];
    forall f | f in Failures(after, n) ensures f in Failures(before, n) || (f.0 == name && thrown != 0) {
      var k :| n <= k < |after| && !Control(after[k].0) && after[k].1 != 0 && (after[k].0.name, after[k].1) == f;
      if k < |before| {
        assert after[k] == before[k];
      } else if k < |tried| {
        assert after[k] == tried[k];
      }
    }
  }

  lemma StillSilent(es: seq<Element>, i: nat, errWhenAltering: map<string, Option<int>>, answer: Option<int>,
                    before: set<(string, int)>, after: set<(string, int)>)
    requires UniqueKeys(es) && i < |es| && forall e :: e in es ==> e.elemtype == "column"
    requires forall k :: 0 <= k < i ==> Silent(es[k], errWhenAltering, before)
    requires forall f :: f in before ==> f.0 in Names(es[..i])
    requires forall f :: f in after ==> f in before || (f.0 == Name(es[i]) && answer.Some?)
    ensures forall k :: 0 <= k <= i ==> Silent(es[k], errWhenAltering[ElemKey(es[i]) := answer], after)
    ensures forall f :: f in after ==> f.0 in Names(es[..i + 1])
  {
    NotYetChanged(es, i);
    NamesStep(es, i);
    hide Name, ElemKey;
    forall k | 0 <= k < i ensures ElemKey(es[k]) != ElemKey(es[i]) && Name(es[k]) != Name(es[i]) {
      assert es[..i][k] == es[k] && es[k] in es[..i];
      assert Keys(es)[k] != Keys(es)[i];
    }
  }

  /** No errors to expect. */
  predicate Calm(errWhenAltering: map<string, Option<int>>) {
    forall k :: k in errWhenAltering ==> errWhenAltering[k] == None
  }

  lemma NoFailures(h: seq<(Stmt, int)>)
    ensures Failures(h, |h|) == {}
  {
  }

  lemma ColumnsAll(es: seq<Element>, curtable: map<string, Element>, cols: map<string, Column>)
    requires forall e :: e in es ==> Changeable(e, curtable, cols)
    ensures forall e :: e in es ==> e.elemtype == "column"
  {
    hide Fits, ElemKey, Name;
  }

  /** Each changed column tried the easy way and rolled back: the errors to expect, and no trace in the table. */
  method TrialRuns(dbi: Database, colchanged: seq<Element>, curtable: map<string, Element>)
      returns (errWhenAltering: map<string, Option<int>>, err: int)
    requires dbi.s.saved.None? && UniqueKeys(colchanged)
    requires forall e :: e in colchanged ==> Changeable(e, curtable, dbi.s.now.cols)
    modifies dbi
    ensures Spares(old(dbi.history), dbi.history, {})
    ensures Quiet(old(dbi.history), dbi.history, TABLE_UPDATE)
    ensures Home(dbi.s) == old(dbi.s).now
    ensures err == 0 ==> dbi.s == old(dbi.s)
    ensures err == 0 ==> forall e :: e in colchanged ==>
      Silent(e, errWhenAltering, Failures(dbi.history, |old(dbi.history)|))
    ensures dbi.Willing() ==> err == 0 && Calm(errWhenAltering)
    ensures err != 0 ==> FailedLast(old(dbi.history), dbi.history, err)
    ensures err == 0 ==> forall e :: e in colchanged ==>
      Expected(e, errWhenAltering, Complaints(dbi.history, |old(dbi.history)|),
        Failures(dbi.history, |old(dbi.history)|))
  {
    hide Complaints, Failures, FailedOn, Silent, OnlyOn, Attempt, Name, Names, Changeable, Fits, Complaint, Expected,
      UniqueKeys;
    errWhenAltering := map[];
    ghost var n := |dbi.history|;
    NoFailures(dbi.history);
    ColumnsAll(colchanged, curtable, dbi.s.now.cols);
    for i := 0 to |colchanged|
      invariant Spares(old(dbi.history), dbi.history, {})
      invariant dbi.s == old(dbi.s) && (dbi.Willing() ==> Calm(errWhenAltering))
      invariant Quiet(old(dbi.history), dbi.history, TABLE_UPDATE)
      invariant forall k :: 0 <= k < i ==> Silent(colchanged[k], errWhenAltering, Failures(dbi.history, n))
      invariant forall f :: f in Failures(dbi.history, n) ==> f.0 in Names(colchanged[..i])
      invariant forall k :: 0 <= k < i ==>
        Expected(colchanged[k], errWhenAltering, Complaints(dbi.history, n), Failures(dbi.history, n))
    {
      var elem := colchanged[i];
      ghost var before := dbi.history;
      assert Changeable(elem, curtable, dbi.s.now.cols);
      ChangeableParts(elem, curtable, dbi.s.now.cols);
      err := dbi.Exec(Begin(COLTEST));
      if err != 0 {
        return;
      }
      ghost var start := dbi.history;
      var thrown, _ := ApplyChangedColumn(dbi, curtable[ElemKey(elem)], elem, None, false);
      ghost var tried := dbi.history;
      AttemptMeans(start, tried, Name(elem), None, false, thrown == 0);
      if thrown == 515 {
        ComplainedNow(tried, n, Name(elem));
      }
      if thrown != 0 {
        FailedNow(tried, n, Name(elem), thrown);
      }
      var _, rollbackErr := dbi.DbiExecRollback(COLTEST);
      FailuresGrow(before, n, dbi.history, n);
      FailuresGrow(tried, n, dbi.history, n);
      ComplaintsGrow(before, n, dbi.history, n);
      ComplaintsGrow(tried, n, dbi.history, n);
      if rollbackErr != 0 {
        return errWhenAltering, rollbackErr;
      }
      var answer := if thrown == 0 then None else Some(thrown);
      TrialFailures(before, start, tried, dbi.history, n, Name(elem), thrown);
      StillSilent(colchanged, i, errWhenAltering, answer, Failures(before, n), Failures(dbi.history, n));
      StillExpected(colchanged, i, errWhenAltering, answer, Complaints(before, n), Complaints(dbi.history, n),
                    Failures(before, n), Failures(dbi.history, n));
      errWhenAltering := errWhenAltering[ElemKey(elem) := answer];
    }
    err := 0;
  }

  lemma StillExpected(es: seq<Element>, i: nat, errWhenAltering: map<string, Option<int>>, answer: Option<int>,
                      before: set<string>, after: set<string>,
                      failedBefore: set<(string, int)>, failedAfter: set<(string, int)>)
    requires UniqueKeys(es) && i < |es| && before <= after && (answer == Some(515) ==> Name(es[i]) in after)
    requires failedBefore <= failedAfter && (answer.Some? ==> (Name(es[i]), answer.value) in failedAfter)
    requires forall k :: 0 <= k < i ==> Expected(es[k], errWhenAltering, before, failedBefore)
    ensures forall k :: 0 <= k <= i ==> Expected(es[k], errWhenAltering[ElemKey(es[i]) := answer], after, failedAfter)
  {
    hide Name, ElemKey;
    forall k | 0 <= k < i ensures ElemKey(es[k]) != ElemKey(es[i]) {
      assert Keys(es)[k] != Keys(es)[i];
    }
  }

  lemma FailedNow(history: seq<(Stmt, int)>, n: nat, name: string, err: int)
    requires |history| > n && FailedOn(history, name, err)
    ensures (name, err) in Failures(history, n)
  {
  }

  lemma ChangeableParts(e: Element, curtable: map<string, Element>, cols: map<string, Column>)
    requires Changeable(e, curtable, cols)
    ensures e.elemtype == "column" && ElemKey(e) in curtable
    ensures Name(curtable[ElemKey(e)]) == Name(e) && Fits(cols, curtable[ElemKey(e)])
  {
  }

  /** A column element whose old form is in the table and in its description. */
  predicate Changeable(e: Element, curtable: map<string, Element>, cols: map<string, Column>) {
    && e.elemtype == "column" && ElemKey(e) in curtable
    && Name(curtable[ElemKey(e)]) == Name(e) && Fits(cols, curtable[ElemKey(e)])
  }

  predicate IndexesApart(tab: string, es: seq<Element>) {
    forall i, j :: 0 <= i < j < |es| ==> IndexName(tab, es[i]) != IndexName(tab, es[j])
  }

  predicate ColumnsApart(es: seq<Element>) {
    forall i, j :: 0 <= i < j < |es| ==> Name(es[i]) != Name(es[j])
  }

  lemma NextIsNew(tab: string, es: seq<Element>, i: nat)
    requires i < |es|
    ensures IndexesApart(tab, es) ==> IndexName(tab, es[i]) !in IndexNames(tab, es[..i])
    ensures ColumnsApart(es) ==> Name(es[i]) !in Names(es[..i])
  {
    hide Name, IndexName;
  }

  lemma OneOfThem(tab: string, es: seq<Element>, i: nat)
    requires i < |es|
    ensures es[i] in es && IndexName(tab, es[i]) in IndexNames(tab, es) && Name(es[i]) in Names(es)
  {
  }

  /** Indexes go first, outside any transaction. */
  method DropIndexes(dbi: Database, otherdel: seq<Element>, tab: string) returns (err: int)
    requires dbi.s.saved.None?
    modifies dbi
    ensures Spares(old(dbi.history), dbi.history, {})
    ensures Quiet(old(dbi.history), dbi.history, TABLE_UPDATE)
    ensures err != 0 ==> FailedLast(old(dbi.history), dbi.history, err)
    ensures dbi.s.saved.None?
    ensures dbi.Willing() && IndexesApart(tab, otherdel) && IndexNames(tab, otherdel) <= old(dbi.s).now.indexes.Keys ==>
      err == 0
    ensures err == 0 ==> IndexNames(tab, otherdel) <= old(dbi.s).now.indexes.Keys
    ensures err == 0 ==> dbi.s.now == old(dbi.s).now.(indexes := old(dbi.s).now.indexes - IndexNames(tab, otherdel))
  {
    hide IndexName, Name;
    ghost var was := dbi.s.now;
    assert was.indexes - IndexNames(tab, otherdel[..0]) == was.indexes;
    for i := 0 to |otherdel|
      invariant Spares(old(dbi.history), dbi.history, {})
      invariant Quiet(old(dbi.history), dbi.history, TABLE_UPDATE)
      invariant dbi.s.saved.None? && IndexNames(tab, otherdel[..i]) <= was.indexes.Keys
      invariant dbi.s.now == was.(indexes := was.indexes - IndexNames(tab, otherdel[..i]))
    {
      NamesStep(otherdel, i);
      NextIsNew(tab, otherdel, i);
      OneOfThem(tab, otherdel, i);
      err := dbi.Exec(DropIndex(IndexName(tab, otherdel[i])));
      if err != 0 {
        return;
      }
      assert was.indexes - IndexNames(tab, otherdel[..i + 1]) ==
        was.indexes - IndexNames(tab, otherdel[..i]) - {IndexName(tab, otherdel[i])};
    }
    assert otherdel[..|otherdel|] == otherdel;
    err := 0;
  }

  /** The last statement asked for a column in its nullable form. */
  ghost predicate TriedNullable(h: seq<(Stmt, int)>, es: seq<Element>) {
    |h| > 0 && exists e :: e in es && h[|h| - 1].0 == AddColumn(Name(e), ColumnOf(NullableColumn(e), true))
  }

  lemma NullableTried(h: seq<(Stmt, int)>, es: seq<Element>, e: Element)
    requires |h| > 0 && e in es && h[|h| - 1].0 == AddColumn(Name(e), ColumnOf(NullableColumn(e), true))
    ensures TriedNullable(h, es)
  {
  }

  /** New columns come before the transaction too; one that cannot be added to existing rows is made nullable. */
  method AddColumns(dbi: Database, coladd: seq<Element>, destructive: bool) returns (err: int)
    requires dbi.s.saved.None?
    modifies dbi
    ensures Spares(old(dbi.history), dbi.history, {})
    ensures Quiet(old(dbi.history), dbi.history, TABLE_UPDATE)
    ensures err != 0 ==> FailedLast(old(dbi.history), dbi.history, err)
    ensures dbi.s.saved.None? && dbi.s.now.indexes == old(dbi.s).now.indexes
    ensures err == 0 ==>
      Laid(old(dbi.s).now.cols, dbi.s.now.cols, coladd, Tolerated(destructive, dbi.history, |old(dbi.history)|))
    ensures dbi.Willing() && ColumnsApart(coladd) && Names(coladd) !! old(dbi.s).now.cols.Keys ==> err == 0
    ensures err == 4901 && !destructive ==> TriedNullable(dbi.history, coladd)
    ensures err == 0 ==> Names(coladd) !! old(dbi.s).now.cols.Keys
  {
    hide Name, Near, ColumnOf, NullableColumn, Tolerated, Laid, TriedNullable;
    ghost var was, n := dbi.s.now, |dbi.history|;
    assert coladd[..0] == [];
    NothingLaid(was.cols, Tolerated(destructive, dbi.history, n));
    for i := 0 to |coladd|
      invariant Spares(old(dbi.history), dbi.history, {})
      invariant Quiet(old(dbi.history), dbi.history, TABLE_UPDATE)
      invariant dbi.s.saved.None? && dbi.s.now.indexes == was.indexes
      invariant Laid(was.cols, dbi.s.now.cols, coladd[..i], Tolerated(destructive, dbi.history, n))
      invariant Names(coladd[..i]) !! was.cols.Keys
    {
      var elem := coladd[i];
      NamesStep(coladd, i);
      NextIsNew("", coladd, i);
      OneOfThem("", coladd, i);
      ghost var before, h := dbi.s.now.cols, dbi.history;
      err := dbi.Exec(AddColumn(Name(elem), ColumnOf(elem, true)));
      ghost var relaxed := Tolerated(destructive, dbi.history, n);
      ToleratedGrows(destructive, h, n, dbi.history, n);
      LaidRelaxes(was.cols, before, coladd[..i], Tolerated(destructive, h, n), relaxed);
      LaidNames(was.cols, before, coladd[..i], relaxed);
      if err == 0 {
        IsNear(elem, false);
        NearRelaxes(ColumnOf(elem, true), elem, false, Name(elem) in relaxed);
        LaidStep(was.cols, before, coladd[..i], relaxed, elem, ColumnOf(elem, true));
      } else if !destructive && err == 4901 {
        var nullable := NullableColumn(elem);
        NullableOnlyRelaxes(elem, true);
        IsNear(elem, true);
        ToleratedNow(dbi.history, n, Name(elem));
        ghost var h1 := dbi.history;
        err := dbi.Exec(AddColumn(Name(nullable), ColumnOf(nullable, true)));
        NullableTried(dbi.history, coladd, elem);
        if err != 0 {
          return;
        }
        ToleratedGrows(destructive, h1, n, dbi.history, n);
        LaidRelaxes(was.cols, before, coladd[..i], relaxed, Tolerated(destructive, dbi.history, n));
        LaidStep(was.cols, before, coladd[..i], Tolerated(destructive, dbi.history, n), elem, ColumnOf(nullable, true));
      } else {
        return;
      }
    }
    assert coladd[..|coladd|] == coladd;
    err := 0;
  }

  /** The columns that may be made nullable. */
  function Tolerated(destructive: bool, history: seq<(Stmt, int)>, from: nat): set<string> {
    if destructive then {} else Complaints(history, from)
  }

  lemma ComplaintsGrow(before: seq<(Stmt, int)>, from: nat, after: seq<(Stmt, int)>, from': nat)
    requires before <= after && from' <= from
    ensures Complaints(before, from) <= Complaints(after, from')
  {
    forall name | name in Complaints(before, from) ensures name in Complaints(after, from') {
      var k :| from <= k < |before| && Complaint(before[k].0, before[k].1) && before[k].0.name == name;
      assert after[k] == before[k];
    }
  }

  lemma ToleratedGrows(destructive: bool, before: seq<(Stmt, int)>, from: nat, after: seq<(Stmt, int)>, from': nat)
    requires before <= after && from' <= from
    ensures Tolerated(destructive, before, from) <= Tolerated(destructive, after, from')
  {
    ComplaintsGrow(before, from, after, from');
  }

  lemma ComplainedNow(history: seq<(Stmt, int)>, n: nat, name: string)
    requires |history| > n && Complains(history[|history| - 1], name)
    ensures name in Complaints(history, n)
  {
  }

  lemma ToleratedNow(history: seq<(Stmt, int)>, n: nat, name: string)
    requires |history| > n && history[|history| - 1].1 == 4901
    requires history[|history| - 1].0.AddColumn? && history[|history| - 1].0.name == name
    ensures name in Tolerated(false, history, n)
  {
    ComplainedNow(history, n, name);
  }

  lemma NothingLaid(base: map<string, Column>, relaxed: set<string>)
    ensures Laid(base, base, [], relaxed) && Names([]) == {}
  {
  }

  lemma LaidNames(base: map<string, Column>, cols: map<string, Column>, es: seq<Element>, relaxed: set<string>)
    requires Laid(base, cols, es, relaxed)
    ensures cols.Keys == base.Keys + Names(es)
  {
  }

  lemma LaidRelaxes(base: map<string, Column>, cols: map<string, Column>, es: seq<Element>, relaxed: set<string>,
                    relaxed': set<string>)
    requires Laid(base, cols, es, relaxed) && relaxed <= relaxed'
    ensures Laid(base, cols, es, relaxed')
  {
    hide ColumnOf, NullableColumn, Name;
  }

  lemma NearRelaxes(c: Column, e: Element, relax: bool, relax': bool)
    requires Near(c, e, relax) && (relax ==> relax')
    ensures Near(c, e, relax')
  {
  }

  /** A difference carried out, as far as columns and indexes go. */
  ghost predicate Carried(tab: string, plan: Plan, was: Table, now: Table, relaxed: set<string>) {
    && Laid(was.cols - Names(plan.coldel), now.cols, plan.colchanged, relaxed)
    && Rebuilt(tab, was.indexes, now.indexes, plan.otheradd) && IndexNames(tab, plan.otheradd) !! was.indexes.Keys
  }

  predicate AllFit(cols: map<string, Column>, es: seq<Element>) {
    forall e :: e in es ==> Fits(cols, e)
  }

  lemma StillFits(cols: map<string, Column>, es: seq<Element>, i: nat)
    requires i < |es|
    ensures ColumnsApart(es) && AllFit(cols, es) ==> Fits(cols - Names(es[..i]), es[i])
  {
    hide Name, HasDefault;
    NextIsNew("", es, i);
    assert es[i] in es;
  }

  method DropColumns(dbi: Database, coldel: seq<Element>) returns (err: int)
    requires dbi.s.saved.Some?
    modifies dbi
    ensures Spares(old(dbi.history), dbi.history, Names(coldel))
    ensures Quiet(old(dbi.history), dbi.history, TABLE_UPDATE)
    ensures err != 0 ==> FailedLast(old(dbi.history), dbi.history, err)
    ensures Home(dbi.s) == Home(old(dbi.s))
    ensures dbi.Willing() && ColumnsApart(coldel) && AllFit(old(dbi.s).now.cols, coldel) ==> err == 0
    ensures err == 0 ==> dbi.s == old(dbi.s).(now := old(dbi.s).now.(cols := old(dbi.s).now.cols - Names(coldel)))
  {
    hide Name;
    ghost var was := dbi.s;
    assert was.now.cols - Names(coldel[..0]) == was.now.cols;
    for i := 0 to |coldel|
      invariant Spares(old(dbi.history), dbi.history, Names(coldel))
      invariant Quiet(old(dbi.history), dbi.history, TABLE_UPDATE)
      invariant dbi.s == was.(now := was.now.(cols := was.now.cols - Names(coldel[..i])))
    {
      NamesStep(coldel, i);
      NextIsNew("", coldel, i);
      OneOfThem("", coldel, i);
      StillFits(was.now.cols, coldel, i);
      err := DropTableColumn(dbi, coldel[i]);
      if err != 0 {
        return;
      }
      assert was.now.cols - Names(coldel[..i + 1]) == was.now.cols - Names(coldel[..i]) - {Name(coldel[i])};
    }
    assert coldel[..|coldel|] == coldel;
    err := 0;
  }

  /** Unless all may be dropped, a column that is to be made nullable is among those named. */
  predicate Nulls(e: Element, errWhenAltering: map<string, Option<int>>, destructive: bool, relaxed: set<string>)
    requires ElemKey(e) in errWhenAltering
  {
    !destructive && errWhenAltering[ElemKey(e)] == Some(515) ==> Name(e) in relaxed
  }

  /** The columns to drop and add again. */
  function Redone(es: seq<Element>, errWhenAltering: map<string, Option<int>>, destructive: bool): set<string> {
    if destructive
    then set e | e in es && ElemKey(e) in errWhenAltering && errWhenAltering[ElemKey(e)].Some? :: Name(e)
    else {}
  }

  method ChangeColumns(dbi: Database, colchanged: seq<Element>, curtable: map<string, Element>,
                       errWhenAltering: map<string, Option<int>>, destructive: bool, ghost relaxed: set<string>)
      returns (errs: seq<PutError>)
    requires dbi.s.saved.Some? && UniqueKeys(colchanged)
    requires forall e :: e in colchanged ==> Changeable(e, curtable, dbi.s.now.cols)
    requires forall e :: e in colchanged ==>
      ElemKey(e) in errWhenAltering && Nulls(e, errWhenAltering, destructive, relaxed)
    modifies dbi
    ensures Spares(old(dbi.history), dbi.history, Redone(colchanged, errWhenAltering, destructive))
    ensures Quiet(old(dbi.history), dbi.history, TABLE_UPDATE)
    ensures Home(dbi.s) == Home(old(dbi.s))
    ensures errs != [] ==>
      Stopped(errs, old(dbi.history), dbi.history, colchanged, errWhenAltering, destructive)
    ensures dbi.Willing() && Calm(errWhenAltering) ==> errs == []
    ensures errs == [] ==> dbi.s.saved == old(dbi.s).saved && dbi.s.now.indexes == old(dbi.s).now.indexes
    ensures errs == [] ==> Laid(old(dbi.s).now.cols, dbi.s.now.cols, colchanged, relaxed)
  {
    hide Name, Near, Param, HasDefault, ElemKey, Home;
    ghost var was := dbi.s;
    assert colchanged[..0] == [];
    for i := 0 to |colchanged|
      invariant Spares(old(dbi.history), dbi.history, Redone(colchanged, errWhenAltering, destructive))
      invariant Quiet(old(dbi.history), dbi.history, TABLE_UPDATE) && Home(dbi.s) == Home(was)
      invariant dbi.s.saved == was.saved && dbi.s.now.indexes == was.now.indexes
      invariant Laid(was.now.cols, dbi.s.now.cols, colchanged[..i], relaxed)
    {
      var elem := colchanged[i];
      assert elem in colchanged && Changeable(elem, curtable, was.now.cols);
      NamesStep(colchanged, i);
      NotYetChanged(colchanged, i);
      ghost var before := dbi.s.now;
      assert Fits(dbi.s.now.cols, curtable[ElemKey(elem)]) by {
        assert Name(elem) in was.now.cols && dbi.s.now.cols[Name(elem)] == was.now.cols[Name(elem)];
      }
      var expected := errWhenAltering[ElemKey(elem)];
      ghost var h := dbi.history;
      var thrown, refused := ApplyChangedColumn(dbi, curtable[ElemKey(elem)], elem, expected, destructive);
      AttemptMeans(h, dbi.history, Name(elem), expected, destructive, thrown == 0);
      if thrown != 0 {
        return [SqlFailed(thrown)];
      } else if refused.Some? {
        return [refused.value];
      }
      NearRelaxes(dbi.s.now.cols[Name(elem)], elem, expected.Some? && !destructive, Name(elem) in relaxed);
      LaidStep(was.now.cols, before.cols, colchanged[..i], relaxed, elem, dbi.s.now.cols[Name(elem)]);
    }
    assert colchanged[..|colchanged|] == colchanged;
    errs := [];
  }

  lemma NotYetChanged(es: seq<Element>, i: nat)
    requires UniqueKeys(es) && i < |es| && forall e :: e in es ==> e.elemtype == "column"
    ensures Name(es[i]) !in Names(es[..i])
  {
    forall e | e in es[..i] ensures Name(e) != Name(es[i]) {
      var j :| 0 <= j < i && es[j] == e;
      assert ElemKey(es[j]) != ElemKey(es[i]);
    }
  }

  method AddIndexes(dbi: Database, otheradd: seq<Element>, tab: string) returns (err: int)
    requires dbi.s.saved.Some?
    modifies dbi
    ensures Spares(old(dbi.history), dbi.history, {})
    ensures Quiet(old(dbi.history), dbi.history, TABLE_UPDATE)
    ensures err != 0 ==> FailedLast(old(dbi.history), dbi.history, err)
    ensures Home(dbi.s) == Home(old(dbi.s))
    ensures dbi.Willing() && IndexesApart(tab, otheradd) && IndexNames(tab, otheradd) !! old(dbi.s).now.indexes.Keys ==>
      err == 0
    ensures err == 0 ==> dbi.s.saved == old(dbi.s).saved && dbi.s.now.cols == old(dbi.s).now.cols
    ensures err == 0 ==> Rebuilt(tab, old(dbi.s).now.indexes, dbi.s.now.indexes, otheradd)
    ensures err == 0 ==> IndexNames(tab, otheradd) !! old(dbi.s).now.indexes.Keys
  {
    hide IndexName, IndexOf;
    ghost var was := dbi.s;
    assert otheradd[..0] == [];
    for i := 0 to |otheradd|
      invariant Spares(old(dbi.history), dbi.history, {})
      invariant Quiet(old(dbi.history), dbi.history, TABLE_UPDATE) && Home(dbi.s) == Home(was)
      invariant dbi.s.saved == was.saved && dbi.s.now.cols == was.now.cols
      invariant Rebuilt(tab, was.now.indexes, dbi.s.now.indexes, otheradd[..i])
      invariant IndexNames(tab, otheradd[..i]) !! was.now.indexes.Keys
    {
      NamesStep(otheradd, i);
      NextIsNew(tab, otheradd, i);
      OneOfThem(tab, otheradd, i);
      ghost var before := dbi.s.now.indexes;
      err := dbi.Exec(CreateIndex(IndexName(tab, otheradd[i]), IndexOf(otheradd[i])));
      if err != 0 {
        return;
      }
      RebuiltStep(tab, was.now.indexes, before, otheradd[..i], otheradd[i]);
    }
    assert otheradd[..|otheradd|] == otheradd;
    err := 0;
  }

  /** Columns to drop are there as their elements say, and no index to make is. */
  predicate Doable(tab: string, plan: Plan, t: Table) {
    && ColumnsApart(plan.coldel) && AllFit(t.cols, plan.coldel)
    && IndexesApart(tab, plan.otheradd) && IndexNames(tab, plan.otheradd) !! t.indexes.Keys
  }

  /** BEGIN TRANSACTION to COMMIT.  Whatever fails, a rollback still leads back to the table as it was. */
  method UpdateInTransaction(dbi: Database, plan: Plan, curtable: map<string, Element>,
                             errWhenAltering: map<string, Option<int>>, tab: string, destructive: bool,
                             ghost relaxed: set<string>)
      returns (errs: seq<PutError>)
    requires dbi.s.saved.None? && UniqueKeys(plan.colchanged)
    requires forall e :: e in plan.colchanged ==> Changeable(e, curtable, dbi.s.now.cols - Names(plan.coldel))
    requires forall e :: e in plan.colchanged ==>
      ElemKey(e) in errWhenAltering && Nulls(e, errWhenAltering, destructive, relaxed)
    modifies dbi
    ensures Spares(old(dbi.history), dbi.history,
                   Names(plan.coldel) + Redone(plan.colchanged, errWhenAltering, destructive))
    ensures old(dbi.history) <= dbi.history
    ensures dbi.Willing() && Calm(errWhenAltering) && Doable(tab, plan, old(dbi.s).now) ==> errs == []
    ensures errs != [] ==> Home(dbi.s) == old(dbi.s).now
    ensures errs != [] ==>
      Stopped(errs, old(dbi.history), dbi.history, plan.colchanged, errWhenAltering, destructive)
    ensures errs == [] ==> dbi.s.saved.None? && Carried(tab, plan, old(dbi.s).now, dbi.s.now, relaxed)
  {
    hide Laid, Rebuilt, Changeable, ElemKey, UniqueKeys, Near;
    var err := dbi.Exec(Begin(TABLE_UPDATE));
    if err != 0 {
      return [SqlFailed(err)];
    }
    err := DropColumns(dbi, plan.coldel);
    if err != 0 {
      return [SqlFailed(err)];
    }
    errs := ChangeColumns(dbi, plan.colchanged, curtable, errWhenAltering, destructive, relaxed);
    if errs != [] {
      return;
    }
    err := AddIndexes(dbi, plan.otheradd, tab);
    if err != 0 {
      return [SqlFailed(err)];
    }
    err := dbi.Exec(Commit(TABLE_UPDATE));
    if err != 0 {
      return [SqlFailed(err)];
    }
  }

  // ---------------------------------------------------------------- undo

  /** The table as it stood when the transaction began: the indexes gone, the new columns in. */
  ghost predicate Prepared(tab: string, was: Table, t: Table, added: seq<Element>, deleted: seq<Element>,
                           relaxed: set<string>) {
    && Laid(was.cols, t.cols, added, relaxed) && Names(added) !! was.cols.Keys
    && t.indexes == was.indexes - IndexNames(tab, deleted) && IndexNames(tab, deleted) <= was.indexes.Keys
  }

  ghost predicate Holds(tab: string, indexes: map<string, Index>, es: seq<Element>) {
    forall e :: e in es ==> IndexName(tab, e) in indexes && indexes[IndexName(tab, e)] == IndexOf(e)
  }

  /** The columns of base and those of es not yet dropped. */
  lemma ColumnsBack(base: map<string, Column>, cols: map<string, Column>, es: seq<Element>, relaxed: set<string>)
    requires Laid(base, cols, es, relaxed) && Names(es) !! base.Keys
    ensures cols - Names(es) == base
  {
    hide Near;
  }

  lemma IndexesBack(tab: string, base: map<string, Index>, idx: map<string, Index>, es: seq<Element>)
    requires IndexNames(tab, es) <= base.Keys && Holds(tab, base, es)
    requires Rebuilt(tab, base - IndexNames(tab, es), idx, es)
    ensures idx == base
  {
    hide IndexOf, IndexName;
    forall n | n in base ensures n in idx && idx[n] == base[n] {
      if n in IndexNames(tab, es) {
        var e :| e in es && IndexName(tab, e) == n;
      }
    }
  }

  method DropAdded(dbi: Database, added: seq<Element>, ghost from: nat)
    requires dbi.s.saved.None?
    modifies dbi
    ensures Spares(old(dbi.history), dbi.history, Names(added))
    ensures old(dbi.history) <= dbi.history && dbi.s.saved.None?
    ensures CreateErrors(dbi.history, from) == CreateErrors(old(dbi.history), from)
    ensures dbi.Willing() && ColumnsApart(added) && AllFit(old(dbi.s).now.cols, added) ==>
      AllFine(dbi.history, |old(dbi.history)|)
    ensures AllFine(dbi.history, |old(dbi.history)|) ==>
      dbi.s.now == old(dbi.s).now.(cols := old(dbi.s).now.cols - Names(added))
  {
    hide Name;
    ghost var was, n := dbi.s.now, |dbi.history|;
    assert was.cols - Names(added[..0]) == was.cols;
    for i := 0 to |added|
      invariant Spares(old(dbi.history), dbi.history, Names(added))
      invariant old(dbi.history) <= dbi.history && dbi.s.saved.None?
      invariant CreateErrors(dbi.history, from) == CreateErrors(old(dbi.history), from)
      invariant dbi.Willing() && ColumnsApart(added) && AllFit(was.cols, added) ==> AllFine(dbi.history, n)
      invariant AllFine(dbi.history, n) ==> dbi.s.now == was.(cols := was.cols - Names(added[..i]))
    {
      NamesStep(added, i);
      NextIsNew("", added, i);
      OneOfThem("", added, i);
      StillFits(was.cols, added, i);
      ghost var before := dbi.history;
      var err := DropTableColumn(dbi, added[i]);  // an error is only logged
      NoneCreated(before, dbi.history, from);
      FineParts(before, dbi.history, n);
      assert was.cols - Names(added[..i + 1]) == was.cols - Names(added[..i]) - {Name(added[i])};
    }
    assert added[..|added|] == added;
  }

  lemma FineParts(before: seq<(Stmt, int)>, after: seq<(Stmt, int)>, n: nat)
    requires before <= after && n <= |before|
    ensures AllFine(after, n) <==> AllFine(before, n) && AllFine(after, |before|)
  {
    if AllFine(after, n) {
      forall k | n <= k < |before| ensures before[k].1 == 0 {
        assert after[k].1 == 0;
      }
    } else if AllFine(before, n) && AllFine(after, |before|) {
      forall k | n <= k < |after| ensures after[k].1 == 0 {
        assert k < |before| ==> before[k].1 == 0;
      }
    }
  }

  method RestoreIndexes(dbi: Database, deleted: seq<Element>, tab: string, ghost from: nat)
    returns (errs: seq<PutError>)
    requires dbi.s.saved.None? && from <= |dbi.history|
    modifies dbi
    ensures Spares(old(dbi.history), dbi.history, {})
    ensures old(dbi.history) <= dbi.history && dbi.s.saved.None?
    ensures CreateErrors(dbi.history, from) == CreateErrors(old(dbi.history), from) + errs
    ensures dbi.Willing() && IndexesApart(tab, deleted) && IndexNames(tab, deleted) !! old(dbi.s).now.indexes.Keys ==>
      AllFine(dbi.history, |old(dbi.history)|)
    ensures AllFine(dbi.history, |old(dbi.history)|) ==>
      (errs == [] && dbi.s.now.cols == old(dbi.s).now.cols
       && Rebuilt(tab, old(dbi.s).now.indexes, dbi.s.now.indexes, deleted))
  {
    hide IndexName, IndexOf, Name, CreateErrors, IndexesApart, Failed;
    ghost var was, n := dbi.s.now, |dbi.history|;
    errs := [];
    assert deleted[..0] == [];
    for i := 0 to |deleted|
      invariant Spares(old(dbi.history), dbi.history, {})
      invariant old(dbi.history) <= dbi.history && dbi.s.saved.None?
      invariant CreateErrors(dbi.history, from) == CreateErrors(old(dbi.history), from) + errs
      invariant dbi.Willing() && IndexesApart(tab, deleted) && IndexNames(tab, deleted) !! was.indexes.Keys ==>
        AllFine(dbi.history, n)
      invariant AllFine(dbi.history, n) ==>
        errs == [] && dbi.s.now.cols == was.cols && Rebuilt(tab, was.indexes, dbi.s.now.indexes, deleted[..i])
    {
      NamesStep(deleted, i);
      NextIsNew(tab, deleted, i);
      OneOfThem(tab, deleted, i);
      ghost var before, indexes := dbi.history, dbi.s.now.indexes;
      var err := dbi.Exec(CreateIndex(IndexName(tab, deleted[i]), IndexOf(deleted[i])));
      OneCreated(before, from, dbi.history[|before|]);
      FineParts(before, dbi.history, n);
      assert dbi.history[|before|].1 == err;
      if err != 0 {
        errs := errs + [SqlFailed(err)];
      } else if AllFine(before, n) {
        RebuiltStep(tab, was.indexes, indexes, deleted[..i], deleted[i]);
      }
    }
    assert deleted[..|deleted|] == deleted;
  }

  /** From the rollback at position n on, every statement worked, if only by finding nothing to roll back. */
  ghost predicate UndoWorked(h: seq<(Stmt, int)>, n: nat) {
    n < |h| && h[n].0 == Rollback(TABLE_UPDATE) && h[n].1 in [0, 3903] && AllFine(h, n + 1)
  }

  lemma NothingYet(h: seq<(Stmt, int)>)
    ensures CreateErrors(h, |h|) == []
  {
  }

  /** When the undo works, the table is the one it was, even if the server had rolled back by itself. */
  method Undo(dbi: Database, added: seq<Element>, deleted: seq<Element>, tab: string, ghost was: Table,
        ghost relaxed: set<string>)
      returns (errs: seq<PutError>, thrown: int)
    requires Prepared(tab, was, Home(dbi.s), added, deleted, relaxed) && Holds(tab, was.indexes, deleted)
    modifies dbi
    ensures Spares(old(dbi.history), dbi.history, Names(added))
    ensures old(dbi.history) < dbi.history && dbi.history[|old(dbi.history)|].0 == Rollback(TABLE_UPDATE)
    ensures thrown == (var answer := dbi.history[|old(dbi.history)|].1; if answer in [0, 3903] then 0 else answer)
    ensures errs == CreateErrors(dbi.history, |old(dbi.history)|)
    ensures dbi.Willing() && ColumnsApart(added) && IndexesApart(tab, deleted) ==>
      (AllFit(Home(old(dbi.s)).cols, added) ==> UndoWorked(dbi.history, |old(dbi.history)|))
    ensures UndoWorked(dbi.history, |old(dbi.history)|) ==> thrown == 0 && errs == [] && dbi.s == Session(was, None)
  {
    hide IndexName, IndexOf, Near, Name, Laid, Names, IndexNames, Rebuilt, Holds, AllFine, CreateErrors,
      AllFit, ColumnsApart, IndexesApart;
    errs := [];
    ghost var start, n := Home(dbi.s), |dbi.history|;
    var _, err := dbi.DbiExecRollback(TABLE_UPDATE);
    thrown := err;
    NoneCreated(old(dbi.history), dbi.history, n);
    NothingYet(old(dbi.history));
    if thrown != 0 {
      return;
    }
    ghost var h1 := dbi.history;
    DropAdded(dbi, added, n);
    ghost var h2 := dbi.history;
    errs := RestoreIndexes(dbi, deleted, tab, n);
    FineParts(h2, dbi.history, n + 1);
    if AllFine(dbi.history, n + 1) {
      ColumnsBack(was.cols, start.cols, added, relaxed);
      IndexesBack(tab, was.indexes, dbi.s.now.indexes, deleted);
    }
  }

  // ---------------------------------------------------------------- the whole operation

  /** A table as it comes from text: its elements may be of any type. */
  ghost predicate WellFormed(es: seq<Element>, d: map<string, Element>) {
    UniqueKeys(es) && Agrees(es, d) && forall e :: e in es ==> PlainType(e)
  }

  /** A table as it is read from the server: columns, indexes and a primary key. */
  ghost predicate Stored(es: seq<Element>, d: map<string, Element>) {
    WellFormed(es, d) && forall e :: e in es ==> Known(e)
  }

  /** Elements of a key with a stored one are of its type. */
  lemma StoredType(e: Element, o: seq<Element>, od: map<string, Element>)
    requires Stored(o, od) && PlainType(e) && ElemKey(e) in od
    ensures var f := od[ElemKey(e)];
      && f in o && ElemKey(f) == ElemKey(e) && f.elemtype == e.elemtype && (IsIndex(f) <==> IsIndex(e)) && Known(e)
      && (!IsIndex(e) ==> Name(f) == Name(e))
  {
    InDomain(o, od);
    KeysMatch(o, od);
    hide ElemKey;
    SameKey(od[ElemKey(e)], e);
  }

  lemma ColumnKey(a: Element, b: Element)
    requires Known(a) && Known(b) && !IsIndex(a) && !IsIndex(b)
    ensures Name(a) == Name(b) <==> ElemKey(a) == ElemKey(b)
  {
    if ElemKey(a) == ElemKey(b) {
      KnownIsPlain(a);
      SameKey(a, b);
    }
  }

  /** What becomes of an element of the new table: if the old table has its text under its key, nothing is done and the
      old element stays. */
  function Final(e: Element, od: map<string, Element>): Element {
    if Differs(e, od) then e else od[ElemKey(e)]
  }

  function Merged(n: seq<Element>, od: map<string, Element>): (r: seq<Element>)
    ensures |r| == |n| && forall i :: 0 <= i < |r| ==> r[i] == Final(n[i], od)
  {
    seq(|n|, i requires 0 <= i < |n| => Final(n[i], od))
  }

  /** The merged table holds what applying the difference to the old table gives.  It is the new table exactly where
      equal text means equal elements. */
  lemma MergedIsApplied(o: seq<Element>, od: map<string, Element>, n: seq<Element>, nd: map<string, Element>)
    requires WellFormed(o, od) && WellFormed(n, nd)
    ensures var r := Apply(od, DiffOf(o, od, n, nd));
      forall i :: 0 <= i < |n| ==> ElemKey(n[i]) in r && r[ElemKey(n[i])] == Merged(n, od)[i]
    ensures Merged(n, od) == n <==> TextDecides(od, nd)
  {
    DiffIsSound(o, od, n, nd);
    hide Apply, DiffOf, Print, ElemKey, TextDecides;
    forall i | 0 <= i < |n|
      ensures ElemKey(n[i]) in nd && nd[ElemKey(n[i])] == n[i]
    {
      LookedUp(n, nd, i);
    }
    hide WellFormed;
    MergedIsNew(o, od, n, nd);
  }

  lemma MergedIsNew(o: seq<Element>, od: map<string, Element>, n: seq<Element>, nd: map<string, Element>)
    requires WellFormed(o, od) && WellFormed(n, nd)
    ensures Merged(n, od) == n <==> TextDecides(od, nd)
  {
    hide Print, ElemKey, Merged;
    var m := Merged(n, od);
    if m == n {
      InDomain(n, nd);
      KeysMatch(n, nd);
      hide WellFormed;
      forall k | k in od && k in nd && Print(od[k]) == Print(nd[k]) ensures od[k] == nd[k] {
        var i :| 0 <= i < |n| && n[i] == nd[k];
        assert m[i] == n[i];
      }
    }
    if TextDecides(od, nd) {
      forall i | 0 <= i < |n| ensures m[i] == n[i] {
        LookedUp(n, nd, i);
      }
    }
  }

  /** The old element that stays has the key and kind of the new one, and the new table does not reword it. */
  lemma Stays(e: Element, o: seq<Element>, od: map<string, Element>, n: seq<Element>, nd: map<string, Element>)
    requires WellFormed(o, od) && WellFormed(n, nd) && e in n && !Differs(e, od)
    ensures var f := Final(e, od);
      && ElemKey(e) in od && f == od[ElemKey(e)] && f in o && ElemKey(f) == ElemKey(e) && !Differs(f, nd)
      && (IsIndex(f) <==> IsIndex(e)) && (!IsIndex(e) ==> Name(f) == Name(e))
  {
    hide ElemKey, Print;
    Counterpart(e, o, od, n, nd);
    SameKey(e, od[ElemKey(e)]);
  }

  ghost predicate Done(tab: string, plan: Plan, was: Table, mid: Table, now: Table, relaxed: set<string>) {
    Prepared(tab, was, mid, plan.coladd, plan.otherdel, relaxed) && Carried(tab, plan, mid, now, relaxed)
  }

  lemma ColumnSettled(e: Element, tab: string, plan: Plan, o: seq<Element>, od: map<string, Element>,
                      n: seq<Element>, nd: map<string, Element>, was: Table, mid: Table, now: Table,
                      relaxed: set<string>)
    requires Stored(o, od) && WellFormed(n, nd) && PlanFor(plan, o, od, n, nd)
    requires Describes(tab, o, was, {}) && Done(tab, plan, was, mid, now, relaxed)
    requires e in n && !IsIndex(e)
    ensures var f := Final(e, od);
      && !IsIndex(f) && Name(f) == Name(e)
      && Name(f) in now.cols && Near(now.cols[Name(f)], f, Name(f) in relaxed)
      && (!Differs(e, od) ==> now.cols[Name(f)] == ColumnOf(f, true))
  {
    hide ElemKey, Name, Near, ColumnOf, IsIndex, Known, UniqueKeys, Agrees, Rebuilt, Differs, IndexNames, IndexOf,
      IndexName, PlainType, Describes, PlanFor;
    InDictionary(n, nd);
    ChangedWereThere(tab, plan, o, od, n, nd, was);
    if ElemKey(e) !in od {
      NewDiffers(e, od);
      assert e in plan.coladd by { IsAdded(e, plan, o, od, n, nd); }
      assert Name(e) !in Names(plan.colchanged) && Name(e) !in Names(plan.coldel);
    } else {
      StoredType(e, o, od);
      NotDropped(e, tab, plan, o, od, n, nd, was);
      if Differs(e, od) {
        assert e in plan.colchanged by { IsChanged(e, plan, o, od, n, nd); }
      } else {
        Stays(e, o, od, n, nd);
        var f := Final(e, od);
        StayedColumn(f, tab, o, was);
        NearRelaxes(was.cols[Name(f)], f, false, Name(f) in relaxed);
        NotChanged(e, plan, o, od, n, nd);
        assert Name(e) in was.cols && Name(e) !in Names(plan.coladd);
      }
    }
  }

  lemma IsAdded(e: Element, plan: Plan, o: seq<Element>, od: map<string, Element>, n: seq<Element>,
                nd: map<string, Element>)
    requires PlanFor(plan, o, od, n, nd) && e in n && !IsIndex(e) && ElemKey(e) !in od
    ensures e in plan.coladd
  {
    hide ElemKey, IsIndex, Differs;
  }

  lemma IsChanged(e: Element, plan: Plan, o: seq<Element>, od: map<string, Element>, n: seq<Element>,
                  nd: map<string, Element>)
    requires PlanFor(plan, o, od, n, nd) && e in n && !IsIndex(e) && ElemKey(e) in od && Differs(e, od)
    ensures e in plan.colchanged
  {
    hide ElemKey, IsIndex, Differs;
  }

  /** Columns to change or drop are in the table. */
  lemma ChangedWereThere(tab: string, plan: Plan, o: seq<Element>, od: map<string, Element>, n: seq<Element>,
                         nd: map<string, Element>, was: Table)
    requires Stored(o, od) && WellFormed(n, nd) && PlanFor(plan, o, od, n, nd) && Describes(tab, o, was, {})
    ensures Names(plan.colchanged) <= was.cols.Keys && Names(plan.coldel) <= was.cols.Keys
  {
    hide ElemKey, Name, IsIndex, Differs, UniqueKeys, Agrees, PlainType, Known, Near, IndexOf, IndexName;
    forall c | c in plan.colchanged ensures Name(c) in was.cols {
      StoredType(c, o, od);
    }
  }

  /** A column that both tables have is not dropped ... */
  lemma NotDropped(e: Element, tab: string, plan: Plan, o: seq<Element>, od: map<string, Element>, n: seq<Element>,
                   nd: map<string, Element>, was: Table)
    requires Stored(o, od) && WellFormed(n, nd) && PlanFor(plan, o, od, n, nd)
    requires e in n && !IsIndex(e) && ElemKey(e) in od
    ensures Name(e) !in Names(plan.coldel)
  {
    hide ElemKey, Name, IsIndex, Differs, UniqueKeys, Agrees, PlainType, Known;
    InDictionary(n, nd);
    StoredType(e, o, od);
    forall d | d in plan.coldel ensures Name(d) != Name(e) {
      ColumnKey(d, e);
    }
  }

  /** ... nor, if its text is the same, changed. */
  lemma NotChanged(e: Element, plan: Plan, o: seq<Element>, od: map<string, Element>, n: seq<Element>,
                   nd: map<string, Element>)
    requires Stored(o, od) && WellFormed(n, nd) && PlanFor(plan, o, od, n, nd)
    requires e in n && !IsIndex(e) && ElemKey(e) in od && !Differs(e, od)
    ensures Name(e) !in Names(plan.colchanged)
  {
    hide ElemKey, Name, IsIndex, Differs, UniqueKeys, Agrees, PlainType, Known;
    InDictionary(n, nd);
    StoredType(e, o, od);
    forall c | c in plan.colchanged ensures Name(c) != Name(e) {
      StoredType(c, o, od);
      ColumnKey(c, e);
    }
  }

  lemma StayedColumn(f: Element, tab: string, o: seq<Element>, was: Table)
    requires Describes(tab, o, was, {}) && f in o && !IsIndex(f)
    ensures Name(f) in was.cols && Near(was.cols[Name(f)], f, false) && was.cols[Name(f)] == ColumnOf(f, true)
  {
    hide Name, IsIndex, IndexOf, IndexName, ColumnOf;
  }

  lemma ColumnOrigin(name: string, tab: string, plan: Plan, o: seq<Element>, od: map<string, Element>,
                     n: seq<Element>, nd: map<string, Element>, was: Table, mid: Table, now: Table,
                     relaxed: set<string>)
      returns (e: Element)
    requires Stored(o, od) && WellFormed(n, nd) && PlanFor(plan, o, od, n, nd)
    requires Describes(tab, o, was, {}) && Done(tab, plan, was, mid, now, relaxed)
    requires name in now.cols
    ensures e in n && !IsIndex(e) && Name(e) == name
  {
    hide ElemKey, Name, Near, IsIndex, Known, UniqueKeys, Agrees, Rebuilt, Differs, IndexNames, IndexOf, IndexName;
    if name in Names(plan.colchanged) {
      e :| e in plan.colchanged && Name(e) == name;
    } else if name in Names(plan.coladd) {
      e :| e in plan.coladd && Name(e) == name;
    } else {
      var before :| before in o && !IsIndex(before) && Name(before) == name;
      assert ElemKey(before) in nd;
      InDomain(n, nd);
      KeysMatch(n, nd);
      e := nd[ElemKey(before)];
      SameKey(before, e);
      KindsAgree(before, e);
      NotKey(before);
    }
  }

  lemma NotKey(e: Element)
    requires !IsIndex(e)
    ensures e.elemtype != "primary-key"
  {
  }

  lemma KindsAgree(a: Element, b: Element)
    requires a.elemtype == b.elemtype
    ensures IsIndex(a) == IsIndex(b)
  {
  }

  lemma IndexSettled(e: Element, tab: string, plan: Plan, o: seq<Element>, od: map<string, Element>,
                     n: seq<Element>, nd: map<string, Element>, was: Table, mid: Table, now: Table,
                     relaxed: set<string>)
    requires Stored(o, od) && WellFormed(n, nd) && PlanFor(plan, o, od, n, nd)
    requires Describes(tab, o, was, {}) && Done(tab, plan, was, mid, now, relaxed)
    requires e in n && IsIndex(e)
    ensures var f := Final(e, od);
      && IsIndex(f)
      && IndexName(tab, f) in now.indexes && now.indexes[IndexName(tab, f)] == IndexOf(f)
  {
    hide ElemKey, Name, Near, IsIndex, Known, UniqueKeys, Agrees, Laid, Differs, IndexOf, IndexName;
    if Differs(e, od) {
      assert e in plan.otheradd;
    } else {
      Stays(e, o, od, n, nd);
      var f := Final(e, od);
      assert IndexName(tab, f) in was.indexes;
      assert IndexName(tab, f) !in IndexNames(tab, plan.otherdel) by {
        InDictionary(o, od);
        forall d | d in plan.otherdel ensures IndexName(tab, d) != IndexName(tab, f) {
          assert d != f && ElemKey(d) != ElemKey(f);
          if IndexName(tab, d) == IndexName(tab, f) {
            SameIndex(tab, d, f);
            assert false;
          }
        }
      }
    }
  }

  /** Indexes of the same name and form are the same element of a table. */
  lemma SameIndex(tab: string, a: Element, b: Element)
    requires IsIndex(a) && IsIndex(b) && IndexName(tab, a) == IndexName(tab, b) && IndexOf(a) == IndexOf(b)
    ensures ElemKey(a) == ElemKey(b)
  {
    assert IndexOf(a).primary == IndexOf(b).primary;
  }

  lemma IndexOrigin(name: string, tab: string, plan: Plan, o: seq<Element>, od: map<string, Element>,
                    n: seq<Element>, nd: map<string, Element>, was: Table, mid: Table, now: Table,
                    relaxed: set<string>)
      returns (e: Element)
    requires Stored(o, od) && WellFormed(n, nd) && PlanFor(plan, o, od, n, nd)
    requires Describes(tab, o, was, {}) && Done(tab, plan, was, mid, now, relaxed)
    requires name in now.indexes
    ensures e in n && IsIndex(Final(e, od)) && IndexName(tab, Final(e, od)) == name
  {
    hide ElemKey, Name, Near, IsIndex, Known, UniqueKeys, Agrees, Laid, Differs, IndexOf, IndexName;
    if name in IndexNames(tab, plan.otheradd) {
      e :| e in plan.otheradd && IndexName(tab, e) == name;
    } else {
      var f :| f in o && IsIndex(f) && IndexName(tab, f) == name;
      assert f !in plan.otherdel && !Differs(f, nd);
      Stays(f, n, nd, o, od);
      e := nd[ElemKey(f)];
      InDictionary(o, od);
      assert Final(e, od) == f;
    }
  }

  /** Columns that the difference does not name are exactly as they were described before. */
  ghost predicate Kept(n: seq<Element>, od: map<string, Element>, t: Table) {
    forall e :: e in n && !IsIndex(e) && !Differs(e, od) ==>
      Name(e) in t.cols && t.cols[Name(e)] == ColumnOf(Final(e, od), true)
  }

  lemma MergedMembers(n: seq<Element>, od: map<string, Element>)
    ensures forall f :: f in Merged(n, od) <==> exists e :: e in n && Final(e, od) == f
  {
    hide Final;
    var m := Merged(n, od);
    forall f | f in m ensures exists e :: e in n && Final(e, od) == f {
      var i :| 0 <= i < |m| && m[i] == f;
      assert n[i] in n;
    }
    forall e | e in n ensures Final(e, od) in m {
      var i :| 0 <= i < |n| && n[i] == e;
      assert m[i] in m;
    }
  }

  lemma ColumnsSettled(tab: string, plan: Plan, o: seq<Element>, od: map<string, Element>,
                       n: seq<Element>, nd: map<string, Element>, was: Table, mid: Table, now: Table,
                       relaxed: set<string>)
    requires Stored(o, od) && WellFormed(n, nd) && PlanFor(plan, o, od, n, nd)
    requires Describes(tab, o, was, {}) && Done(tab, plan, was, mid, now, relaxed)
    ensures now.cols.Keys == set f | f in Merged(n, od) && !IsIndex(f) :: Name(f)
    ensures forall f :: f in Merged(n, od) && !IsIndex(f) ==>
      Name(f) in now.cols && Near(now.cols[Name(f)], f, Name(f) in relaxed)
    ensures Kept(n, od, now)
  {
    hide ElemKey, Name, Near, IsIndex, WellFormed, Stored, PlanFor, Done, IndexName, IndexOf, Differs, ColumnOf, Final,
      Merged,
      Describes;
    MergedMembers(n, od);
    forall e | e in n
      ensures IsIndex(Final(e, od)) <==> IsIndex(e)
      ensures !IsIndex(e) ==> var f := Final(e, od);
        Name(f) == Name(e) && Name(f) in now.cols && Near(now.cols[Name(f)], f, Name(f) in relaxed)
        && (!Differs(e, od) ==> now.cols[Name(f)] == ColumnOf(f, true))
    {
      if IsIndex(e) {
        IndexSettled(e, tab, plan, o, od, n, nd, was, mid, now, relaxed);
      } else {
        ColumnSettled(e, tab, plan, o, od, n, nd, was, mid, now, relaxed);
      }
    }
    forall name | name in now.cols ensures exists f :: f in Merged(n, od) && !IsIndex(f) && Name(f) == name {
      var e := ColumnOrigin(name, tab, plan, o, od, n, nd, was, mid, now, relaxed);
      assert Final(e, od) in Merged(n, od);
    }
  }

  lemma IndexesSettled(tab: string, plan: Plan, o: seq<Element>, od: map<string, Element>,
                       n: seq<Element>, nd: map<string, Element>, was: Table, mid: Table, now: Table,
                       relaxed: set<string>)
    requires Stored(o, od) && WellFormed(n, nd) && PlanFor(plan, o, od, n, nd)
    requires Describes(tab, o, was, {}) && Done(tab, plan, was, mid, now, relaxed)
    ensures now.indexes.Keys == set f | f in Merged(n, od) && IsIndex(f) :: IndexName(tab, f)
    ensures forall f :: f in Merged(n, od) && IsIndex(f) ==>
      IndexName(tab, f) in now.indexes && now.indexes[IndexName(tab, f)] == IndexOf(f)
  {
    hide ElemKey, Name, Near, IsIndex, WellFormed, Stored, PlanFor, Done, IndexName, IndexOf, Describes, Final, Merged,
      Differs;
    MergedMembers(n, od);
    forall e | e in n && IsIndex(Final(e, od))
      ensures var f := Final(e, od); IndexName(tab, f) in now.indexes && now.indexes[IndexName(tab, f)] == IndexOf(f)
    {
      if IsIndex(e) {
        IndexSettled(e, tab, plan, o, od, n, nd, was, mid, now, relaxed);
      } else {
        ColumnSettled(e, tab, plan, o, od, n, nd, was, mid, now, relaxed);
      }
    }
    forall name | name in now.indexes
      ensures exists f :: f in Merged(n, od) && IsIndex(f) && IndexName(tab, f) == name {
      var e := IndexOrigin(name, tab, plan, o, od, n, nd, was, mid, now, relaxed);
      assert Final(e, od) in Merged(n, od);
    }
  }

  /** A plan carried out turns the old table into the merged one, up to columns made nullable where that is
      tolerated. */
  lemma DoneDescribes(tab: string, plan: Plan, o: seq<Element>, od: map<string, Element>,
                      n: seq<Element>, nd: map<string, Element>, was: Table, mid: Table, now: Table,
                      relaxed: set<string>)
    requires Stored(o, od) && WellFormed(n, nd) && PlanFor(plan, o, od, n, nd)
    requires Describes(tab, o, was, {}) && Done(tab, plan, was, mid, now, relaxed)
    ensures Describes(tab, Merged(n, od), now, relaxed) && Kept(n, od, now)
  {
    hide ElemKey, Name, Near, IsIndex, WellFormed, Stored, PlanFor, Done, IndexName, IndexOf, Differs, ColumnOf, Final,
      Merged,
      Kept;
    ColumnsSettled(tab, plan, o, od, n, nd, was, mid, now, relaxed);
    IndexesSettled(tab, plan, o, od, n, nd, was, mid, now, relaxed);
  }

  lemma DescribesRelaxes(tab: string, es: seq<Element>, t: Table, relaxed: set<string>, relaxed': set<string>)
    requires Describes(tab, es, t, relaxed) && relaxed <= relaxed'
    ensures Describes(tab, es, t, relaxed')
  {
    hide Name, IsIndex, IndexName, IndexOf, ColumnOf, NullableColumn;
  }

  /** The columns to change are in the table as the old elements say, before and after the additions. */
  lemma ReadyToChange(tab: string, plan: Plan, o: seq<Element>, od: map<string, Element>,
                      n: seq<Element>, nd: map<string, Element>, was: Table, cols: map<string, Column>)
    requires Stored(o, od) && WellFormed(n, nd) && PlanFor(plan, o, od, n, nd) && Describes(tab, o, was, {})
    requires forall name :: name in was.cols ==> name in cols && cols[name] == was.cols[name]
    ensures forall e :: e in plan.colchanged ==> Changeable(e, od, cols) && Changeable(e, od, cols - Names(plan.coldel))
  {
    hide Describes, PlanFor, WellFormed, Stored;
    forall e | e in plan.colchanged ensures Changeable(e, od, cols) && Changeable(e, od, cols - Names(plan.coldel)) {
      OldColumn(e, tab, plan, o, od, n, nd, was);
    }
  }

  lemma OldColumn(e: Element, tab: string, plan: Plan, o: seq<Element>, od: map<string, Element>,
                  n: seq<Element>, nd: map<string, Element>, was: Table)
    requires Stored(o, od) && WellFormed(n, nd) && PlanFor(plan, o, od, n, nd) && Describes(tab, o, was, {})
    requires e in plan.colchanged
    ensures Changeable(e, od, was.cols) && Name(e) !in Names(plan.coldel)
  {
    InDomain(o, od);
    KeysMatch(o, od);
    InDictionary(n, nd);
    hide Differs, UniqueKeys, Agrees, ElemKey, Name, Param, ColumnOf, NullableColumn;
    var before := od[ElemKey(e)];
    SameKey(before, e);
    assert Near(was.cols[Name(before)], before, false);
    DefaultOfColumn(before);
    forall d | d in plan.coldel ensures Name(d) != Name(e) {
      ColumnKey(d, e);
    }
  }

  lemma DefaultOfColumn(e: Element)
    requires e.elemtype == "column"
    ensures ColumnOf(e, true).dflt != "" <==> HasDefault(e)
  {
  }

  lemma LaidKeeps(base: map<string, Column>, cols: map<string, Column>, es: seq<Element>, relaxed: set<string>)
    requires Laid(base, cols, es, relaxed) && Names(es) !! base.Keys
    ensures forall name :: name in base ==> name in cols && cols[name] == base[name]
  {
  }

  lemma ChangesAreKnown(o: seq<Element>, od: map<string, Element>, n: seq<Element>, nd: map<string, Element>)
    requires UniqueKeys(o) && UniqueKeys(n)
    ensures forall e :: (e, DiffType.Change) in DiffOf(o, od, n, nd) ==> ElemKey(e) in od
  {
    hide DiffOf, ElemKey;
    Listed(o, od, n, nd);
  }

  lemma PlanDrops(plan: Plan, o: seq<Element>, od: map<string, Element>, n: seq<Element>, nd: map<string, Element>)
    requires PlanFor(plan, o, od, n, nd)
    ensures plan.coldel != [] <==> DropsColumn(o, nd)
    ensures UniqueKeys(plan.colchanged)
  {
    hide ElemKey, IsIndex;
    if plan.coldel != [] {
      assert plan.coldel[0] in plan.coldel;
    }
  }

  lemma ExpectedNulls(es: seq<Element>, errWhenAltering: map<string, Option<int>>, destructive: bool,
                      before: seq<(Stmt, int)>, from: nat, after: seq<(Stmt, int)>, from': nat)
    requires before <= after && from' <= from
    requires forall e :: e in es ==> Expected(e, errWhenAltering, Complaints(before, from), Failures(before, from))
    ensures forall e :: e in es ==> Expected(e, errWhenAltering, Complaints(after, from'), Failures(after, from'))
    ensures forall e :: e in es ==>
      ElemKey(e) in errWhenAltering && Nulls(e, errWhenAltering, destructive, Tolerated(destructive, after, from'))
  {
    hide Complaints, Failures, Name, ElemKey;
    ComplaintsGrow(before, from, after, from');
    FailuresGrow(before, from, after, from');
  }

  /** A refusal to drop and add again goes back to a statement that failed in the trial. */
  lemma TriedBefore(es: seq<Element>, errWhenAltering: map<string, Option<int>>, column: string, err: int,
                    complaints: set<string>, before: seq<(Stmt, int)>, from: nat, after: seq<(Stmt, int)>, from': nat)
    requires before <= after && from' <= from && Refuses(column, err, es, errWhenAltering)
    requires forall e :: e in es ==> Expected(e, errWhenAltering, complaints, Failures(before, from))
    ensures err != 515 && (column, err) in Failures(after, from')
  {
    FailuresGrow(before, from, after, from');
    hide Failures, Name, ElemKey;
  }

  lemma DeletedWereThere(tab: string, plan: Plan, o: seq<Element>, od: map<string, Element>,
                         n: seq<Element>, nd: map<string, Element>, was: Table)
    requires PlanFor(plan, o, od, n, nd) && Describes(tab, o, was, {})
    ensures Holds(tab, was.indexes, plan.otherdel)
  {
    hide ElemKey, IndexName, IndexOf, Near, Name, IsIndex, Differs;
  }

  // ---------------------------------------------------------------- a server that refuses nothing

  /** No two indexes of a table have the same name. */
  ghost predicate NamesApart(tab: string, es: seq<Element>) {
    forall e, f :: e in es && f in es && IsIndex(e) && IsIndex(f) && e != f ==> IndexName(tab, e) != IndexName(tab, f)
  }

  ghost predicate AllKnown(es: seq<Element>) {
    forall e :: e in es ==> Known(e)
  }

  lemma DeletedApart(tab: string, plan: Plan, o: seq<Element>, od: map<string, Element>,
                     n: seq<Element>, nd: map<string, Element>, was: Table)
    requires PlanFor(plan, o, od, n, nd) && Describes(tab, o, was, {})
    ensures IndexesApart(tab, plan.otherdel) && IndexNames(tab, plan.otherdel) <= was.indexes.Keys
  {
    DeletedWereThere(tab, plan, o, od, n, nd, was);
    hide IndexName, IndexOf, ElemKey, IsIndex, Describes;
    var es := plan.otherdel;
    forall i, j | 0 <= i < j < |es| ensures IndexName(tab, es[i]) != IndexName(tab, es[j]) {
      assert es[i] in es && es[j] in es && ElemKey(es[i]) != ElemKey(es[j]);
      if IndexName(tab, es[i]) == IndexName(tab, es[j]) {
        SameIndex(tab, es[i], es[j]);
      }
    }
  }

  lemma AddedApart(tab: string, plan: Plan, o: seq<Element>, od: map<string, Element>,
                   n: seq<Element>, nd: map<string, Element>, was: Table)
    requires Stored(o, od) && AllKnown(n) && PlanFor(plan, o, od, n, nd) && Describes(tab, o, was, {})
    ensures ColumnsApart(plan.coladd) && Names(plan.coladd) !! was.cols.Keys
  {
    InDictionary(o, od);
    hide ElemKey, IsIndex, Name, Known;
    var es := plan.coladd;
    forall i, j | 0 <= i < j < |es| ensures Name(es[i]) != Name(es[j]) {
      assert es[i] in es && es[j] in es && ElemKey(es[i]) != ElemKey(es[j]);
      ColumnKey(es[i], es[j]);
    }
    forall e, f | e in es && f in o && !IsIndex(f) ensures Name(f) != Name(e) {
      ColumnKey(e, f);
    }
  }

  lemma LostFit(tab: string, plan: Plan, o: seq<Element>, od: map<string, Element>,
                n: seq<Element>, nd: map<string, Element>, was: Table, cols: map<string, Column>)
    requires Stored(o, od) && PlanFor(plan, o, od, n, nd) && Describes(tab, o, was, {})
    requires forall name :: name in was.cols ==> name in cols && cols[name] == was.cols[name]
    ensures ColumnsApart(plan.coldel) && AllFit(cols, plan.coldel)
  {
    hide ElemKey, Name, HasDefault, ColumnOf;
    var es := plan.coldel;
    forall i, j | 0 <= i < j < |es| ensures Name(es[i]) != Name(es[j]) {
      assert es[i] in es && es[j] in es && ElemKey(es[i]) != ElemKey(es[j]);
      ColumnKey(es[i], es[j]);
    }
    forall e | e in es ensures Fits(cols, e) {
      assert Near(was.cols[Name(e)], e, false);
      DefaultOfColumn(e);
    }
  }

  lemma AddedFit(base: map<string, Column>, cols: map<string, Column>, es: seq<Element>, relaxed: set<string>)
    requires Laid(base, cols, es, relaxed) && forall e :: e in es ==> e.elemtype == "column"
    ensures AllFit(cols, es)
  {
    hide Name, HasDefault, ColumnOf, NullableColumn;
    forall e | e in es ensures Fits(cols, e) {
      NearDefault(cols[Name(e)], e, Name(e) in relaxed);
    }
  }

  lemma NearDefault(c: Column, e: Element, relax: bool)
    requires Near(c, e, relax) && e.elemtype == "column"
    ensures c.dflt != "" <==> HasDefault(e)
  {
    DefaultOfColumn(e);
    NullableOnlyRelaxes(e, true);
    hide ColumnOf, NullableColumn, HasDefault;
  }

  /** An index that stays has a name of its own beside those to be made. */
  lemma NotTaken(name: string, e: Element, tab: string, plan: Plan, o: seq<Element>, od: map<string, Element>,
                 n: seq<Element>, nd: map<string, Element>, was: Table)
    requires Stored(o, od) && WellFormed(n, nd) && PlanFor(plan, o, od, n, nd) && Describes(tab, o, was, {})
    requires NamesApart(tab, Merged(n, od)) && e in plan.otheradd
    requires name in was.indexes && name !in IndexNames(tab, plan.otherdel)
    ensures IndexName(tab, e) != name
  {
    hide ElemKey, Name, IsIndex, IndexName, IndexOf, Near, WellFormed, Stored, Differs, Final, Merged;
    var f :| f in o && IsIndex(f) && IndexName(tab, f) == name;
    assert f !in plan.otherdel && !Differs(f, nd);
    Reached(f, o, od, n, nd);
    assert Differs(e, od);
    MergedMembers(n, od);
    FinalNew(e, od);
  }

  lemma FinalNew(e: Element, od: map<string, Element>)
    requires Differs(e, od)
    ensures Final(e, od) == e
  {
  }

  /** An old element that the new table has as it is stays. */
  lemma Reached(f: Element, o: seq<Element>, od: map<string, Element>, n: seq<Element>, nd: map<string, Element>)
    requires Stored(o, od) && WellFormed(n, nd) && f in o && !Differs(f, nd)
    ensures f in Merged(n, od) && !Differs(f, od)
  {
    hide ElemKey, Print, Merged;
    Stays(f, n, nd, o, od);
    InDictionary(o, od);
    MergedMembers(n, od);
    assert Final(nd[ElemKey(f)], od) == f;
  }

  lemma MadeApart(tab: string, plan: Plan, o: seq<Element>, od: map<string, Element>,
                  n: seq<Element>, nd: map<string, Element>, was: Table)
    requires Stored(o, od) && WellFormed(n, nd) && PlanFor(plan, o, od, n, nd) && Describes(tab, o, was, {})
    requires NamesApart(tab, Merged(n, od))
    ensures IndexesApart(tab, plan.otheradd)
    ensures IndexNames(tab, plan.otheradd) !! was.indexes.Keys - IndexNames(tab, plan.otherdel)
  {
    hide ElemKey, Name, IsIndex, IndexName, IndexOf, WellFormed, Stored, Differs, Final, Merged, Describes;
    MergedMembers(n, od);
    var es := plan.otheradd;
    forall e | e in es ensures e in Merged(n, od) && IsIndex(e) {
      FinalNew(e, od);
    }
    forall i, j | 0 <= i < j < |es| ensures IndexName(tab, es[i]) != IndexName(tab, es[j]) {
      assert es[i] in es && es[j] in es && ElemKey(es[i]) != ElemKey(es[j]);
    }
    forall e, name | e in es && name in was.indexes && name !in IndexNames(tab, plan.otherdel)
      ensures IndexName(tab, e) != name
    {
      NotTaken(name, e, tab, plan, o, od, n, nd, was);
    }
  }

  /** A table cannot have what needs two indexes of one name. */
  lemma ThereApart(tab: string, n: seq<Element>, od: map<string, Element>, o: seq<Element>, t: Table,
                   relaxed: set<string>)
    requires Agrees(o, od) && UniqueKeys(n) && Describes(tab, Merged(n, od), t, relaxed)
    ensures NamesApart(tab, Merged(n, od))
  {
    hide ElemKey, IsIndex, IndexName, IndexOf, Near, Name, Print;
    KeysMatch(o, od);
    var es := Merged(n, od);
    forall e, f | e in es && f in es && IsIndex(e) && IsIndex(f) && e != f
      ensures IndexName(tab, e) != IndexName(tab, f)
    {
      var i :| 0 <= i < |es| && es[i] == e;
      var j :| 0 <= j < |es| && es[j] == f;
      assert ElemKey(e) == ElemKey(n[i]) && ElemKey(f) == ElemKey(n[j]);
      if IndexName(tab, e) == IndexName(tab, f) {
        SameIndex(tab, e, f);
      }
    }
  }

  /** Everything needed for the statements to be possible. */
  lemma Feasible(tab: string, plan: Plan, o: seq<Element>, od: map<string, Element>,
                 n: seq<Element>, nd: map<string, Element>, was: Table, mid: Table, relaxed: set<string>)
    requires Stored(o, od) && WellFormed(n, nd) && PlanFor(plan, o, od, n, nd) && Describes(tab, o, was, {})
    requires Prepared(tab, was, mid, plan.coladd, plan.otherdel, relaxed) && AllKnown(n)
    ensures AllFit(mid.cols, plan.coladd) && (NamesApart(tab, Merged(n, od)) ==> Doable(tab, plan, mid))
  {
    hide Laid, AllFit, Describes, ColumnsApart, IndexesApart, NamesApart, Merged, Stored, WellFormed, IndexNames;
    LaidKeeps(was.cols, mid.cols, plan.coladd, relaxed);
    LostFit(tab, plan, o, od, n, nd, was, mid.cols);
    AddedFit(was.cols, mid.cols, plan.coladd, relaxed);
    if NamesApart(tab, Merged(n, od)) {
      MadeApart(tab, plan, o, od, n, nd, was);
    }
  }

  /** How far PutSchemaTable got; a rollback is told by its place among the statements. */
  datatype Outcome = Refused | BeforeTransaction | RolledBack(undoFrom: nat) | Committed

  ghost predicate DropsColumn(o: seq<Element>, nd: map<string, Element>) {
    exists e :: e in o && !IsIndex(e) && ElemKey(e) !in nd
  }

  function ColumnNames(es: seq<Element>): seq<string> {
    seq(|es|, i requires 0 <= i < |es| => Name(es[i]))
  }

  /** The promise: nothing at all happens to a table that would lose a column without leave.  Once the transaction was
      attempted, either the new table is there, in which only columns to be added or changed whose own statement the
      server refused for its nulls may be nullable against the description, and none if destruction was allowed; or the
      undo was tried and, if its statements worked, the table is exactly as before. */
  ghost predicate AllOrNothing(outcome: Outcome, errs: seq<PutError>, thrown: int, tab: string,
                               n: seq<Element>, od: map<string, Element>, destructive: bool,
                               was: Session, before: seq<(Stmt, int)>, now: Session, h: seq<(Stmt, int)>) {
    && before <= h
    && (errs == [] && thrown == 0 <==> outcome.Committed?)
    && match outcome
       case Refused => h == before && now == was
       case BeforeTransaction => Quiet(before, h, "TableUpdate")
       case RolledBack(from) =>
         && |before| <= from < |h| && h[from].0 == Rollback("TableUpdate")
         && (UndoWorked(h, from) ==> now == was)
       case Committed =>
         && now.saved.None? && Kept(n, od, now.now)
         && Describes(tab, Merged(n, od), now.now, Tolerated(destructive, h, |before|))
         && Fulfils(tab, Merged(n, od), now.now, Tolerated(destructive, h, |before|))
  }

  /** What is reported: the columns that would be lost; or the error of the statement that failed; or the column that
      may not be dropped and added again although altering it had failed.  Behind the last two what the undo could not
      make again, unless its rollback failed, which is reported instead. */
  ghost predicate Reports(outcome: Outcome, errs: seq<PutError>, thrown: int, o: seq<Element>, nd: map<string, Element>,
                          destructive: bool, before: seq<(Stmt, int)>, h: seq<(Stmt, int)>) {
    match outcome
    case Refused =>
      thrown == 0 && |errs| == 1 && errs[0].RefusingToDrop? && (forall name ::
        name in errs[0].columns <==> exists e :: e in o && !IsIndex(e) && ElemKey(e) !in nd && Name(e) == name)
    case BeforeTransaction =>
      thrown == 0 && |errs| == 1 && errs[0].SqlFailed? && FailedLast(before, h, errs[0].errnum)
    case RolledBack(from) =>
      && errs != [] && from < |h| && errs[1..] == CreateErrors(h, from)
      && thrown == (if h[from].1 in [0, 3903] then 0 else h[from].1)
      && StoppedBy(errs[0], destructive, before, h, from)
    case Committed => true
  }

  /** What stopped the transaction in front of its rollback. */
  ghost predicate StoppedBy(error: PutError, destructive: bool, before: seq<(Stmt, int)>, h: seq<(Stmt, int)>,
    from: nat)
    requires from <= |h|
  {
    match error
    case SqlFailed(err) => FailedLast(before, h[..from], err)
    case RefusingToReadd(column, err) => !destructive && err != 515 && (column, err) in Failures(h, |before|)
    case RefusingToDrop(_) => false
  }

  lemma StillStopped(errs: seq<PutError>, before: seq<(Stmt, int)>, start: seq<(Stmt, int)>, mid: seq<(Stmt, int)>,
                     after: seq<(Stmt, int)>, changed: seq<Element>, errWhenAltering: map<string, Option<int>>,
                     destructive: bool, tried: seq<(Stmt, int)>, complaints: set<string>, n: nat)
    requires Stopped(errs, start, mid, changed, errWhenAltering, destructive)
    requires before <= start && mid <= after && |before| <= n && tried <= after
    requires forall e :: e in changed ==> Expected(e, errWhenAltering, complaints, Failures(tried, n))
    ensures |errs| == 1 && StoppedBy(errs[0], destructive, before, after, |mid|)
  {
    hide Failures, Expected, Refuses;
    assert after[..|mid|] == mid;
    if errs[0].RefusingToReadd? {
      TriedBefore(changed, errWhenAltering, errs[0].column, errs[0].errnum, complaints, tried, n, after, |before|);
    }
  }

  lemma WouldBeLost(plan: Plan, o: seq<Element>, od: map<string, Element>, n: seq<Element>, nd: map<string, Element>)
    requires PlanFor(plan, o, od, n, nd)
    ensures forall name ::
      name in ColumnNames(plan.coldel) <==> exists e :: e in o && !IsIndex(e) && ElemKey(e) !in nd && Name(e) == name
  {
    hide ElemKey, IsIndex, Name;
    var names := ColumnNames(plan.coldel);
    forall name | name in names ensures exists e :: e in o && !IsIndex(e) && ElemKey(e) !in nd && Name(e) == name {
      var i :| 0 <= i < |names| && names[i] == name;
      assert plan.coldel[i] in plan.coldel;
    }
    forall e | e in o && !IsIndex(e) && ElemKey(e) !in nd ensures Name(e) in names {
      var i :| 0 <= i < |plan.coldel| && plan.coldel[i] == e;
      assert names[i] == Name(e);
    }
  }

  /** The first part of PutSchemaTable: the difference, sorted by kind. */
  method MakePlan(curtable: VxSchemaTable, newtable: VxSchemaTable) returns (plan: Plan)
    requires curtable.Valid() && newtable.Valid()
    requires Stored(curtable.elems, curtable.elemdict) && WellFormed(newtable.elems, newtable.elemdict)
    ensures PlanFor(plan, curtable.elems, curtable.elemdict, newtable.elems, newtable.elemdict)
  {
    hide Print, DiffOf, Sorted, PlanFor, UniqueKeys, Agrees, Known, Distinct, DiffKeys;
    ghost var o, od, n, nd := curtable.elems, curtable.elemdict, newtable.elems, newtable.elemdict;
    var diff := GetDiff(curtable, newtable);
    DiffIsMinimal(o, od, n, nd);
    ChangesAreKnown(o, od, n, nd);
    KeysMatch(o, od);
    plan := Classify(diff, curtable.elemdict);
    SortedIsPlan(plan, o, od, n, nd);
  }

  /** No column of the old table is dropped without leave; and with it only if the new table does not have it, or if a
      statement on it had failed before.  Any other column dropped is one that was added. */
  ghost predicate DropsAllowed(before: seq<(Stmt, int)>, h: seq<(Stmt, int)>, destructive: bool,
                               o: seq<Element>, od: map<string, Element>, n: seq<Element>, nd: map<string, Element>) {
    forall k :: |before| <= k < |h| && h[k].0.DropColumn? ==>
      || ColumnBeside(h[k].0.name, n, od)
      || (destructive
          && (ColumnBeside(h[k].0.name, o, nd) || FailedOne(h[k].0.name, Failures(h[..k], |before|))))
  }

  ghost predicate FailedOne(name: string, failures: set<(string, int)>) {
    exists f :: f in failures && f.0 == name
  }

  /** A column of the one table whose key the other one lacks. */
  ghost predicate ColumnBeside(name: string, es: seq<Element>, d: map<string, Element>) {
    exists e :: e in es && !IsIndex(e) && ElemKey(e) !in d && Name(e) == name
  }

  lemma NothingDropped(h: seq<(Stmt, int)>)
    ensures Spares(h, h, {})
  {
  }

  lemma SparesMore(h: seq<(Stmt, int)>, dropped: set<string>)
    ensures Spares(h, h, dropped)
  {
  }

  lemma SparesAll(before: seq<(Stmt, int)>, h: seq<(Stmt, int)>, destructive: bool,
                  o: seq<Element>, od: map<string, Element>, n: seq<Element>, nd: map<string, Element>)
    requires Spares(before, h, {})
    ensures DropsAllowed(before, h, destructive, o, od, n, nd)
  {
    hide ColumnBeside;
  }

  lemma LostBeside(name: string, plan: Plan, o: seq<Element>, od: map<string, Element>,
                   n: seq<Element>, nd: map<string, Element>)
    requires PlanFor(plan, o, od, n, nd) && name in Names(plan.coldel)
    ensures ColumnBeside(name, o, nd) && plan.coldel != []
  {
    hide ElemKey, IsIndex, Name;
    var e :| e in plan.coldel && Name(e) == name;
  }

  lemma RedoneFailed(name: string, es: seq<Element>, errWhenAltering: map<string, Option<int>>, destructive: bool,
                     failures: set<(string, int)>, complaints: set<string>)
    requires name in Redone(es, errWhenAltering, destructive)
    requires forall e :: e in es ==> Expected(e, errWhenAltering, complaints, failures)
    ensures destructive && FailedOne(name, failures)
  {
    hide ElemKey, Name;
    var e :| e in es && ElemKey(e) in errWhenAltering && errWhenAltering[ElemKey(e)].Some? && Name(e) == name;
    assert (name, errWhenAltering[ElemKey(e)].value) in failures;
  }

  lemma AddedBeside(name: string, plan: Plan, o: seq<Element>, od: map<string, Element>,
                    n: seq<Element>, nd: map<string, Element>)
    requires PlanFor(plan, o, od, n, nd) && name in Names(plan.coladd)
    ensures ColumnBeside(name, n, od)
  {
    hide ElemKey, IsIndex, Name;
  }

  lemma SparesJoin(before: seq<(Stmt, int)>, start: seq<(Stmt, int)>, after: seq<(Stmt, int)>, dropped: set<string>)
    requires Spares(before, start, {}) && Spares(start, after, dropped)
    ensures Spares(before, after, dropped)
    ensures forall k :: |before| <= k < |start| ==> !after[k].0.DropColumn?
  {
    forall k | |before| <= k < |start| ensures after[k] == start[k] {}
  }

  /** From the beginning of the transaction on. */
  lemma DropsFollow(before: seq<(Stmt, int)>, start: seq<(Stmt, int)>, mid: seq<(Stmt, int)>, h: seq<(Stmt, int)>,
                    destructive: bool, plan: Plan, errWhenAltering: map<string, Option<int>>,
                    o: seq<Element>, od: map<string, Element>, n: seq<Element>, nd: map<string, Element>)
    requires PlanFor(plan, o, od, n, nd) && (destructive || plan.coldel == [])
    requires Spares(before, start, {}) && Spares(mid, h, Names(plan.coladd))
    requires Spares(start, mid, Names(plan.coldel) + Redone(plan.colchanged, errWhenAltering, destructive))
    requires forall e :: e in plan.colchanged ==>
      Expected(e, errWhenAltering, Complaints(start, |before|), Failures(start, |before|))
    ensures DropsAllowed(before, h, destructive, o, od, n, nd)
  {
    hide PlanFor, Names, Redone, Expected, Failures, Complaints, ColumnBeside;
    SparesJoin(before, start, mid, Names(plan.coldel) + Redone(plan.colchanged, errWhenAltering, destructive));
    forall k | |before| <= k < |h| && h[k].0.DropColumn?
      ensures ColumnBeside(h[k].0.name, n, od) || (destructive
        && (ColumnBeside(h[k].0.name, o, nd) || FailedOne(h[k].0.name, Failures(h[..k], |before|))))
    {
      if k >= |mid| {
        AddedBeside(h[k].0.name, plan, o, od, n, nd);
      } else {
        assert h[k] == mid[k];
        if h[k].0.name in Names(plan.coldel) {
          LostBeside(h[k].0.name, plan, o, od, n, nd);
        } else {
          RedoneFailed(h[k].0.name, plan.colchanged, errWhenAltering, destructive, Failures(start, |before|),
                       Complaints(start, |before|));
        }
        if k >= |start| {
          FailuresGrow(start, |before|, h[..k], |before|);
        }
      }
    }
  }

  /** The statements in front of the transaction. */
  method Prepare(dbi: Database, tab: string, plan: Plan, od: map<string, Element>, destructive: bool,
                 ghost o: seq<Element>, ghost n: seq<Element>, ghost nd: map<string, Element>)
      returns (errWhenAltering: map<string, Option<int>>, err: int, ghost relaxed: set<string>)
    requires Stored(o, od) && WellFormed(n, nd) && PlanFor(plan, o, od, n, nd) && UniqueKeys(plan.colchanged)
    requires dbi.s.saved.None? && Describes(tab, o, dbi.s.now, {})
    modifies dbi
    ensures Spares(old(dbi.history), dbi.history, {})
    ensures Quiet(old(dbi.history), dbi.history, TABLE_UPDATE)
    ensures err != 0 ==> FailedLast(old(dbi.history), dbi.history, err)
    ensures dbi.Willing() && AllKnown(n) ==> err == 0 && Calm(errWhenAltering)
    ensures relaxed == Tolerated(destructive, dbi.history, |old(dbi.history)|)
    ensures err == 0 ==>
      dbi.s.saved.None? && Prepared(tab, old(dbi.s).now, dbi.s.now, plan.coladd, plan.otherdel, relaxed)
    ensures err == 0 ==> forall e :: e in plan.colchanged ==>
      && Changeable(e, od, dbi.s.now.cols - Names(plan.coldel))
      && ElemKey(e) in errWhenAltering && Nulls(e, errWhenAltering, destructive, relaxed)
      && Expected(e, errWhenAltering, Complaints(dbi.history, |old(dbi.history)|),
                  Failures(dbi.history, |old(dbi.history)|))
  {
    hide Name, IndexName, Laid, PlanFor, Describes, UniqueKeys, Stored, WellFormed, Changeable, IsIndex, Names, ElemKey,
      IndexNames, Tolerated, Complaints, Failures, Nulls, Expected, AllKnown, IndexesApart, ColumnsApart, Calm;
    ghost var was, h0 := dbi.s, dbi.history;
    errWhenAltering, relaxed := map[], {};
    DeletedApart(tab, plan, o, od, n, nd, was.now);
    err := DropIndexes(dbi, plan.otherdel, tab);
    if err == 0 {
      ReadyToChange(tab, plan, o, od, n, nd, was.now, dbi.s.now.cols);
      ghost var h1 := dbi.history;
      errWhenAltering, err := TrialRuns(dbi, plan.colchanged, od);
      if err == 0 {
        ghost var h2 := dbi.history;
        if AllKnown(n) {
          AddedApart(tab, plan, o, od, n, nd, was.now);
        }
        err := AddColumns(dbi, plan.coladd, destructive);
        if err == 0 {
          ghost var h3, mid := dbi.history, dbi.s.now;
          relaxed := Tolerated(destructive, h3, |h0|);
          ToleratedGrows(destructive, h3, |h2|, h3, |h0|);
          LaidRelaxes(was.now.cols, mid.cols, plan.coladd, Tolerated(destructive, h3, |h2|), relaxed);
          LaidKeeps(was.now.cols, mid.cols, plan.coladd, relaxed);
          ReadyToChange(tab, plan, o, od, n, nd, was.now, mid.cols);
          ExpectedNulls(plan.colchanged, errWhenAltering, destructive, h2, |h1|, h3, |h0|);
        }
      }
    }
    relaxed := Tolerated(destructive, dbi.history, |h0|);
  }

  method PutSchemaTable(dbi: Database, tab: string, curtable: VxSchemaTable, newtable: VxSchemaTable, destructive: bool)
      returns (errs: seq<PutError>, thrown: int, ghost outcome: Outcome)
    requires curtable.Valid() && newtable.Valid()
    requires Stored(curtable.elems, curtable.elemdict) && WellFormed(newtable.elems, newtable.elemdict)
    requires dbi.s.saved.None? && Describes(tab, curtable.elems, dbi.s.now, {})
    modifies dbi
    ensures outcome.Refused? <==> !destructive && DropsColumn(curtable.elems, newtable.elemdict)
    ensures AllOrNothing(outcome, errs, thrown, tab, newtable.elems, curtable.elemdict, destructive,
                         old(dbi.s), old(dbi.history), dbi.s, dbi.history)
    ensures Reports(outcome, errs, thrown, curtable.elems, newtable.elemdict, destructive, old(dbi.history),
      dbi.history)
    ensures DropsAllowed(old(dbi.history), dbi.history, destructive, curtable.elems, curtable.elemdict,
                         newtable.elems, newtable.elemdict)
    ensures dbi.Willing() && AllKnown(newtable.elems) ==>
      && (outcome.Committed? <==>
          && (destructive || !DropsColumn(curtable.elems, newtable.elemdict))
          && NamesApart(tab, Merged(newtable.elems, curtable.elemdict)))
      && (!outcome.Committed? ==> dbi.s == old(dbi.s))
    ensures outcome.Committed? && TextDecides(curtable.elemdict, newtable.elemdict) ==>
      Fulfils(tab, newtable.elems, dbi.s.now, Tolerated(destructive, dbi.history, |old(dbi.history)|))
  {
    hide Print, Name, IndexOf, IndexName, Near, Laid, Rebuilt, PlanFor, Describes, DiffOf, Sorted, UniqueKeys, Agrees,
      Known, Changeable, UndoWorked, IsIndex, Differs, Names, IndexNames, DropsColumn, Holds, Carried, Tolerated, Kept,
      Complaints, Nulls, Expected, TextDecides, Merged, Fulfils, StoppedBy, Stopped, CreateErrors, Failures,
        ColumnNames,
      AllKnown, NamesApart, IndexesApart, ColumnsApart, AllFit, Doable, Calm, DropsAllowed, Spares, Redone;
    ghost var o, od, n, nd := curtable.elems, curtable.elemdict, newtable.elems, newtable.elemdict;
    ghost var was, h0 := dbi.s, dbi.history;
    thrown := 0;
    var plan := MakePlan(curtable, newtable);
    PlanDrops(plan, o, od, n, nd);
    WouldBeLost(plan, o, od, n, nd);
    NothingDropped(h0);
    SparesAll(h0, h0, destructive, o, od, n, nd);
    if !destructive && plan.coldel != [] {
      return [RefusingToDrop(ColumnNames(plan.coldel))], 0, Refused;
    }
    var errWhenAltering, err;
    ghost var relaxed;
    errWhenAltering, err, relaxed := Prepare(dbi, tab, plan, curtable.elemdict, destructive, o, n, nd);
    if err != 0 {
      SparesAll(h0, dbi.history, destructive, o, od, n, nd);
      return [SqlFailed(err)], 0, BeforeTransaction;
    }
    ghost var h3, mid := dbi.history, dbi.s.now;
    DeletedWereThere(tab, plan, o, od, n, nd, was.now);
    DeletedApart(tab, plan, o, od, n, nd, was.now);
    if AllKnown(n) {
      AddedApart(tab, plan, o, od, n, nd, was.now);
      Feasible(tab, plan, o, od, n, nd, was.now, mid, relaxed);
    }
    errs := UpdateInTransaction(dbi, plan, curtable.elemdict, errWhenAltering, tab, destructive, relaxed);
    ghost var h5 := dbi.history;
    if errs == [] {
      SparesMore(h5, Names(plan.coladd));
      DropsFollow(h0, h3, h5, h5, destructive, plan, errWhenAltering, o, od, n, nd);
      ghost var final := Tolerated(destructive, dbi.history, |h0|);
      DoneDescribes(tab, plan, o, od, n, nd, was.now, mid, dbi.s.now, relaxed);
      ToleratedGrows(destructive, h3, |h0|, dbi.history, |h0|);
      DescribesRelaxes(tab, Merged(n, od), dbi.s.now, relaxed, final);
      DescribesFulfils(tab, Merged(n, od), dbi.s.now, final);
      ThereApart(tab, n, od, o, dbi.s.now, final);
      MergedIsApplied(o, od, n, nd);
      outcome := Committed;
    } else {
      outcome := RolledBack(|dbi.history|);
      var undoErrs;
      undoErrs, thrown := Undo(dbi, plan.coladd, plan.otherdel, tab, was.now, relaxed);
      DropsFollow(h0, h3, h5, dbi.history, destructive, plan, errWhenAltering, o, od, n, nd);
      StillStopped(errs, h0, h3, h5, dbi.history, plan.colchanged, errWhenAltering, destructive, h3,
                   Complaints(h3, |h0|), |h0|);
      assert (errs + undoErrs)[1..] == undoErrs;
      errs := errs + undoErrs;
    }
  }
}
