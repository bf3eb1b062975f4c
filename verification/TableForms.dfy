/** What elements say, and the elements that the columns and indexes of the server become. */
module TableForms {
  import opened Wrappers
  import opened Text
  import opened TableText
  import opened Server
  import opened TableAlter

  // ---------------------------------------------------------------- parameters

  /** The first parameter of a name counts. */
  lemma {:induction false} FirstParam(ps: seq<(string, string)>, name: string, i: nat)
    requires i <= |ps| && (forall k :: 0 <= k < i ==> ps[k].0 != name) && (i < |ps| ==> ps[i].0 == name)
    ensures GetParam(ps, name) == if i < |ps| then ps[i].1 else ""
  {
    if i > 0 {
      FirstParam(ps[1..], name, i - 1);
    }
  }

  /** All of them are listed, in their order. */
  lemma AllParams(ps: seq<(string, string)>, more: seq<(string, string)>, name: string, other: string, value: string)
    ensures ParamList([], name) == [] && ParamList([(name, value)], name) == [value]
    ensures other != name ==> ParamList([(other, value)], name) == []
    ensures ParamList(ps + more, name) == ParamList(ps, name) + ParamList(more, name)
  {
    ParamsConcat(ps, more, name);
  }

  lemma {:induction false} ParamsConcat(ps: seq<(string, string)>, more: seq<(string, string)>, name: string)
    ensures ParamList(ps + more, name) == ParamList(ps, name) + ParamList(more, name)
  {
    if ps == [] {
      assert ps + more == more;
    } else {
      ParamsConcat(ps[1..], more, name);
      assert (ps + more)[1..] == ps[1..] + more;
    }
  }

  /** The key is the type and the name; a primary key needs no name. */
  lemma KeyForm(e: Element)
    ensures ElemKey(e) == if e.elemtype == "primary-key" then "primary-key" else e.elemtype + ": " + Param(e, "name")
    ensures HasDefault(e) <==> e.elemtype == "column" && Param(e, "default") != ""
  {
  }

  // ---------------------------------------------------------------- columns of the server

  function Given(name: string, value: string): seq<(string, string)> {
    if value == "" then [] else [(name, value)]
  }

  /** AddColumn of the table description. */
  function AddColumn(name: string, sqltype: string, isnullable: bool, len: string, defval: string, prec: string,
                     scale: string, isident: bool, seed: string, incr: string): Element {
    Element("column",
            [("name", name), ("type", sqltype), ("null", if isnullable then "1" else "0")]
            + (Given("length", len) + (Given("default", defval) + (Given("precision", prec) + (Given("scale", scale)
            + (if isident then [("identity_seed", seed), ("identity_incr", incr)] else []))))))
  }

  /** The element of a column as the server has it. */
  function ElementOf(name: string, c: Column): Element {
    AddColumn(name, c.sqltype, c.nullity.Null?, if c.size.Length? then c.size.len else "", c.dflt,
              if c.size.Decimal? then c.size.precision else "", if c.size.Decimal? then c.size.scale else "",
              c.identity.Identity?, if c.identity.Identity? then c.identity.seed else "",
              if c.identity.Identity? then c.identity.increment else "")
  }

  /** A column of the server says whether it may be null, and nothing of it is empty that is there. */
  predicate OnServer(c: Column) {
    && !c.nullity.Unstated? && (c.size.Length? ==> c.size.len != "")
    && (c.size.Decimal? ==> c.size.precision != "" && c.size.scale != "")
    && (c.identity.Identity? ==> c.identity.seed != "" && c.identity.increment != "")
  }

  lemma ParamGiven(n: string, v: string, ps: seq<(string, string)>, name: string)
    ensures GetParam(Given(n, v) + ps, name) == if n == name && v != "" then v else GetParam(ps, name)
  {
    assert v == "" ==> Given(n, v) + ps == ps;
    assert v != "" ==> (Given(n, v) + ps)[1..] == ps;
  }

  lemma ParamOne(p: (string, string), ps: seq<(string, string)>, name: string)
    ensures GetParam([p] + ps, name) == if p.0 == name then p.1 else GetParam(ps, name)
  {
    assert ([p] + ps)[1..] == ps;
  }

  lemma ParamThree(a: (string, string), b: (string, string), c: (string, string), ps: seq<(string, string)>,
                   name: string)
    ensures GetParam([a, b, c] + ps, name) ==
      if a.0 == name then a.1 else if b.0 == name then b.1 else if c.0 == name then c.1 else GetParam(ps, name)
  {
    hide GetParam;
    ParamOne(c, ps, name);
    ParamOne(b, [c] + ps, name);
    ParamOne(a, [b] + ([c] + ps), name);
    assert [a] + ([b] + ([c] + ps)) == [a, b, c] + ps;
  }

  /** What the parameters of such an element are. */
  lemma ColumnParam(name: string, sqltype: string, isnullable: bool, len: string, defval: string, prec: string,
                    scale: string, isident: bool, seed: string, incr: string, param: string)
    ensures Param(AddColumn(name, sqltype, isnullable, len, defval, prec, scale, isident, seed, incr), param) ==
      if param == "name" then name
      else if param == "type" then sqltype
      else if param == "null" then if isnullable then "1" else "0"
      else if param == "length" then len
      else if param == "default" then defval
      else if param == "precision" then prec
      else if param == "scale" then scale
      else if param == "identity_seed" && isident then seed
      else if param == "identity_incr" && isident then incr
      else ""
  {
    var ident := if isident then [("identity_seed", seed), ("identity_incr", incr)] else [];
    hide GetParam, Given;
    IdentityParam(isident, seed, incr, param);
    ParamGiven("scale", scale, ident, param);
    ParamGiven("precision", prec, Given("scale", scale) + ident, param);
    ParamGiven("default", defval, Given("precision", prec) + (Given("scale", scale) + ident), param);
    var rest := Given("default", defval) + (Given("precision", prec) + (Given("scale", scale) + ident));
    ParamGiven("length", len, rest, param);
    ParamThree(("name", name), ("type", sqltype), ("null", if isnullable then "1" else "0"),
               Given("length", len) + rest, param);
  }

  lemma IdentityParam(isident: bool, seed: string, incr: string, param: string)
    ensures GetParam(if isident then [("identity_seed", seed), ("identity_incr", incr)] else [], param) ==
      if !isident then "" else if param == "identity_seed" then seed else if param == "identity_incr" then incr else ""
  {
    ParamOne(("identity_incr", incr), [], param);
    ParamOne(("identity_seed", seed), [("identity_incr", incr)], param);
    assert [("identity_incr", incr)] + [] == [("identity_incr", incr)];
    assert [("identity_seed", seed)] + [("identity_incr", incr)] == [("identity_seed", seed), ("identity_incr", incr)];
    assert GetParam([], param) == "";
    hide GetParam;
  }

  /** Asking for the element of a column of the server gives back that column. */
  lemma ColumnBack(name: string, c: Column)
    requires OnServer(c)
    ensures var e := ElementOf(name, c);
      && e.elemtype == "column" && Name(e) == name
      && ColumnOf(e, true) == c && ColumnOf(e, false) == c.(dflt := "")
  {
    hide AddColumn, Param;
    forall param ensures ElementParam(name, c, param) {
      ElementParams(name, c, param);
    }
    assert ElementParam(name, c, "name") && ElementParam(name, c, "type") && ElementParam(name, c, "null");
    assert ElementParam(name, c, "length") && ElementParam(name, c, "default");
    assert ElementParam(name, c, "precision") && ElementParam(name, c, "scale");
    assert ElementParam(name, c, "identity_seed") && ElementParam(name, c, "identity_incr");
    ColumnType(name, c);
  }

  lemma ColumnType(name: string, c: Column)
    ensures ElementOf(name, c).elemtype == "column"
  {
  }

  predicate ElementParam(name: string, c: Column, param: string) {
    Param(ElementOf(name, c), param) ==
      match param
      case "name" => name
      case "type" => c.sqltype
      case "null" => if c.nullity.Null? then "1" else "0"
      case "length" => if c.size.Length? then c.size.len else ""
      case "default" => c.dflt
      case "precision" => if c.size.Decimal? then c.size.precision else ""
      case "scale" => if c.size.Decimal? then c.size.scale else ""
      case "identity_seed" => if c.identity.Identity? then c.identity.seed else ""
      case "identity_incr" => if c.identity.Identity? then c.identity.increment else ""
      case _ => ""
  }

  lemma ElementParams(name: string, c: Column, param: string)
    ensures ElementParam(name, c, param)
  {
    hide AddColumn, Param;
    ColumnParam(name, c.sqltype, c.nullity.Null?, if c.size.Length? then c.size.len else "", c.dflt,
                if c.size.Decimal? then c.size.precision else "", if c.size.Decimal? then c.size.scale else "",
                c.identity.Identity?, if c.identity.Identity? then c.identity.seed else "",
                if c.identity.Identity? then c.identity.increment else "", param);
  }

  // ---------------------------------------------------------------- indexes of the server

  function Columns(columns: seq<string>): (ps: seq<(string, string)>)
    ensures |ps| == |columns| && forall k :: 0 <= k < |ps| ==> ps[k] == ("column", columns[k])
  {
    seq(|columns|, k requires 0 <= k < |columns| => ("column", columns[k]))
  }

  function Flag(b: bool): string {
    if b then "1" else "0"
  }

  /** AddIndex of the table description. */
  function AddIndex(name: string, unique: bool, clustered: bool, columns: seq<string>): Element {
    Element("index", Columns(columns) + [("name", name), ("unique", Flag(unique)), ("clustered", Flag(clustered))])
  }

  /** AddPrimaryKey: the default name is left out. */
  function AddPrimaryKey(tab: string, name: string, clustered: bool, columns: seq<string>): Element {
    Element("primary-key",
            (if name != "" && name != "PK_" + tab then [("name", name)] else [])
            + (Columns(columns) + [("clustered", Flag(clustered))]))
  }

  lemma {:induction false} SkipColumns(columns: seq<string>, ps: seq<(string, string)>, name: string)
    ensures name != "column" ==> GetParam(Columns(columns) + ps, name) == GetParam(ps, name)
    ensures ParamList(Columns(columns) + ps, "column") == columns + ParamList(ps, "column")
  {
    var all := Columns(columns) + ps;
    if columns == [] {
      assert all == ps && columns + ParamList(ps, "column") == ParamList(ps, "column");
    } else {
      SkipColumns(columns[1..], ps, name);
      assert all[1..] == Columns(columns[1..]) + ps && all[0] == ("column", columns[0]);
      assert [columns[0]] + (columns[1..] + ParamList(ps, "column")) == columns + ParamList(ps, "column");
    }
  }

  /** Asking for the element of an index of the server gives back that index, under its name. */
  lemma IndexBack(tab: string, name: string, i: Index)
    requires !i.primary
    ensures var e := AddIndex(name, i.unique, i.clustered, i.columns);
      e.elemtype == "index" && IndexName(tab, e) == name && IndexOf(e) == i
  {
    var rest := [("name", name), ("unique", Flag(i.unique)), ("clustered", Flag(i.clustered))];
    IndexParams(name, i.unique, i.clustered);
    SkipColumns(i.columns, rest, "name");
    SkipColumns(i.columns, rest, "unique");
    SkipColumns(i.columns, rest, "clustered");
    hide GetParam, ParamList, Columns;
    assert i.columns + [] == i.columns;
  }

  lemma IndexParams(name: string, unique: bool, clustered: bool)
    ensures var rest := [("name", name), ("unique", Flag(unique)), ("clustered", Flag(clustered))];
      && GetParam(rest, "name") == name && GetParam(rest, "unique") == Flag(unique)
      && GetParam(rest, "clustered") == Flag(clustered) && ParamList(rest, "column") == []
  {
    var a, b, c := ("name", name), ("unique", Flag(unique)), ("clustered", Flag(clustered));
    assert [a, b, c] + [] == [a, b, c];
    ParamThree(a, b, c, [], "name");
    ParamThree(a, b, c, [], "unique");
    ParamThree(a, b, c, [], "clustered");
    NoneOf(a, "column");
    NoneOf(b, "column");
    NoneOf(c, "column");
    ParamsConcat([a], [b], "column");
    ParamsConcat([a] + [b], [c], "column");
    assert [a] + [b] + [c] == [a, b, c];
  }

  lemma NoneOf(p: (string, string), name: string)
    ensures ParamList([p], name) == if p.0 == name then [p.1] else []
  {
    assert [p][1..] == [];
  }

  /** The same for a primary key, with or without the default name. */
  lemma PrimaryKeyBack(tab: string, name: string, i: Index)
    requires i.primary && i.unique && name != ""
    ensures var e := AddPrimaryKey(tab, name, i.clustered, i.columns);
      e.elemtype == "primary-key" && IndexName(tab, e) == name && IndexOf(e) == i
  {
    var front := if name != "PK_" + tab then [("name", name)] else [];
    var last := [("clustered", Flag(i.clustered))];
    var rest := Columns(i.columns) + last;
    NoneOf(("name", name), "column");
    NoneOf(("clustered", Flag(i.clustered)), "column");
    ParamOne(("name", name), rest, "name");
    ParamOne(("name", name), rest, "clustered");
    ParamOne(("clustered", Flag(i.clustered)), [], "name");
    ParamOne(("clustered", Flag(i.clustered)), [], "clustered");
    assert last + [] == last && GetParam([], "name") == "" && ParamList([], "column") == [];
    SkipColumns(i.columns, last, "name");
    SkipColumns(i.columns, last, "clustered");
    ParamsConcat(front, rest, "column");
    hide GetParam, ParamList, Columns;
    assert front == [] ==> front + rest == rest;
    assert [] + i.columns == i.columns && i.columns + [] == i.columns;
  }
}
