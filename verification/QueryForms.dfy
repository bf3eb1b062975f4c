/** The restrictions in terms of the words of a query, written out. */
module QueryForms {
  import opened Wrappers
  import opened Tokenizer
  import opened Rereading
  import opened Restriction
  import opened QueryParser

  /** The commands that count. */
  predicate Command(word: string) {
    || word in ["alter", "checkpoint", "close", "commit", "create", "dbcc", "deallocate", "declare", "delete", "drop"]
    || word in ["dump", "exec", "execute", "fetch", "grant", "insert", "kill", "load", "open", "print", "raiserror"]
    || word in ["readtext", "reconfigure", "revoke", "rollback", "save", "select", "set", "setuser", "shutdown"]
    || word in ["truncate", "update", "use", "waitfor", "while", "writetext"]
  }

  predicate IsKey(lower: string -> string, t: Token, word: string) {
    t.kind == Keyword && lower(t.name) == word
  }

  predicate IsCommand(lower: string -> string, t: Token) {
    t.kind == Keyword && Command(lower(t.name))
  }

  predicate IsComment(t: Token) {
    t.kind == Comment || t.kind == DelimitedComment
  }

  lemma KeyWordForm(name: string)
    ensures KeyWord(name).Begin? <==> name == "begin"
    ensures KeyWord(name).Transaction? <==> name == "transaction"
    ensures KeyWord(name).Distributed? <==> name == "distributed"
    ensures KeyWord(name).Insert? <==> name == "insert"
    ensures KeyWord(name).Into? <==> name == "into"
    ensures KeyWord(name).Exec? <==> name == "exec"
    ensures KeyWord(name).Execute? <==> name == "execute"
    ensures KeyWord(name).Update? <==> name == "update"
    ensures KeyWord(name).Set? <==> name == "set"
    ensures KeyWord(name).Alter? <==> name == "alter"
    ensures KeyWord(name).Database? <==> name == "database"
    ensures KeyWord(name).Table? <==> name == "table"
    ensures KeyWord(name).Select? <==> name == "select"
  {
    assert "begin" !in OTHER_COMMANDS;
  }

  lemma CommandForm(name: string)
    ensures Command(name) <==>
      KeyWord(name) in {Insert, Exec, Execute, Update, Set, Alter, Select, OtherCommand}
  {
    KeyWordForm(name);
  }

  /** What the check sees of a token, in terms of its kind and its word. */
  lemma SymForm(lower: string -> string, t: Token)
    ensures var s := SymOf(lower, t);
      && (Simple(s) <==> IsCommand(lower, t)) && (s.comment <==> IsComment(t))
      && (s.word.Begin? <==> IsKey(lower, t, "begin")) && (s.word.Select? <==> IsKey(lower, t, "select"))
      && (OpensTransaction(s) <==> IsKey(lower, t, "transaction") || IsKey(lower, t, "distributed"))
      && (s.word.Update? <==> IsKey(lower, t, "update")) && (s.word.Set? <==> IsKey(lower, t, "set"))
      && (s.word.Insert? <==> IsKey(lower, t, "insert")) && (s.word.Exec? <==> IsKey(lower, t, "exec"))
      && (s.word.Alter? <==> IsKey(lower, t, "alter")) && (s.word.Into? <==> IsKey(lower, t, "into"))
      && (s.word.Database? <==> IsKey(lower, t, "database")) && (s.word.Table? <==> IsKey(lower, t, "table"))
      && (s.identifier <==> t.kind in {Unquoted, DoubleQuoted, Delimited})
      && (s.mark <==> t.kind in {Comma, Period, LParen, RParen})
  {
    KeyWordForm(lower(t.name));
    CommandForm(lower(t.name));
    hide KeyWord, Command;
  }

  /** The words that the check does not know, although they would open a transaction or change something. */
  lemma UnseenForm(name: string)
    ensures KeyWord(name).Tran? <==> name == "tran"
    ensures KeyWord(name).Unlisted? <==> name in ["backup", "restore", "deny", "updatetext"]
  {
  }

  function Bare(ts: seq<Token>): (r: seq<Token>)
    ensures forall t :: t in r ==> t in ts && !IsComment(t)
  {
    if ts == [] then []
    else
      var last := ts[|ts| - 1];
      Bare(ts[..|ts| - 1]) + if IsComment(last) then [] else [last]
  }

  lemma {:induction false} BareSyms(lower: string -> string, ts: seq<Token>)
    ensures WithoutComments(Syms(lower, ts)) == Syms(lower, Bare(ts))
  {
    if ts != [] {
      var n := |ts| - 1;
      BareSyms(lower, ts[..n]);
      assert Syms(lower, ts)[..n] == Syms(lower, ts[..n]);
      SymForm(lower, ts[n]);
      hide SymOf;
    }
  }

  // ---------------------------------------------------------------- level 2

  predicate OpensAt(lower: string -> string, ts: seq<Token>, i: nat)
    requires i < |ts|
  {
    i > 0 && IsKey(lower, ts[i - 1], "begin")
    && (IsKey(lower, ts[i], "transaction") || IsKey(lower, ts[i], "distributed"))
  }

  /** At level 2 a query passes exactly if, comments aside, SELECT is its only command and no BEGIN stands in front of
      TRANSACTION or DISTRIBUTED. */
  lemma Level2Form(lower: string -> string, level: int, ts: seq<Token>)
    requires level >= 2
    ensures Check(level, Syms(lower, ts)).Going? <==>
      forall i :: 0 <= i < |Bare(ts)| ==>
        (IsCommand(lower, Bare(ts)[i]) ==> IsKey(lower, Bare(ts)[i], "select")) && !OpensAt(lower, Bare(ts), i)
  {
    Level2(level, Syms(lower, ts));
    BareSyms(lower, ts);
    hide Check, Bare, IsCommand, IsKey, SymOf, Simple, OpensTransaction;
    var words := Bare(ts);
    forall i | 0 <= i < |words|
      ensures Simple(Syms(lower, words)[i]) <==> IsCommand(lower, words[i])
      ensures Syms(lower, words)[i].word.Select? <==> IsKey(lower, words[i], "select")
      ensures BeginsTransaction(Syms(lower, words), i) <==> OpensAt(lower, words, i)
    {
      SymForm(lower, words[i]);
      if i > 0 {
        SymForm(lower, words[i - 1]);
      }
    }
  }

  // ---------------------------------------------------------------- level 1

  predicate EventAt(lower: string -> string, ts: seq<Token>, i: nat)
    requires i < |ts|
  {
    IsCommand(lower, ts[i]) || OpensAt(lower, ts, i)
  }

  predicate FirstEvent(lower: string -> string, ts: seq<Token>, c: nat)
    requires c < |ts|
  {
    EventAt(lower, ts, c) && forall j :: 0 <= j < c ==> !EventAt(lower, ts, j)
  }

  predicate NoSet(lower: string -> string, ts: seq<Token>, from: nat, to: nat)
    requires to <= |ts|
  {
    forall j :: from <= j < to ==> !IsKey(lower, ts[j], "set")
  }

  predicate ColumnList(lower: string -> string, ts: seq<Token>, from: nat, to: nat)
    requires to <= |ts|
  {
    forall j :: from <= j < to ==>
      || ts[j].kind in {Unquoted, DoubleQuoted, Delimited, Comma, Period, LParen, RParen}
      || IsKey(lower, ts[j], "into") || IsKey(lower, ts[j], "begin")
  }

  predicate OnlyNames(lower: string -> string, ts: seq<Token>, from: nat, to: nat)
    requires to <= |ts|
  {
    forall j :: from <= j < to ==>
      ts[j].kind in {Unquoted, DoubleQuoted, Delimited} || IsKey(lower, ts[j], "begin")
  }

  predicate OnlyBegins(lower: string -> string, ts: seq<Token>, from: nat, to: nat)
    requires to <= |ts|
  {
    forall j :: from <= j < to ==> IsKey(lower, ts[j], "begin")
  }

  /** What ALTER is about. */
  predicate AlterObject(lower: string -> string, ts: seq<Token>, c: nat, d: nat, i: nat)
    requires c < d < i < |ts|
  {
    && OnlyBegins(lower, ts, c + 1, d) && !IsKey(lower, ts[d], "begin") && NoSet(lower, ts, d + 1, i)
    && (IsKey(lower, ts[d], "database") || (IsKey(lower, ts[d], "table") && OnlyNames(lower, ts, d + 1, i)))
  }

  /** The first SET of an UPDATE, the EXEC behind the columns of an INSERT, the first SET of an ALTER DATABASE or,
      behind nothing but names, of an ALTER TABLE. */
  ghost predicate BelongsTo(lower: string -> string, ts: seq<Token>, c: nat, i: nat)
    requires c < i < |ts|
  {
    || (IsKey(lower, ts[c], "update") && IsKey(lower, ts[i], "set") && NoSet(lower, ts, c + 1, i))
    || (IsKey(lower, ts[c], "insert") && IsKey(lower, ts[i], "exec") && ColumnList(lower, ts, c + 1, i))
    || (IsKey(lower, ts[c], "alter") && IsKey(lower, ts[i], "set")
        && exists d :: c < d < i && AlterObject(lower, ts, c, d, i))
  }

  /** What may stand at some place. */
  ghost predicate MayStand(lower: string -> string, ts: seq<Token>, i: nat)
    requires i < |ts|
  {
    forall c :: 0 <= c < i && FirstEvent(lower, ts, c) && EventAt(lower, ts, i) ==>
      !OpensAt(lower, ts, i) && (IsKey(lower, ts[i], "select") || BelongsTo(lower, ts, c, i))
  }

  lemma EventForm(lower: string -> string, ts: seq<Token>, i: nat)
    requires i < |ts|
    ensures BeginsTransaction(Syms(lower, ts), i) <==> OpensAt(lower, ts, i)
    ensures Event(Syms(lower, ts), i) <==> EventAt(lower, ts, i)
  {
    SymForm(lower, ts[i]);
    if i > 0 {
      SymForm(lower, ts[i - 1]);
    }
    hide IsCommand, IsKey, SymOf, Simple, OpensTransaction;
  }

  lemma RangeForms(lower: string -> string, ts: seq<Token>, from: nat, to: nat)
    requires to <= |ts|
    ensures var syms := Syms(lower, ts);
      && (Seen(syms, from, to, Set) <==> !NoSet(lower, ts, from, to))
      && (AllListParts(syms, from, to) <==> ColumnList(lower, ts, from, to))
      && (AllIdentifiers(syms, from, to) <==> OnlyNames(lower, ts, from, to))
  {
    forall j | from <= j < to
      ensures var s := Syms(lower, ts)[j];
        && (s.word.Set? <==> IsKey(lower, ts[j], "set")) && (s.word.Begin? <==> IsKey(lower, ts[j], "begin"))
        && (s.word.Into? <==> IsKey(lower, ts[j], "into"))
        && (s.identifier <==> ts[j].kind in {Unquoted, DoubleQuoted, Delimited})
        && (s.mark <==> ts[j].kind in {Comma, Period, LParen, RParen})
    {
      SymForm(lower, ts[j]);
    }
    hide IsKey, SymOf;
  }

  lemma TargetForm(lower: string -> string, ts: seq<Token>, c: nat, i: nat)
    requires c < i < |ts|
    ensures AlterSet(Syms(lower, ts), c, i) <==> exists d :: c < d < i && AlterObject(lower, ts, c, d, i)
  {
    var syms := Syms(lower, ts);
    var d := Target(syms, c + 1, i);
    forall j | c < j < i
      ensures (syms[j].word.Begin? <==> IsKey(lower, ts[j], "begin"))
        && (syms[j].word.Database? <==> IsKey(lower, ts[j], "database"))
        && (syms[j].word.Table? <==> IsKey(lower, ts[j], "table"))
    {
      SymForm(lower, ts[j]);
    }
    hide IsKey, SymOf, Target, Seen, NoSet, OnlyNames, AllIdentifiers;
    if d < i {
      RangeForms(lower, ts, d + 1, i);
      assert OnlyBegins(lower, ts, c + 1, d) && !IsKey(lower, ts[d], "begin");
      assert AlterSet(syms, c, i) <==> AlterObject(lower, ts, c, d, i);
    }
    forall e | c < e < i && AlterObject(lower, ts, c, e, i) ensures e == d {
    }
  }

  lemma ContinuesForm(lower: string -> string, ts: seq<Token>, c: nat, i: nat)
    requires c < i < |ts|
    ensures Continues(Syms(lower, ts), c, i) <==> BelongsTo(lower, ts, c, i)
  {
    SymForm(lower, ts[c]);
    SymForm(lower, ts[i]);
    RangeForms(lower, ts, c + 1, i);
    TargetForm(lower, ts, c, i);
    OneWord(lower, ts[c]);
    hide IsKey, SymOf, AlterSet, AlterObject, Seen, NoSet, ColumnList, AllListParts;
  }

  lemma OneWord(lower: string -> string, t: Token)
    ensures !(IsKey(lower, t, "update") && IsKey(lower, t, "insert"))
    ensures !(IsKey(lower, t, "update") && IsKey(lower, t, "alter"))
    ensures !(IsKey(lower, t, "insert") && IsKey(lower, t, "alter"))
  {
  }

  lemma AllowedForm(lower: string -> string, ts: seq<Token>, i: nat)
    requires i < |ts|
    ensures Allowed(Syms(lower, ts), i) <==> MayStand(lower, ts, i)
  {
    var syms := Syms(lower, ts);
    var c := First(syms, i);
    forall j | 0 <= j <= i ensures Event(syms, j) <==> EventAt(lower, ts, j) {
      EventForm(lower, ts, j);
    }
    EventForm(lower, ts, i);
    SymForm(lower, ts[i]);
    hide IsKey, SymOf, Continues, BelongsTo, EventAt, Event, First, OpensAt, BeginsTransaction;
    if c < i {
      ContinuesForm(lower, ts, c, i);
      assert FirstEvent(lower, ts, c);
    }
    forall e | 0 <= e < i && FirstEvent(lower, ts, e) ensures e == c {
    }
  }

  /** At level 1 a query passes exactly if, comments aside, whatever command comes behind the first is SELECT or
      belongs to the first, and no transaction is opened behind it. */
  lemma Level1Form(lower: string -> string, ts: seq<Token>)
    ensures Check(1, Syms(lower, ts)).Going? <==>
      forall i :: 0 <= i < |Bare(ts)| ==> MayStand(lower, Bare(ts), i)
  {
    Level1(lower, ts);
    BareSyms(lower, ts);
    hide Check, Bare, MayStand, Allowed;
    var words := Bare(ts);
    forall i | 0 <= i < |words| ensures Allowed(Syms(lower, words), i) <==> MayStand(lower, words, i) {
      AllowedForm(lower, words, i);
    }
  }

  // ---------------------------------------------------------------- the query parser

  /** What a level allows, comments aside. */
  ghost predicate LevelAllows(lower: string -> string, level: nat, words: seq<Token>) {
    && (level == 1 ==> forall i :: 0 <= i < |words| ==> MayStand(lower, words, i))
    && (level >= 2 ==>
        forall i :: 0 <= i < |words| ==>
          (IsCommand(lower, words[i]) ==> IsKey(lower, words[i], "select")) && !OpensAt(lower, words, i))
  }

  lemma CheckForm(lower: string -> string, level: nat, ts: seq<Token>)
    ensures level == 0 || Check(level, Syms(lower, ts)).Going? <==> LevelAllows(lower, level, Bare(ts))
  {
    hide Check, Bare, MayStand, IsCommand, IsKey, OpensAt, Syms;
    if level == 1 {
      Level1Form(lower, ts);
    } else if level >= 2 {
      Level2Form(lower, level, ts);
    }
  }

  /** What is handed on at which level, in terms of the words of the rewritten query. */
  lemma HandedOnForm(cls: Classes, lower: string -> string, query: string, level: nat)
    ensures HandedOn(cls, lower, query, level).Some? <==> LevelAllows(lower, level, Bare(Rewritten(cls, lower, query)))
  {
    hide Rewritten, Check, Bare, Syms, Render, LevelAllows;
    CheckForm(lower, level, Rewritten(cls, lower, query));
  }

  predicate Quoted(t: Token) {
    t.kind in {SingleQuoted, DoubleQuoted, Delimited, Comment, DelimitedComment}
  }

  predicate Says(lower: string -> string, t: Token, word: string) {
    !Quoted(t) && lower(t.name) == word
  }

  /** Which statements are replaced, and with which of their words: get object with a kind and a name; use with a name;
      list tables; list columns of a table; list all with table or a kind. */
  lemma StatementForm(lower: string -> string, ts: seq<Token>, i: nat)
    requires i < |ts|
    ensures var (s, left) := (StatementAt(lower, ts, i), |ts| - i);
      && (left >= 4 && Says(lower, ts[i], "get") && Says(lower, ts[i + 1], "object") ==>
          s == Some(Object(ts[i + 2].name, ts[i + 3].name)))
      && (left >= 2 && IsKey(lower, ts[i], "use") && ts[i + 1].kind in {Unquoted, DoubleQuoted, Delimited} ==>
          s == Some(Use))
      && (left >= 2 && Says(lower, ts[i], "list") && !IsKey(lower, ts[i], "use") && Says(lower, ts[i + 1], "tables") ==>
          s == Some(Tables))
      && (left >= 3 && Says(lower, ts[i], "list") && Says(lower, ts[i + 1], "columns") ==>
          s == Some(Columns(ts[i + 2].name)))
      && (left >= 3 && Says(lower, ts[i], "list") && Says(lower, ts[i + 1], "all") ==>
          s == Some(if Says(lower, ts[i + 2], "table") then AllTables else All(ts[i + 2].name)))
      && (s.Some? ==>
          left >= 2 && !Quoted(ts[i]) && (lower(ts[i].name) in ["get", "list"] || IsKey(lower, ts[i], "use")))
  {
  }

  /** What the server gets in place of them, and how many tokens that stands for. */
  lemma TextForm(kind: string, name: string)
    ensures Taken(Object(kind, name)) == 4 && Text(Object(kind, name)) ==
      "select " + ("cast(text as varchar(max)) text from syscomments where objectproperty(id, 'Is" + kind
                   + "') = 1 and object_name(id) = '" + name + "' order by number, colid;")
  {
  }

  lemma ShortTextForm(name: string)
    ensures Taken(Use) == 2 && Text(Use) == ";"
    ensures Taken(Tables) == 2 && Text(Tables) == "exec sp_tables;"
    ensures Taken(Columns(name)) == 3
  {
    hide Pattern, ObjectText, AllText, AllTablesText, ColumnsText;
  }

  lemma ColumnsTextForm(name: string)
    ensures Text(Columns(name)) == "exec sp_columns @table_name='" + (Pattern(name) + "';")
  {
    hide Pattern, ObjectText, AllText, AllTablesText;
  }

  lemma AllTablesTextForm()
    ensures Taken(AllTables) == 3 && Text(AllTables) ==
      "select " + ("distinct cast(Name as varchar(max)) Name from sysobjects  where objectproperty(id,'IsTable')=1 "
                   + " and xtype='U'  order by Name;")
  {
    hide Pattern, ObjectText, AllText, ColumnsText;
  }

  lemma AllTextForm(kind: string)
    ensures Taken(All(kind)) == 3 && Text(All(kind)) ==
      "select "
      + ("distinct  cast (object_name(id) as varchar(256)) Name  from syscomments  where objectproperty(id,'Is"
         + kind + "') = 1  order by Name;")
  {
    hide Pattern, ObjectText, AllTablesText, ColumnsText;
  }
}
