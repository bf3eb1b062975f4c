/** The check of VxDb.query_parser: which statements a restricted connection may send. */
module Restriction {
  import opened Tokenizer

  /** The key words the check looks for; the other commands are all alike to it.  It does not look for TRAN and the
      unlisted commands, which are told apart here only to say so. */
  datatype Word = Begin | Transaction | Distributed | Insert | Into | Exec | Execute | Update | Set | Alter | Database
                | Table | Select | OtherCommand | Tran | Unlisted | OtherWord

  const OTHER_COMMANDS: set<string> := {
    "checkpoint", "close", "commit", "create", "dbcc", "deallocate", "declare", "delete", "drop", "dump", "fetch",
    "grant", "kill", "load", "open", "print", "raiserror", "readtext", "reconfigure", "revoke", "rollback", "save",
    "setuser", "shutdown", "truncate", "use", "waitfor", "while", "writetext"
  }

  /** Key words of the tokenizer that begin statements, but are not on the list of the check. */
  const UNLISTED: set<string> := {"backup", "restore", "deny", "updatetext"}

  function KeyWord(name: string): Word {
    if name == "begin" then Begin
    else if name == "transaction" then Transaction
    else if name == "distributed" then Distributed
    else if name == "insert" then Insert
    else if name == "into" then Into
    else if name == "exec" then Exec
    else if name == "execute" then Execute
    else if name == "update" then Update
    else if name == "set" then Set
    else if name == "alter" then Alter
    else if name == "database" then Database
    else if name == "table" then Table
    else if name == "select" then Select
    else if name in OTHER_COMMANDS then OtherCommand
    else if name == "tran" then Tran
    else if name in UNLISTED then Unlisted
    else OtherWord
  }

  /** What the check sees of a token. */
  datatype Sym = Sym(word: Word, identifier: bool, mark: bool, comment: bool)

  function SymOf(lower: string -> string, t: Token): Sym {
    Sym(if t.kind == Keyword then KeyWord(lower(t.name)) else OtherWord,
        t.kind == DoubleQuoted || t.kind == Unquoted || t.kind == Delimited,
        t.kind == Comma || t.kind == Period || t.kind == LParen || t.kind == RParen,
        t.kind == Comment || t.kind == DelimitedComment)
  }

  /** IsSimpleCommand. */
  predicate Simple(s: Sym) {
    match s.word
    case Insert | Exec | Execute | Update | Set | Alter | Select | OtherCommand => true
    case _ => false
  }

  predicate OpensTransaction(s: Sym) {
    s.word.Transaction? || s.word.Distributed?
  }

  /** What may stand between INSERT and its EXEC. */
  predicate ListPart(s: Sym) {
    s.word.Into? || s.identifier || s.mark
  }

  // ---------------------------------------------------------------- the machine

  datatype Flags = Flags(command: bool, begin: bool, insert: bool, update: bool, insertValid: bool,
                         alter: bool, alterdb: bool, altertable: bool, altertableValid: bool)

  const NO_FLAGS := Flags(false, false, false, false, true, false, false, false, true)

  datatype Verdict = Refused | Going(flags: Flags)

  /** The first command, with note taken of those that may be continued. */
  function Started(s: Sym, f: Flags): Flags {
    f.(command := true, insert := f.insert || s.word.Insert?, update := f.update || s.word.Update?,
       alter := f.alter || s.word.Alter?)
  }

  function Command(level: int, s: Sym, f: Flags): Verdict {
    if !f.command && (level < 2 || s.word.Select?) then Going(Started(s, f))
    else if f.update && s.word.Set? then Going(f.(update := false))
    else if f.alterdb && s.word.Set? then Going(f.(alterdb := false))
    else if f.insert && f.insertValid && (s.word.Exec? || s.word.Execute?) then Going(f.(insert := false))
    else if f.altertable && f.altertableValid && s.word.Set? then Going(f.(altertable := false))
    else if s.word != Select then Refused
    else Going(f)
  }

  /** After the word that follows ALTER has been looked at. */
  function AfterAlter(level: int, s: Sym, f: Flags): Verdict {
    if f.alter && s.word.Database? then Going(f.(alter := false, alterdb := true))
    else if f.alter && s.word.Table? then Going(f.(alter := false, altertable := true))
    else AfterObject(level, s, f.(alter := false))
  }

  function AfterObject(level: int, s: Sym, f: Flags): Verdict {
    var f := if f.altertable && !(s.identifier || s.word.Set?) then f.(altertableValid := false) else f;
    if Simple(s) then Command(level, s, f) else Going(f)
  }

  /** One token. */
  function Turn(level: int, s: Sym, f: Flags): Verdict {
    if s.comment then Going(f)
    else if f.begin && OpensTransaction(s) && !(!f.command && level < 2) then Refused
    else
      var f := if f.begin then f.(begin := false, command := f.command || OpensTransaction(s)) else f;
      if s.word.Begin? then Going(f.(begin := true))
      else AfterAlter(level, s, if f.insert && !(ListPart(s) || s.word.Exec?) then f.(insertValid := false) else f)
  }

  function Check(level: int, syms: seq<Sym>): Verdict {
    if syms == [] then Going(NO_FLAGS)
    else match Check(level, syms[..|syms| - 1])
      case Refused => Refused
      case Going(f) => Turn(level, syms[|syms| - 1], f)
  }

  function Syms(lower: string -> string, ts: seq<Token>): (r: seq<Sym>)
    ensures |r| == |ts| && forall i :: 0 <= i < |ts| ==> r[i] == SymOf(lower, ts[i])
  {
    seq(|ts|, i requires 0 <= i < |ts| => SymOf(lower, ts[i]))
  }

  // ---------------------------------------------------------------- comments do not matter

  function WithoutComments(syms: seq<Sym>): seq<Sym> {
    if syms == [] then []
    else
      var last := syms[|syms| - 1];
      WithoutComments(syms[..|syms| - 1]) + if last.comment then [] else [last]
  }

  lemma CheckSnoc(level: int, syms: seq<Sym>, s: Sym)
    ensures Check(level, syms + [s]) == if Check(level, syms).Refused? then Refused
      else Turn(level, s, Check(level, syms).flags)
  {
    assert (syms + [s])[..|syms + [s]| - 1] == syms;
  }

  lemma {:induction false} CommentsSkipped(level: int, syms: seq<Sym>)
    ensures Check(level, syms) == Check(level, WithoutComments(syms))
    ensures forall s :: s in WithoutComments(syms) ==> !s.comment
  {
    if syms != [] {
      var init, last := syms[..|syms| - 1], syms[|syms| - 1];
      CommentsSkipped(level, init);
      hide Turn;
      CheckSnoc(level, WithoutComments(init), last);
      if last.comment {
        SkipComment(level, last);
        assert WithoutComments(init) + [] == WithoutComments(init);
      }
    }
  }

  lemma SkipComment(level: int, s: Sym)
    requires s.comment
    ensures forall f :: Turn(level, s, f) == Going(f)
  {
  }

  // ---------------------------------------------------------------- level 2: only SELECT

  predicate BeginsTransaction(syms: seq<Sym>, i: nat)
    requires i < |syms|
  {
    OpensTransaction(syms[i]) && i > 0 && syms[i - 1].word.Begin?
  }

  predicate OnlySelects(syms: seq<Sym>) {
    forall i :: 0 <= i < |syms| ==> (Simple(syms[i]) ==> syms[i].word.Select?) && !BeginsTransaction(syms, i)
  }

  predicate NothingSpecial(f: Flags) {
    !f.insert && !f.update && !f.alter && !f.alterdb && !f.altertable
  }

  lemma TurnLevel2(level: int, s: Sym, f: Flags)
    requires level >= 2 && !s.comment && NothingSpecial(f)
    ensures Turn(level, s, f).Going? <==> (Simple(s) ==> s.word.Select?) && !(f.begin && OpensTransaction(s))
    ensures Turn(level, s, f).Going? ==>
      NothingSpecial(Turn(level, s, f).flags) && (Turn(level, s, f).flags.begin <==> s.word.Begin?)
  {
  }

  lemma OnlySelectsStep(syms: seq<Sym>)
    requires syms != []
    ensures var n := |syms| - 1;
      OnlySelects(syms) <==>
        OnlySelects(syms[..n]) && (Simple(syms[n]) ==> syms[n].word.Select?) && !BeginsTransaction(syms, n)
  {
    hide Simple;
    var n := |syms| - 1;
    var init := syms[..n];
    assert forall i :: 0 <= i < n ==> init[i] == syms[i] && BeginsTransaction(init, i) == BeginsTransaction(syms, i);
  }

  lemma {:induction false} CheckLevel2(level: int, syms: seq<Sym>)
    requires level >= 2 && forall s :: s in syms ==> !s.comment
    ensures Check(level, syms).Going? <==> OnlySelects(syms)
    ensures Check(level, syms).Going? ==>
      (NothingSpecial(Check(level, syms).flags)
       && (Check(level, syms).flags.begin <==> syms != [] && syms[|syms| - 1].word.Begin?))
  {
    hide Turn, OnlySelects, Simple;
    if syms != [] {
      var n := |syms| - 1;
      var init := syms[..n];
      assert syms == init + [syms[n]] && syms[n] in syms;
      CheckLevel2(level, init);
      OnlySelectsStep(syms);
      if Check(level, init).Going? {
        TurnLevel2(level, syms[n], Check(level, init).flags);
      }
    } else {
      NoSelects();
    }
  }

  lemma NoSelects()
    ensures OnlySelects([])
  {
  }

  /** At level 2 a query passes exactly when, comments aside, every listed command in it is SELECT and no BEGIN stands
      in front of TRANSACTION or DISTRIBUTED. */
  lemma Level2(level: int, syms: seq<Sym>)
    requires level >= 2
    ensures Check(level, syms).Going? <==> OnlySelects(WithoutComments(syms))
  {
    CommentsSkipped(level, syms);
    CheckLevel2(level, WithoutComments(syms));
  }

  /** What is meant: no command but SELECT, and no transaction. */
  predicate OnlyReads(syms: seq<Sym>) {
    forall i :: 0 <= i < |syms| ==>
      && (Simple(syms[i]) || syms[i].word.Unlisted? ==> syms[i].word.Select?)
      && !(i > 0 && syms[i - 1].word.Begin? && (OpensTransaction(syms[i]) || syms[i].word.Tran?))
  }

  /** BEGIN TRAN, or an unlisted command. */
  predicate Unseen(syms: seq<Sym>, i: nat)
    requires i < |syms|
  {
    syms[i].word.Unlisted? || (i > 0 && syms[i - 1].word.Begin? && syms[i].word.Tran?)
  }

  /** At level 2 whatever only reads passes; what passes only reads exactly if it has no BEGIN TRAN and no unlisted
      command in it. */
  lemma Level2Reads(level: int, syms: seq<Sym>)
    requires level >= 2
    ensures var words := WithoutComments(syms);
      && (OnlyReads(words) ==> Check(level, syms).Going?)
      && (Check(level, syms).Going? ==>
          (OnlyReads(words) <==> forall i :: 0 <= i < |words| ==> !Unseen(words, i)))
  {
    Level2(level, syms);
    hide Check, WithoutComments, Simple;
    var words := WithoutComments(syms);
    if OnlyReads(words) {
      forall i | 0 <= i < |words|
        ensures (Simple(words[i]) ==> words[i].word.Select?) && !BeginsTransaction(words, i) && !Unseen(words, i)
      {
      }
    } else if OnlySelects(words) {
      var i :| 0 <= i < |words|
        && !(&& (Simple(words[i]) || words[i].word.Unlisted? ==> words[i].word.Select?)
             && !(i > 0 && words[i - 1].word.Begin? && (OpensTransaction(words[i]) || words[i].word.Tran?)));
      assert !BeginsTransaction(words, i) && Unseen(words, i);
    }
  }

  function Blind(s: Sym): Sym {
    if s.word.Tran? || s.word.Unlisted? then s.(word := OtherWord) else s
  }

  function AllBlind(syms: seq<Sym>): (r: seq<Sym>)
    ensures |r| == |syms| && forall i :: 0 <= i < |r| ==> r[i] == Blind(syms[i])
  {
    seq(|syms|, i requires 0 <= i < |syms| => Blind(syms[i]))
  }

  lemma AlterBlind(level: int, s: Sym, f: Flags)
    ensures AfterAlter(level, Blind(s), f) == AfterAlter(level, s, f)
  {
    if s.word.Tran? || s.word.Unlisted? {
      hide Command;
    } else {
      hide AfterAlter;
      assert Blind(s) == s;
    }
  }

  lemma TurnBlind(level: int, s: Sym, f: Flags)
    ensures Turn(level, Blind(s), f) == Turn(level, s, f)
  {
    hide AfterAlter;
    if s.word.Tran? || s.word.Unlisted? {
      AlterBlind(level, s, f);
      AlterBlind(level, s, f.(begin := false));
      AlterBlind(level, s, f.(insertValid := false));
      AlterBlind(level, s, f.(begin := false, insertValid := false));
    } else {
      hide Turn;
      assert Blind(s) == s;
    }
  }

  /** At every level, TRAN and the unlisted commands are like any other word to the check. */
  lemma {:induction false} UnlistedUnseen(level: int, syms: seq<Sym>)
    ensures Check(level, AllBlind(syms)) == Check(level, syms)
  {
    if syms != [] {
      var n := |syms| - 1;
      UnlistedUnseen(level, syms[..n]);
      assert AllBlind(syms)[..n] == AllBlind(syms[..n]);
      hide Turn;
      if Check(level, syms[..n]).Going? {
        TurnBlind(level, syms[n], Check(level, syms[..n]).flags);
      }
    }
  }

  lemma TranMeant()
    ensures KeyWord("begin") == Begin && KeyWord("tran") == Tran
  {
  }

  lemma UnlistedMeant(name: string)
    ensures name in UNLISTED ==> KeyWord(name) == Unlisted
  {
  }

  /** BEGIN TRAN passes level 2, and so does each of the unlisted commands alone. */
  lemma TranPasses(lower: string -> string, name: string)
    requires lower("begin") == "begin" && lower("tran") == "tran" && lower(name) == name && name in UNLISTED
    ensures Check(2, Syms(lower, [Token(Keyword, "begin", "", ""), Token(Keyword, "tran", " ", "")])).Going?
    ensures Check(2, Syms(lower, [Token(Keyword, name, "", "")])).Going?
  {
    hide KeyWord, UNLISTED;
    TranMeant();
    UnlistedMeant(name);
    var two := Syms(lower, [Token(Keyword, "begin", "", ""), Token(Keyword, "tran", " ", "")]);
    var one := Syms(lower, [Token(Keyword, name, "", "")]);
    assert two == [Sym(Begin, false, false, false), Sym(Tran, false, false, false)];
    assert one == [Sym(Unlisted, false, false, false)];
    hide Syms, SymOf;
    Passing();
  }

  lemma Passing()
    ensures Check(2, [Sym(Begin, false, false, false), Sym(Tran, false, false, false)]).Going?
    ensures Check(2, [Sym(Unlisted, false, false, false)]).Going?
  {
    var two, one := [Sym(Begin, false, false, false), Sym(Tran, false, false, false)],
      [Sym(Unlisted, false, false, false)];
    assert two[..1] == [two[0]] && two[..0] == [] && one[..0] == [];
    CheckLevel2(2, two);
    CheckLevel2(2, one);
    hide Check;
  }

  // ---------------------------------------------------------------- level 1: one command and what belongs to it

  /** A command, or a BEGIN that opens a transaction. */
  predicate Event(syms: seq<Sym>, i: nat)
    requires i < |syms|
  {
    Simple(syms[i]) || BeginsTransaction(syms, i)
  }

  /** The first event before n, or n. */
  function First(syms: seq<Sym>, n: nat): (c: nat)
    requires n <= |syms|
    ensures c <= n && (c < n ==> Event(syms, c))
    ensures forall i :: 0 <= i < c ==> !Event(syms, i)
  {
    if n == 0 then 0
    else
      var c := First(syms, n - 1);
      if c < n - 1 || Event(syms, n - 1) then c else n
  }

  predicate Seen(syms: seq<Sym>, from: nat, to: nat, w: Word)
    requires to <= |syms|
  {
    exists j :: from <= j < to && syms[j].word == w
  }

  /** The first word from there on that is not BEGIN, or the end. */
  function Target(syms: seq<Sym>, from: nat, to: nat): (d: nat)
    requires from <= to <= |syms|
    ensures from <= d <= to && (d < to ==> syms[d].word != Begin)
    ensures (forall j :: from <= j < d ==> syms[j].word.Begin?)
    decreases |syms| - from
  {
    if from == to || syms[from].word != Begin then from else Target(syms, from + 1, to)
  }

  predicate AllListParts(syms: seq<Sym>, from: nat, to: nat)
    requires to <= |syms|
  {
    forall j :: from <= j < to ==> ListPart(syms[j]) || syms[j].word.Begin?
  }

  predicate AllIdentifiers(syms: seq<Sym>, from: nat, to: nat)
    requires to <= |syms|
  {
    forall j :: from <= j < to ==> syms[j].identifier || syms[j].word.Begin?
  }

  /** The words after which a SET belongs to an ALTER: DATABASE, or TABLE with nothing but plain identifiers between. */
  predicate AlterSet(syms: seq<Sym>, c: nat, i: nat)
    requires c < i < |syms|
  {
    var d := Target(syms, c + 1, i);
    d < i && !Seen(syms, d + 1, i, Set)
    && (syms[d].word.Database? || (syms[d].word.Table? && AllIdentifiers(syms, d + 1, i)))
  }

  /** The command at i belongs to the one at c: the first SET of an UPDATE or ALTER, or the EXEC of an INSERT. */
  predicate Continues(syms: seq<Sym>, c: nat, i: nat)
    requires c < i < |syms|
  {
    match syms[c].word
    case Update => syms[i].word.Set? && !Seen(syms, c + 1, i, Set)
    case Insert => syms[i].word.Exec? && AllListParts(syms, c + 1, i)
    case Alter => syms[i].word.Set? && AlterSet(syms, c, i)
    case _ => false
  }

  predicate Allowed(syms: seq<Sym>, i: nat)
    requires i < |syms|
  {
    var c := First(syms, i);
    Event(syms, i) && c < i ==>
      !BeginsTransaction(syms, i) && (syms[i].word.Select? || Continues(syms, c, i))
  }

  predicate Permitted(syms: seq<Sym>, n: nat)
    requires n <= |syms|
  {
    forall i :: 0 <= i < n ==> Allowed(syms, i)
  }

  /** Words and kinds of tokens exclude each other. */
  predicate Proper(s: Sym) {
    !s.comment && (s.word != OtherWord ==> !s.identifier && !s.mark)
  }

  /** What the flags mean after n words have passed. */
  predicate Means(syms: seq<Sym>, n: nat, f: Flags)
    requires n <= |syms|
  {
    var c := First(syms, n);
    && (f.command <==> c < n)
    && (f.begin <==> n > 0 && syms[n - 1].word.Begin?)
    && (f.insert <==> c < n && syms[c].word.Insert? && !Seen(syms, c + 1, n, Exec))
    && (f.insert ==> (f.insertValid <==> AllListParts(syms, c + 1, n)))
    && (f.update <==> c < n && syms[c].word.Update? && !Seen(syms, c + 1, n, Set))
    && (if c < n && syms[c].word.Alter? then MeansAlter(syms, c, n, f)
        else !f.alter && !f.alterdb && !f.altertable && f.altertableValid)
    && (c == n ==> f.insertValid)
  }

  predicate MeansAlter(syms: seq<Sym>, c: nat, n: nat, f: Flags)
    requires c < n <= |syms|
  {
    var d := Target(syms, c + 1, n);
    && (f.alter <==> d == n)
    && (f.alterdb <==> d < n && syms[d].word.Database? && !Seen(syms, d + 1, n, Set))
    && (f.altertable <==> d < n && syms[d].word.Table? && !Seen(syms, d + 1, n, Set))
    && (f.altertable ==> (f.altertableValid <==> AllIdentifiers(syms, d + 1, n)))
    && (d == n ==> f.altertableValid)
  }

  lemma FirstStep(syms: seq<Sym>, n: nat)
    requires n < |syms|
    ensures First(syms, n + 1) == if First(syms, n) < n || Event(syms, n) then First(syms, n) else n + 1
  {
  }

  lemma {:induction false} TargetStep(syms: seq<Sym>, from: nat, n: nat)
    requires from <= n < |syms|
    ensures Target(syms, from, n + 1) ==
      if Target(syms, from, n) < n then Target(syms, from, n) else if syms[n].word.Begin? then n + 1 else n
    decreases n - from
  {
    if from < n && syms[from].word.Begin? {
      TargetStep(syms, from + 1, n);
    }
  }

  lemma SeenStep(syms: seq<Sym>, from: nat, n: nat, w: Word)
    requires n < |syms| && from <= n + 1
    ensures Seen(syms, from, n + 1, w) <==> Seen(syms, from, n, w) || (from <= n && syms[n].word == w)
  {
  }

  lemma AllStep(syms: seq<Sym>, from: nat, n: nat)
    requires n < |syms|
    ensures from <= n ==>
      (AllListParts(syms, from, n + 1) <==> AllListParts(syms, from, n) && (ListPart(syms[n]) || syms[n].word.Begin?))
    ensures from <= n ==>
      (AllIdentifiers(syms, from, n + 1) <==>
        AllIdentifiers(syms, from, n) && (syms[n].identifier || syms[n].word.Begin?))
    ensures from > n ==> AllListParts(syms, from, n + 1) && AllIdentifiers(syms, from, n + 1)
  {
  }

  /** A word that may or may not pass, and the flags after it. */
  ghost predicate Right(level: int, syms: seq<Sym>, n: nat, f: Flags)
    requires n < |syms|
  {
    && (Turn(level, syms[n], f).Going? <==> Allowed(syms, n))
    && (Turn(level, syms[n], f).Going? ==> Means(syms, n + 1, Turn(level, syms[n], f).flags))
  }

  /** Before the first command, everything passes; the word itself says what the flags are. */
  lemma TurnFirst(level: int, s: Sym, begin: bool)
    requires level < 2 && !s.comment
    ensures Turn(level, s, NO_FLAGS.(begin := begin)) ==
      Going(Flags(Simple(s) || (begin && OpensTransaction(s)), s.word.Begin?, s.word.Insert?, s.word.Update?, true,
                  s.word.Alter?, false, false, true))
  {
  }

  lemma NoneYet(syms: seq<Sym>, n: nat, f: Flags)
    requires n <= |syms| && Means(syms, n, f) && First(syms, n) == n
    ensures f == NO_FLAGS.(begin := n > 0 && syms[n - 1].word.Begin?)
  {
    hide AllListParts, AllIdentifiers, Seen, First, MeansAlter;
  }

  /** The first command. */
  lemma FirstCommand(level: int, syms: seq<Sym>, n: nat, f: Flags)
    requires level < 2 && n < |syms| && Means(syms, n, f) && First(syms, n) == n && Proper(syms[n])
    ensures Right(level, syms, n, f)
  {
    hide AllListParts, AllIdentifiers, Seen, First, Turn;
    NoneYet(syms, n, f);
    TurnFirst(level, syms[n], f.begin);
    FirstStep(syms, n);
    EmptyRange(syms, n + 1);
  }

  lemma EmptyRange(syms: seq<Sym>, n: nat)
    requires n <= |syms|
    ensures AllListParts(syms, n, n) && AllIdentifiers(syms, n, n) && (forall w :: !Seen(syms, n, n, w))
  {
  }

  /** Behind a command that no list or object belongs to. */
  lemma TurnOther(level: int, s: Sym, f: Flags)
    requires level < 2 && !s.comment && f.command && !f.insert && !f.alter && !f.alterdb && !f.altertable
    ensures Turn(level, s, f) ==
      if (f.begin && OpensTransaction(s)) || (Simple(s) && !s.word.Select? && !(f.update && s.word.Set?)) then Refused
      else Going(f.(begin := s.word.Begin?, update := f.update && !s.word.Set?))
  {
  }

  /** After UPDATE or a command that nothing continues. */
  lemma AfterOther(level: int, syms: seq<Sym>, n: nat, f: Flags)
    requires level < 2 && n < |syms| && Means(syms, n, f) && Proper(syms[n])
    requires First(syms, n) < n && syms[First(syms, n)].word != Insert && syms[First(syms, n)].word != Alter
    ensures Right(level, syms, n, f)
  {
    hide AllListParts, AllIdentifiers, Seen, First, Target, MeansAlter, AlterSet, Turn;
    var c := First(syms, n);
    FirstStep(syms, n);
    SeenStep(syms, c + 1, n, Set);
    TurnOther(level, syms[n], f);
  }

  lemma AfterInsert(level: int, syms: seq<Sym>, n: nat, f: Flags)
    requires level < 2 && n < |syms| && Means(syms, n, f) && forall j :: 0 <= j < |syms| ==> Proper(syms[j])
    requires First(syms, n) < n && syms[First(syms, n)].word.Insert?
    ensures Right(level, syms, n, f)
  {
    hide AllListParts, AllIdentifiers, Seen, First, Target, MeansAlter, AlterSet;
    var c := First(syms, n);
    FirstStep(syms, n);
    SeenStep(syms, c + 1, n, Exec);
    AllStep(syms, c + 1, n);
    NoExecInList(syms, c + 1, n);
  }

  lemma NoExecInList(syms: seq<Sym>, from: nat, n: nat)
    requires n <= |syms| && forall j :: 0 <= j < |syms| ==> Proper(syms[j])
    ensures AllListParts(syms, from, n) ==> !Seen(syms, from, n, Exec)
  {
  }

  /** ALTER was the last word but for BEGINs. */
  lemma AlterTarget(level: int, syms: seq<Sym>, n: nat, f: Flags)
    requires level < 2 && n < |syms| && Means(syms, n, f) && Proper(syms[n])
    requires First(syms, n) < n && syms[First(syms, n)].word.Alter? && Target(syms, First(syms, n) + 1, n) == n
    ensures Right(level, syms, n, f)
  {
    hide AllListParts, AllIdentifiers, Seen, First, Target;
    FirstStep(syms, n);
    TargetStep(syms, First(syms, n) + 1, n);
    EmptyRange(syms, n + 1);
  }

  /** ALTER had its object. */
  lemma AlterOn(level: int, syms: seq<Sym>, n: nat, f: Flags, d: nat)
    requires level < 2 && n < |syms| && Means(syms, n, f) && Proper(syms[n])
    requires First(syms, n) < n && syms[First(syms, n)].word.Alter? && d == Target(syms, First(syms, n) + 1, n) < n
    ensures Turn(level, syms[n], f).Going? <==> Allowed(syms, n)
  {
    hide AllListParts, AllIdentifiers, Seen, First, Target;
  }

  lemma AlterOnMeans(level: int, syms: seq<Sym>, n: nat, f: Flags, d: nat)
    requires level < 2 && n < |syms| && Means(syms, n, f) && Proper(syms[n])
    requires First(syms, n) < n && syms[First(syms, n)].word.Alter? && d == Target(syms, First(syms, n) + 1, n) < n
    requires Turn(level, syms[n], f).Going?
    ensures Means(syms, n + 1, Turn(level, syms[n], f).flags)
  {
    hide AllListParts, AllIdentifiers, Seen, First, Target;
    FirstStep(syms, n);
    TargetStep(syms, First(syms, n) + 1, n);
    SeenStep(syms, d + 1, n, Set);
    AllStep(syms, d + 1, n);
  }

  lemma AfterAlterWord(level: int, syms: seq<Sym>, n: nat, f: Flags)
    requires level < 2 && n < |syms| && Means(syms, n, f) && Proper(syms[n])
    requires First(syms, n) < n && syms[First(syms, n)].word.Alter?
    ensures Right(level, syms, n, f)
  {
    hide Means, Turn, Allowed;
    var d := Target(syms, First(syms, n) + 1, n);
    if d == n {
      AlterTarget(level, syms, n, f);
    } else {
      AlterOn(level, syms, n, f, d);
      if Turn(level, syms[n], f).Going? {
        AlterOnMeans(level, syms, n, f, d);
      }
    }
  }

  /** One word: refused exactly when it is not allowed, and otherwise the flags mean what they should. */
  lemma Level1Step(level: int, syms: seq<Sym>, n: nat, f: Flags)
    requires level < 2 && n < |syms| && Means(syms, n, f) && forall j :: 0 <= j < |syms| ==> Proper(syms[j])
    ensures Right(level, syms, n, f)
  {
    hide Means, Right;
    var c := First(syms, n);
    if c == n {
      FirstCommand(level, syms, n, f);
    } else if syms[c].word.Insert? {
      AfterInsert(level, syms, n, f);
    } else if syms[c].word.Alter? {
      AfterAlterWord(level, syms, n, f);
    } else {
      AfterOther(level, syms, n, f);
    }
  }

  lemma PermittedStep(syms: seq<Sym>, n: nat)
    requires n < |syms|
    ensures Permitted(syms, n + 1) <==> Permitted(syms, n) && Allowed(syms, n)
  {
    hide Allowed;
  }

  lemma AtStart(level: int, syms: seq<Sym>)
    ensures Check(level, syms[..0]) == Going(NO_FLAGS) && Permitted(syms, 0) && Means(syms, 0, NO_FLAGS)
  {
  }

  lemma {:induction false} CheckLevel1(level: int, syms: seq<Sym>, n: nat)
    requires level < 2 && n <= |syms| && forall j :: 0 <= j < |syms| ==> Proper(syms[j])
    ensures Check(level, syms[..n]).Going? <==> Permitted(syms, n)
    ensures Check(level, syms[..n]).Going? ==> Means(syms, n, Check(level, syms[..n]).flags)
  {
    hide *;
    if n == 0 {
      AtStart(level, syms);
    } else {
      CheckLevel1(level, syms, n - 1);
      PermittedStep(syms, n - 1);
      CheckNext(level, syms, n - 1);
      if Check(level, syms[..n - 1]).Going? {
        Level1Step(level, syms, n - 1, Check(level, syms[..n - 1]).flags);
        RightMeans(level, syms, n - 1, Check(level, syms[..n - 1]).flags);
      }
    }
  }

  lemma RightMeans(level: int, syms: seq<Sym>, n: nat, f: Flags)
    requires n < |syms| && Right(level, syms, n, f)
    ensures Turn(level, syms[n], f).Going? <==> Allowed(syms, n)
    ensures Turn(level, syms[n], f).Going? ==> Means(syms, n + 1, Turn(level, syms[n], f).flags)
  {
  }

  lemma {:induction false} ProperTokens(lower: string -> string, syms: seq<Sym>)
    requires forall s :: s in syms ==> s.word != OtherWord ==> !s.identifier && !s.mark
    ensures forall j :: 0 <= j < |WithoutComments(syms)| ==> Proper(WithoutComments(syms)[j])
  {
    if syms != [] {
      var n := |syms| - 1;
      assert forall s :: s in syms[..n] ==> s in syms;
      ProperTokens(lower, syms[..n]);
      assert syms[n] in syms;
    }
  }

  /** At level 1 a query passes exactly when, comments aside, everything after the first command is allowed there. */
  lemma Level1(lower: string -> string, ts: seq<Token>)
    ensures var syms := WithoutComments(Syms(lower, ts));
      Check(1, Syms(lower, ts)).Going? <==> Permitted(syms, |syms|)
  {
    var all := Syms(lower, ts);
    var syms := WithoutComments(all);
    CommentsSkipped(1, all);
    forall s | s in all ensures s.word != OtherWord ==> !s.identifier && !s.mark {
      var i :| 0 <= i < |ts| && s == SymOf(lower, ts[i]);
    }
    ProperTokens(lower, all);
    CheckLevel1(1, syms, |syms|);
    assert syms[..|syms|] == syms;
  }

  lemma {:induction false} TargetStable(syms: seq<Sym>, from: nat, j: nat, k: nat)
    requires from <= j <= k <= |syms| && Target(syms, from, j) < j
    ensures Target(syms, from, k) == Target(syms, from, j)
    decreases k - from
  {
    if syms[from].word.Begin? {
      TargetStable(syms, from + 1, j, k);
    }
  }

  lemma {:induction false} FirstStable(syms: seq<Sym>, j: nat, k: nat)
    requires j <= k <= |syms| && First(syms, j) < j
    ensures First(syms, k) == First(syms, j)
  {
    if j < k {
      FirstStable(syms, j, k - 1);
    }
  }

  /** No command is continued twice. */
  lemma OneContinuation(syms: seq<Sym>, c: nat, j: nat, k: nat)
    requires c < j < k < |syms| && Proper(syms[j]) && Continues(syms, c, j)
    ensures !Continues(syms, c, k)
  {
    if syms[c].word.Alter? {
      TargetStable(syms, c + 1, j, k);
    }
  }

  /** Of the commands that are not SELECT there are at most two, the second a continuation of the first. */
  lemma AtMostTwo(syms: seq<Sym>, i: nat, j: nat)
    requires i < j < |syms| && Permitted(syms, |syms|) && forall m :: 0 <= m < |syms| ==> Proper(syms[m])
    requires Event(syms, i) && syms[i].word != Select && Event(syms, j) && syms[j].word != Select
    ensures Continues(syms, i, j) && First(syms, j) == i
    ensures forall k :: 0 <= k < |syms| && k != i && k != j && Event(syms, k) ==> syms[k].word.Select?
  {
    hide Continues;
    var c := First(syms, i);
    FirstStep(syms, i);
    FirstStable(syms, i + 1, j);
    assert Allowed(syms, i) && Allowed(syms, j);
    if c < i {
      OneContinuation(syms, c, i, j);
      assert false;
    }
    forall k | 0 <= k < |syms| && k != i && k != j && Event(syms, k) ensures syms[k].word.Select? {
      assert Allowed(syms, k);
      if k > i {
        FirstStable(syms, i + 1, k);
        if syms[k].word != Select {
          OneContinuation(syms, i, if j < k then j else k, if j < k then k else j);
        }
      }
    }
  }

  /** EXECUTE behind an earlier command is never let through, not even as the end of an INSERT. */
  lemma ExecuteRefused(syms: seq<Sym>, i: nat)
    requires i < |syms| && syms[i].word.Execute? && First(syms, i) < i
    ensures !Permitted(syms, |syms|)
  {
    hide First;
    assert !Allowed(syms, i);
  }

  /** Nor is the SET of an ALTER TABLE whose name has a dot in it. */
  lemma DottedTableRefused(syms: seq<Sym>, p: nat, i: nat)
    requires p < i < |syms| && syms[i].word.Set?
    requires var c := First(syms, i);
      c < i && syms[c].word.Alter? && syms[Target(syms, c + 1, i)].word.Table? && Target(syms, c + 1, i) < p
        && syms[p].mark
    requires !syms[p].identifier && !syms[p].word.Begin?
    ensures !Permitted(syms, |syms|)
  {
    hide First, Target;
    assert !Allowed(syms, i);
  }

  // ---------------------------------------------------------------- the check

  lemma NothingChecked(level: int, syms: seq<Sym>)
    ensures Check(level, syms[..0]) == Going(NO_FLAGS)
  {
  }

  lemma CheckNext(level: int, syms: seq<Sym>, i: nat)
    requires i < |syms|
    ensures Check(level, syms[..i + 1]) == if Check(level, syms[..i]).Refused? then Refused
      else Turn(level, syms[i], Check(level, syms[..i]).flags)
  {
    assert syms[..i + 1] == syms[..i] + [syms[i]];
    CheckSnoc(level, syms[..i], syms[i]);
  }

  lemma {:induction false} RefusedStays(level: int, syms: seq<Sym>, i: nat)
    requires i <= |syms| && Check(level, syms[..i]).Refused?
    ensures Check(level, syms).Refused?
    decreases |syms| - i
  {
    if i < |syms| {
      CheckNext(level, syms, i);
      RefusedStays(level, syms, i + 1);
    } else {
      assert syms[..i] == syms;
    }
  }

  /** The first simple command. */
  method StartCommand(t: Sym, flags: Flags) returns (have: Flags)
    ensures have == Started(t, flags)
  {
    have := flags.(command := true);
    if t.word.Insert? {
      have := have.(insert := true);
    } else if t.word.Update? {
      have := have.(update := true);
    } else if t.word.Alter? {
      have := have.(alter := true);
    }
  }

  /** The last part of the loop body: a simple command. */
  method CheckCommand(accessRestrictions: int, t: Sym, flags: Flags) returns (have: Flags, accepted: bool)
    ensures Command(accessRestrictions, t, flags) == if accepted then Going(have) else Refused
  {
    hide Started;
    have := flags;
    if !have.command && (accessRestrictions < 2 || t.word.Select?) {
      have := StartCommand(t, have);
    } else if have.update && t.word.Set? {
      have := have.(update := false);
    } else if have.alterdb && t.word.Set? {
      have := have.(alterdb := false);
    } else if have.insert && have.insertValid && (t.word.Exec? || t.word.Execute?) {
      have := have.(insert := false);
    } else if have.altertable && have.altertableValid && t.word.Set? {
      have := have.(altertable := false);
    } else if t.word != Select {
      return have, false;
    }
    return have, true;
  }

  method CheckObject(accessRestrictions: int, t: Sym, flags: Flags) returns (have: Flags, accepted: bool)
    ensures AfterObject(accessRestrictions, t, flags) == if accepted then Going(have) else Refused
  {
    hide Command, Simple;
    have := flags;
    if have.altertable && !(t.identifier || t.word.Set?) {
      have := have.(altertableValid := false);
    }
    if Simple(t) {
      have, accepted := CheckCommand(accessRestrictions, t, have);
      return;
    }
    return have, true;
  }

  /** The part before it, about the words after ALTER. */
  method CheckAlter(accessRestrictions: int, t: Sym, flags: Flags) returns (have: Flags, accepted: bool)
    ensures AfterAlter(accessRestrictions, t, flags) == if accepted then Going(have) else Refused
  {
    hide AfterObject;
    have := flags;
    if have.alter {
      have := have.(alter := false);
      if t.word.Database? {
        return have.(alterdb := true), true;
      } else if t.word.Table? {
        return have.(altertable := true), true;
      }
    }
    assert have == flags.(alter := false);
    have, accepted := CheckObject(accessRestrictions, t, have);
  }

  /** The loop body. */
  method CheckToken(accessRestrictions: int, t: Sym, flags: Flags) returns (have: Flags, accepted: bool)
    ensures Turn(accessRestrictions, t, flags) == if accepted then Going(have) else Refused
  {
    hide AfterAlter;
    have := flags;
    if t.comment {
      return have, true;
    }
    if have.begin {
      have := have.(begin := false);
      if OpensTransaction(t) {
        if !have.command && accessRestrictions < 2 {
          have := have.(command := true);
        } else {
          return have, false;
        }
      }
    }
    if t.word.Begin? {
      return have.(begin := true), true;
    }
    if have.insert && !(t.word.Into? || t.identifier || t.mark || t.word.Exec?) {
      have := have.(insertValid := false);
    }
    have, accepted := CheckAlter(accessRestrictions, t, have);
  }

  method CheckTokens(lower: string -> string, accessRestrictions: int, result: seq<Token>) returns (accepted: bool)
    ensures accepted <==> accessRestrictions == 0 || Check(accessRestrictions, Syms(lower, result)).Going?
  {
    if accessRestrictions == 0 {
      return true;
    }
    ghost var syms := Syms(lower, result);
    hide Check, SymOf, Turn;
    var have := NO_FLAGS;
    NothingChecked(accessRestrictions, syms);
    for i := 0 to |result|
      invariant Check(accessRestrictions, syms[..i]) == Going(have)
    {
      CheckNext(accessRestrictions, syms, i);
      var going;
      have, going := CheckToken(accessRestrictions, SymOf(lower, result[i]), have);
      if !going {
        RefusedStays(accessRestrictions, syms, i + 1);
        return false;
      }
    }
    assert syms[..|result|] == syms;
    return true;
  }
}
