/** Table descriptions: their text form, their elements, and the difference between two of them. */
module TableText {
  import opened Text
  import opened Wrappers

  /** One column, index or key.  Parameters may repeat, so they are a list. */
  datatype Element = Element(elemtype: string, parameters: seq<(string, string)>)

  datatype ParseError =
    | MalformedLine(line: string)
    | InvalidEntry(entry: string, line: string)
    | DuplicateEntry(key: string)

  /** The first parameter of that name, or the empty string. */
  function GetParam(ps: seq<(string, string)>, name: string): string {
    if ps == [] then "" else if ps[0].0 == name then ps[0].1 else GetParam(ps[1..], name)
  }

  function Param(e: Element, name: string): string {
    GetParam(e.parameters, name)
  }

  predicate HasDefault(e: Element) {
    e.elemtype == "column" && Param(e, "default") != ""
  }

  function PrintEntry(p: (string, string)): string {
    p.0 + "=" + p.1
  }

  function Entries(ps: seq<(string, string)>): (r: seq<string>)
    ensures |r| == |ps| && forall k :: 0 <= k < |ps| ==> r[k] == PrintEntry(ps[k])
  {
    seq(|ps|, k requires 0 <= k < |ps| => PrintEntry(ps[k]))
  }

  /** "elemtype: key1=value1,key2=value2". */
  function Print(e: Element): string {
    e.elemtype + ": " + (if e.parameters == [] then "" else Join(Entries(e.parameters), ','))
  }

  function ElemKey(e: Element): string {
    if e.elemtype == "primary-key" then e.elemtype else e.elemtype + ": " + Param(e, "name")
  }

  /** One line for each element. */
  function PrintAll(es: seq<Element>): string {
    if es == [] then "" else Print(es[0]) + "\n" + PrintAll(es[1..])
  }

  // ---------------------------------------------------------------- parsing

  /** Cut at the first ": ". */
  function CutType(line: string): (r: Result<(string, string), ()>)
    ensures r.Success? ==> line == r.value.0 + ": " + r.value.1
  {
    if |line| < 2 then Failure(())
    else if line[0] == ':' && line[1] == ' ' then Success(("", line[2..]))
    else match CutType(line[1..])
      case Failure(_) => Failure(())
      case Success((a, b)) =>
        assert line == [line[0]] + line[1..] && [line[0]] + (a + ": " + b) == ([line[0]] + a) + ": " + b;
        Success(([line[0]] + a, b))
  }

  /** No ": " inside. */
  predicate NoCut(t: string) {
    forall k :: 0 <= k < |t| - 1 ==> !(t[k] == ':' && t[k + 1] == ' ')
  }

  /** The cut is at the first one. */
  lemma {:induction false} CutAtFirst(line: string)
    ensures CutType(line).Success? ==> NoCut(CutType(line).value.0)
  {
    if |line| >= 2 && !(line[0] == ':' && line[1] == ' ') && CutType(line).Success? {
      CutAtFirst(line[1..]);
      var a := CutType(line[1..]).value.0;
      assert line[1..] == a + ": " + CutType(line[1..]).value.1;
      assert CutType(line).value.0 == [line[0]] + a;
      assert a != "" ==> a[0] == line[1];
    }
  }

  function ParseEntries(parts: seq<string>, line: string): (r: Result<seq<(string, string)>, ParseError>)
    ensures r.Success? ==> Entries(r.value) == parts
  {
    if parts == [] then Success([])
    else match Cut(parts[0], '=')
      case Failure(_) => Failure(InvalidEntry(parts[0], line))
      case Success(p) =>
        match ParseEntries(parts[1..], line)
        case Failure(e) => Failure(e)
        case Success(ps) => Success([p] + ps)
  }

  function ParseLine(line: string): (r: Result<Element, ParseError>) {
    match CutType(line)
    case Failure(_) => Failure(MalformedLine(line))
    case Success((t, rest)) =>
      match ParseEntries(Split(rest, ','), line)
      case Failure(e) => Failure(e)
      case Success(ps) => Success(Element(t, ps))
  }

  function Keys(es: seq<Element>): (r: seq<string>)
    ensures |r| == |es| && forall k :: 0 <= k < |es| ==> r[k] == ElemKey(es[k])
  {
    seq(|es|, k requires 0 <= k < |es| => ElemKey(es[k]))
  }

  predicate UniqueKeys(es: seq<Element>) {
    forall i, j :: 0 <= i < j < |es| ==> ElemKey(es[i]) != ElemKey(es[j])
  }

  /** The lines one after the other onto the elements so far; blank ones are skipped. */
  function ParseLines(lines: seq<string>, isSpace: char -> bool, sofar: seq<Element>): (r: Result<seq<Element>,
        ParseError>) {
    if lines == [] then Success(sofar)
    else
      var line := Trim(lines[0], isSpace);
      if line == "" then ParseLines(lines[1..], isSpace, sofar)
      else match ParseLine(line)
        case Failure(e) => Failure(e)
        case Success(elem) =>
          if ElemKey(elem) in Keys(sofar) then Failure(DuplicateEntry(ElemKey(elem)))
          else ParseLines(lines[1..], isSpace, sofar + [elem])
  }

  function Parse(text: string, isSpace: char -> bool): Result<seq<Element>, ParseError> {
    ParseLines(Split(text, '\n'), isSpace, [])
  }

  /** The text with blank lines dropped and the others trimmed, each ended by a line feed. */
  function Normal(lines: seq<string>, isSpace: char -> bool): string {
    if lines == [] then ""
    else
      var line := Trim(lines[0], isSpace);
      (if line == "" then "" else line + "\n") + Normal(lines[1..], isSpace)
  }

  // ---------------------------------------------------------------- printing inverts parsing

  /** An accepted line is exactly what its element prints. */
  lemma PrintParsed(line: string)
    requires ParseLine(line).Success?
    ensures Print(ParseLine(line).value) == line
  {
    var (t, rest) := CutType(line).value;
    var ps := ParseEntries(Split(rest, ','), line).value;
    JoinSplit(rest, ',');
    assert |ps| == |Split(rest, ',')| >= 1;
  }

  lemma {:induction false} PrintAllAppend(es: seq<Element>, e: Element)
    ensures PrintAll(es + [e]) == PrintAll(es) + (Print(e) + "\n")
  {
    if es == [] {
      assert es + [e] == [e] && PrintAll([e]) == Print(e) + "\n" + PrintAll([]);
    } else {
      assert (es + [e])[1..] == es[1..] + [e];
      PrintAllAppend(es[1..], e);
    }
  }

  /** One line of the parser. */
  lemma ParseStep(lines: seq<string>, isSpace: char -> bool, sofar: seq<Element>)
    requires lines != []
    ensures var line := Trim(lines[0], isSpace);
      ParseLines(lines, isSpace, sofar) ==
        if line == "" then ParseLines(lines[1..], isSpace, sofar)
        else if ParseLine(line).Failure? then Failure(ParseLine(line).error)
        else if ElemKey(ParseLine(line).value) in Keys(sofar) then
          Failure(DuplicateEntry(ElemKey(ParseLine(line).value)))
        else ParseLines(lines[1..], isSpace, sofar + [ParseLine(line).value])
    ensures var line := Trim(lines[0], isSpace);
      Normal(lines, isSpace) == if line == "" then Normal(lines[1..], isSpace)
        else line + "\n" + Normal(lines[1..], isSpace)
  {
    hide ParseLine, Trim, ElemKey, Keys;
    assert "" + Normal(lines[1..], isSpace) == Normal(lines[1..], isSpace);
  }

  lemma ParseEnd(isSpace: char -> bool, sofar: seq<Element>)
    ensures ParseLines([], isSpace, sofar) == Success(sofar) && Normal([], isSpace) == ""
    ensures ParseLines([""], isSpace, sofar) == Success(sofar) && Split("", '\n') == [""]
  {
    assert Trim("", isSpace) == "" && [""][1..] == [];
  }

  lemma UniqueAppend(es: seq<Element>, e: Element)
    requires UniqueKeys(es) && ElemKey(e) !in Keys(es)
    ensures UniqueKeys(es + [e])
  {
    forall i | 0 <= i < |es| ensures ElemKey(es[i]) != ElemKey(e) {
      assert Keys(es)[i] == ElemKey(es[i]);
    }
  }

  /** Printing what was parsed gives the normal form of the text; keys stay unique. */
  lemma {:induction false} PrintOfParse(lines: seq<string>, isSpace: char -> bool, sofar: seq<Element>)
    requires ParseLines(lines, isSpace, sofar).Success? && UniqueKeys(sofar)
    ensures PrintAll(ParseLines(lines, isSpace, sofar).value) == PrintAll(sofar) + Normal(lines, isSpace)
    ensures UniqueKeys(ParseLines(lines, isSpace, sofar).value)
    decreases |lines|
  {
    hide *;
    if lines == [] {
      ParseEnd(isSpace, sofar);
      assert PrintAll(sofar) + "" == PrintAll(sofar);
    } else {
      ParseStep(lines, isSpace, sofar);
      var line := Trim(lines[0], isSpace);
      if line == "" {
        PrintOfParse(lines[1..], isSpace, sofar);
      } else {
        var elem := ParseLine(line).value;
        PrintParsed(line);
        PrintAllAppend(sofar, elem);
        UniqueAppend(sofar, elem);
        PrintOfParse(lines[1..], isSpace, sofar + [elem]);
        assert PrintAll(sofar) + (line + "\n") + Normal(lines[1..], isSpace) ==
          PrintAll(sofar) + (line + "\n" + Normal(lines[1..], isSpace));
      }
    }
  }

  /** Lines in normal form, parsed again, give the same elements. */
  lemma {:induction false} ParseNormal(lines: seq<string>, isSpace: char -> bool, sofar: seq<Element>)
    requires forall k :: 0 <= k < |lines| ==> '\n' !in lines[k]
    ensures ParseLines(Split(Normal(lines, isSpace), '\n'), isSpace, sofar) == ParseLines(lines, isSpace, sofar)
    decreases |lines|
  {
    hide *;
    if lines == [] {
      ParseEnd(isSpace, sofar);
    } else {
      var line := Trim(lines[0], isSpace);
      var rest := Normal(lines[1..], isSpace);
      TrimIsTrimmed(lines[0], isSpace, '\n');
      TrimmedStays(line, isSpace);
      ParseStep(lines, isSpace, sofar);
      if line == "" {
        ParseNormal(lines[1..], isSpace, sofar);
      } else {
        SplitPrefix(line, rest, '\n');
        assert line + "\n" + rest == line + ['\n'] + rest;
        var again := Split(Normal(lines, isSpace), '\n');
        assert again[0] == line && again[1..] == Split(rest, '\n');
        ParseStep(again, isSpace, sofar);
        if ParseLine(line).Success? {
          ParseNormal(lines[1..], isSpace, sofar + [ParseLine(line).value]);
        }
      }
    }
  }

  /** The text of a table settles after one round: printing gives the normal form and parses to the same table. */
  lemma TextNormalises(text: string, isSpace: char -> bool)
    requires Parse(text, isSpace).Success?
    ensures var es := Parse(text, isSpace).value;
      && PrintAll(es) == Normal(Split(text, '\n'), isSpace)
      && Parse(PrintAll(es), isSpace) == Success(es)
      && UniqueKeys(es)
  {
    PrintOfParse(Split(text, '\n'), isSpace, []);
    SplitParts(text, '\n');
    ParseNormal(Split(text, '\n'), isSpace, []);
    assert PrintAll([]) + Normal(Split(text, '\n'), isSpace) == Normal(Split(text, '\n'), isSpace);
  }

  /** An element that a line can stand for.  Among these, equal text means equal elements. */
  predicate Canonical(e: Element) {
    ParseLine(Print(e)) == Success(e)
  }

  lemma {:induction false} ParsedAreCanonical(lines: seq<string>, isSpace: char -> bool, sofar: seq<Element>)
    requires ParseLines(lines, isSpace, sofar).Success? && forall e :: e in sofar ==> Canonical(e)
    ensures forall e :: e in ParseLines(lines, isSpace, sofar).value ==> Canonical(e)
    decreases |lines|
  {
    if lines != [] {
      var line := Trim(lines[0], isSpace);
      if line == "" {
        ParsedAreCanonical(lines[1..], isSpace, sofar);
      } else {
        PrintParsed(line);
        ParsedAreCanonical(lines[1..], isSpace, sofar + [ParseLine(line).value]);
      }
    }
  }

  /** The type of an element from text ends at the first ": ", so that its key shows it. */
  lemma {:induction false} ParsedTypes(lines: seq<string>, isSpace: char -> bool, sofar: seq<Element>)
    requires ParseLines(lines, isSpace, sofar).Success? && forall e :: e in sofar ==> NoCut(e.elemtype)
    ensures forall e :: e in ParseLines(lines, isSpace, sofar).value ==> NoCut(e.elemtype)
    decreases |lines|
  {
    hide NoCut;
    if lines != [] {
      var line := Trim(lines[0], isSpace);
      if line == "" {
        ParsedTypes(lines[1..], isSpace, sofar);
      } else {
        CutAtFirst(line);
        ParsedTypes(lines[1..], isSpace, sofar + [ParseLine(line).value]);
      }
    }
  }
}
