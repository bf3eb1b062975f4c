/** Checksum lists of schema elements: their text form, their equality, and how they are gathered. */
module Checksums {
  import opened Text
  import opened Wrappers

  const TWO_64: nat := 0x1_0000_0000_0000_0000

  // ---------------------------------------------------------------- numbers in hexadecimal

  function HexDigit(d: nat): (c: char)
    requires d < 16
    ensures HexValue(c) == d && c != ' ' && c != '\r' && c != '\n'
  {
    if d < 10 then '0' + d as char else 'a' + (d - 10) as char
  }

  /** -1 for what is not a digit. */
  function HexValue(c: char): int {
    if '0' <= c <= '9' then (c - '0') as int
    else if 'a' <= c <= 'f' then (c - 'a') as int + 10
    else if 'A' <= c <= 'F' then (c - 'A') as int + 10
    else -1
  }

  function HexText(n: nat): (s: string)
    ensures |s| >= 1
  {
    (if n < 16 then "" else HexText(n / 16)) + [HexDigit(n % 16)]
  }

  /** At least eight digits. */
  function Padded(s: string): (r: string)
    decreases 8 - |s|
  {
    if |s| >= 8 then s else Padded("0" + s)
  }

  function HexNumber(s: string): Result<nat, ()> {
    if s == "" then Success(0)
    else
      var d := HexValue(s[|s| - 1]);
      match HexNumber(s[..|s| - 1])
      case Failure(_) => Failure(())
      case Success(n) => if d < 0 then Failure(()) else Success(16 * n + d)
  }

  predicate IsSpace(c: char) {
    c == ' ' || '\t' <= c <= '\r'
  }

  /** UInt64.TryParse for hexadecimal digits. */
  function TryParse(text: string): Result<nat, ()> {
    var s := Trim(text, IsSpace);
    match HexNumber(s)
    case Failure(_) => Failure(())
    case Success(n) => if s == "" || n >= TWO_64 then Failure(()) else Success(n)
  }

  function LowerChar(c: char): char {
    if 'A' <= c <= 'Z' then c - 'A' + 'a' else c
  }

  function Lower(s: string): (r: string)
    ensures |r| == |s| && forall k :: 0 <= k < |s| ==> r[k] == LowerChar(s[k])
  {
    seq(|s|, k requires 0 <= k < |s| => LowerChar(s[k]))
  }

  /** One number of a list, with or without 0x. */
  function ParseSum(sumstr: string): Result<nat, ()> {
    var s := Lower(sumstr);
    TryParse(if |s| >= 2 && s[..2] == "0x" then s[2..] else s)
  }

  function SumText(n: nat): string {
    "0x" + Padded(HexText(n))
  }

  // ---------------------------------------------------------------- lists

  predicate Sums(sums: seq<nat>) {
    forall k :: 0 <= k < |sums| ==> sums[k] < TWO_64
  }

  function Texts(sums: seq<nat>): (r: seq<string>)
    ensures |r| == |sums| && forall k :: 0 <= k < |sums| ==> r[k] == SumText(sums[k])
  {
    seq(|sums|, k requires 0 <= k < |sums| => SumText(sums[k]))
  }

  function SumString(sums: seq<nat>): string {
    if sums == [] then "" else Join(Texts(sums), ' ')
  }

  /** The parts that can be read; empty and malformed ones are passed over. */
  function ParseParts(parts: seq<string>): seq<nat> {
    if parts == [] then []
    else
      var last := parts[|parts| - 1];
      ParseParts(parts[..|parts| - 1])
      + if last != "" && ParseSum(last).Success? then [ParseSum(last).value] else []
  }

  function ParseSums(dbsums: string): seq<nat> {
    ParseParts(Split(dbsums, ' '))
  }

  method GetSumString(checksums: seq<nat>) returns (s: string)
    ensures s == SumString(checksums)
  {
    var l := [];
    for i := 0 to |checksums|
      invariant l == Texts(checksums[..i])
    {
      assert checksums[..i + 1] == checksums[..i] + [checksums[i]];
      l := l + ["0x" + Padded(HexText(checksums[i]))];
    }
    assert checksums[..|checksums|] == checksums;
    s := if l == [] then "" else Join(l, ' ');
  }

  method ParseSumString(dbsums: string) returns (sumlist: seq<nat>)
    ensures sumlist == ParseSums(dbsums)
  {
    hide Split, ParseSum;
    var sums := Split(dbsums, ' ');
    sumlist := [];
    for i := 0 to |sums|
      invariant sumlist == ParseParts(sums[..i])
    {
      assert sums[..i + 1][..i] == sums[..i];
      if |sums[i]| == 0 {
        continue;
      }
      var longsum := ParseSum(sums[i]);
      if longsum.Success? {
        sumlist := sumlist + [longsum.value];
      }
    }
    assert sums[..|sums|] == sums;
  }

  // ---------------------------------------------------------------- round trip

  lemma {:induction false} HexTextValue(n: nat)
    ensures HexNumber(HexText(n)) == Success(n)
    ensures forall k :: 0 <= k < |HexText(n)| ==> Digit(HexText(n)[k])
  {
    hide HexNumber, HexDigit, Digit;
    IsDigit(n % 16);
    if n >= 16 {
      HexTextValue(n / 16);
      assert n == 16 * (n / 16) + n % 16;
      OneMoreDigit(HexText(n / 16), n / 16, n % 16);
    } else {
      EmptyNumber();
      OneMoreDigit("", 0, n);
    }
  }

  lemma EmptyNumber()
    ensures HexNumber("") == Success(0)
  {
  }

  lemma IsDigit(d: nat)
    requires d < 16
    ensures Digit(HexDigit(d))
  {
  }

  lemma OneMoreDigit(s: string, n: nat, d: nat)
    requires HexNumber(s) == Success(n) && d < 16
    ensures HexNumber(s + [HexDigit(d)]) == Success(16 * n + d)
  {
    var t := s + [HexDigit(d)];
    assert t[..|t| - 1] == s && t[|t| - 1] == HexDigit(d);
  }

  /** A digit in lower case. */
  predicate Digit(c: char) {
    '0' <= c <= '9' || 'a' <= c <= 'f'
  }

  lemma {:induction false} ZeroInFront(s: string)
    requires HexNumber(s).Success?
    ensures HexNumber("0" + s) == HexNumber(s)
  {
    var t := "0" + s;
    if s == "" {
      assert t[..0] == "" && t[0] == '0';
    } else {
      assert t[..|t| - 1] == "0" + s[..|s| - 1] && t[|t| - 1] == s[|s| - 1];
      ZeroInFront(s[..|s| - 1]);
    }
  }

  lemma {:induction false} PaddedValue(s: string)
    requires HexNumber(s).Success? && forall k :: 0 <= k < |s| ==> Digit(s[k])
    ensures HexNumber(Padded(s)) == HexNumber(s) && |Padded(s)| >= |s|
    ensures forall k :: 0 <= k < |Padded(s)| ==> Digit(Padded(s)[k])
    decreases 8 - |s|
  {
    if |s| < 8 {
      ZeroInFront(s);
      PaddedValue("0" + s);
    }
  }

  /** Every number is read back, and its text has neither spaces nor line ends. */
  lemma SumTextValue(n: nat)
    requires n < TWO_64
    ensures ParseSum(SumText(n)) == Success(n)
    ensures forall k :: 0 <= k < |SumText(n)| ==> SumText(n)[k] == 'x' || Digit(SumText(n)[k])
    ensures SumText(n) != ""
  {
    HexTextValue(n);
    PaddedValue(HexText(n));
    var d := Padded(HexText(n));
    hide HexText, Padded, HexNumber, Lower, TryParse;
    PrefixedDigits(d);
    assert d != "" ==> ParseSum("0x" + d) == TryParse(d);
    DigitsParsed(d, n);
  }

  /** Digits with 0x in front are in lower case already. */
  lemma PrefixedDigits(d: string)
    requires forall k :: 0 <= k < |d| ==> Digit(d[k])
    ensures forall k :: 0 <= k < |d| + 2 ==> ("0x" + d)[k] == 'x' || Digit(("0x" + d)[k])
    ensures Lower("0x" + d) == "0x" + d && ("0x" + d)[..2] == "0x" && ("0x" + d)[2..] == d
  {
    var s := "0x" + d;
    forall k | 0 <= k < |s| ensures LowerChar(s[k]) == s[k] && (s[k] == 'x' || Digit(s[k])) {
      assert k >= 2 ==> s[k] == d[k - 2];
    }
  }

  lemma DigitsParsed(d: string, n: nat)
    requires d != "" && HexNumber(d) == Success(n) && n < TWO_64 && forall k :: 0 <= k < |d| ==> Digit(d[k])
    ensures TryParse(d) == Success(n)
  {
    hide HexNumber;
    assert Trimmed(d, IsSpace);
    TrimmedStays(d, IsSpace);
  }

  lemma {:induction false} ParseTexts(sums: seq<nat>, end: seq<string>)
    requires Sums(sums) && (end == [] || end == [""])
    ensures ParseParts(Texts(sums) + end) == sums
    decreases |sums|, |end|
  {
    hide ParseSum, SumText;
    var parts := Texts(sums) + end;
    if end != [] {
      assert parts[..|parts| - 1] == Texts(sums) + [];
      ParseTexts(sums, []);
    } else if sums != [] {
      var init, last := sums[..|sums| - 1], sums[|sums| - 1];
      assert parts[..|parts| - 1] == Texts(init) + [] && parts[|parts| - 1] == SumText(last);
      SumTextValue(last);
      ParseTexts(init, []);
      assert sums == init + [last];
    }
  }

  lemma {:induction false} JoinEnd(parts: seq<string>, c: char)
    requires |parts| >= 1
    ensures Join(parts + [""], c) == Join(parts, c) + [c]
  {
    if |parts| > 1 {
      assert (parts + [""])[1..] == parts[1..] + [""];
      JoinEnd(parts[1..], c);
    } else {
      assert (parts + [""])[1..] == [""];
    }
  }

  /** The list read from its text, with or without a space behind it, is the list. */
  lemma SumsRoundTrip(sums: seq<nat>)
    requires Sums(sums)
    ensures ParseSums(SumString(sums)) == sums && ParseSums(SumString(sums) + " ") == sums
  {
    if sums == [] {
      NoSums();
    } else {
      var parts := Texts(sums);
      forall k | 0 <= k < |parts| ensures ' ' !in parts[k] {
        SumTextValue(sums[k]);
      }
      hide Join, Split, ParseParts, ParseSum, SumText;
      SplitJoin(parts, ' ');
      SplitJoin(parts + [""], ' ');
      JoinEnd(parts, ' ');
      ParseTexts(sums, []);
      ParseTexts(sums, [""]);
      assert parts + [] == parts;
    }
  }

  lemma NoSums()
    ensures ParseSums("") == [] && ParseSums(" ") == [] && SumString([]) == "" && SumString([]) + " " == " "
  {
    hide ParseSum;
    SplitPrefix("", "", ' ');
    assert "" + [' '] + "" == " ";
    assert Split(" ", ' ') == ["", ""] && ["", ""][..1] == [""] && [""][..0] == [];
    assert ParseParts([""]) == [] && ParseParts(["", ""]) == [];
  }

  // ---------------------------------------------------------------- one element's checksums

  predicate Rising(s: seq<nat>) {
    forall i, j :: 0 <= i < j < |s| ==> s[i] <= s[j]
  }

  function Insert(sorted: seq<nat>, x: nat): (r: seq<nat>)
    ensures multiset(r) == multiset(sorted) + multiset{x}
  {
    if sorted == [] || x >= sorted[|sorted| - 1] then sorted + [x]
    else
      var init, last := sorted[..|sorted| - 1], sorted[|sorted| - 1];
      assert sorted == init + [last];
      Insert(init, x) + [last]
  }

  lemma {:induction false} InsertRising(sorted: seq<nat>, x: nat)
    requires Rising(sorted)
    ensures Rising(Insert(sorted, x)) && forall y :: y in Insert(sorted, x) ==> y in sorted || y == x
  {
    if sorted == [] || x >= sorted[|sorted| - 1] {
      RisingMore(sorted, x);
    } else {
      var init, last := sorted[..|sorted| - 1], sorted[|sorted| - 1];
      InsertRising(init, x);
      assert sorted == init + [last] && Insert(sorted, x) == Insert(init, x) + [last];
      hide Insert;
      assert forall y :: y in init ==> y <= last;
      AtTheEnd(Insert(init, x), last);
    }
  }

  lemma RisingMore(s: seq<nat>, x: nat)
    requires Rising(s) && (s == [] || x >= s[|s| - 1])
    ensures Rising(s + [x])
  {
  }

  lemma AtTheEnd(s: seq<nat>, last: nat)
    requires Rising(s) && forall y :: y in s ==> y <= last
    ensures Rising(s + [last])
  {
    assert s != [] ==> s[|s| - 1] in s;
    RisingMore(s, last);
  }

  /** The order in which List.Sort leaves a list. */
  function Sort(s: seq<nat>): (r: seq<nat>)
    ensures Rising(r) && multiset(r) == multiset(s)
  {
    if s == [] then []
    else
      assert s == s[..|s| - 1] + [s[|s| - 1]];
      InsertRising(Sort(s[..|s| - 1]), s[|s| - 1]);
      Insert(Sort(s[..|s| - 1]), s[|s| - 1])
  }

  /** There is only one rising order. */
  lemma {:induction false} RisingUnique(a: seq<nat>, b: seq<nat>)
    requires Rising(a) && Rising(b) && multiset(a) == multiset(b)
    ensures a == b
  {
    hide Rising;
    SameSize(a, b);
    if a != [] {
      var x, y := a[|a| - 1], b[|b| - 1];
      LastIsLargest(a);
      LastIsLargest(b);
      assert x == y;
      RisingUnique(a[..|a| - 1], b[..|b| - 1]);
    }
  }

  lemma SameSize(a: seq<nat>, b: seq<nat>)
    requires multiset(a) == multiset(b)
    ensures |a| == |b|
  {
    assert |multiset(a)| == |a| && |multiset(b)| == |b|;
  }

  lemma LastIsLargest(s: seq<nat>)
    requires Rising(s) && s != []
    ensures s[|s| - 1] in multiset(s) && forall x :: x in multiset(s) ==> x <= s[|s| - 1]
    ensures Rising(s[..|s| - 1]) && s == s[..|s| - 1] + [s[|s| - 1]]
    ensures multiset(s[..|s| - 1]) == multiset(s) - multiset{s[|s| - 1]}
  {
    assert s == s[..|s| - 1] + [s[|s| - 1]];
  }

  /** The part of a key in front of the first slash. */
  function TypeOf(key: string): Result<string, ()> {
    match Cut(key, '/')
    case Failure(_) => Failure(())
    case Success(parts) => Success(parts.0)
  }

  /** An element's checksums; tables keep theirs in order, because columns may come in any. */
  datatype Checksum = Checksum(key: string, checksums: seq<nat>)

  function NewChecksum(key: string, sumlist: seq<nat>): Checksum {
    Checksum(key, if TypeOf(key) == Success("Table") then Sort(sumlist) else sumlist)
  }

  method Equals(mine: Checksum, other: Checksum) returns (same: bool)
    ensures same <==> mine == other
  {
    if mine.key != other.key || |mine.checksums| != |other.checksums| {
      return false;
    }
    for i := 0 to |mine.checksums|
      invariant mine.checksums[..i] == other.checksums[..i]
    {
      if mine.checksums[i] != other.checksums[i] {
        return false;
      }
    }
    assert mine.checksums[..|mine.checksums|] == mine.checksums;
    assert other.checksums[..|other.checksums|] == other.checksums;
    return true;
  }

  class VxSchemaChecksums {
    var sums: map<string, Checksum>

    constructor ()
      ensures sums == map[]
    {
      sums := map[];
    }

    ghost predicate Holds(key: string, added: seq<nat>)
      reads this
    {
      if added == [] then key !in sums else key in sums && sums[key] == Checksum(key, Gathered(key, added))
    }

    /** Whatever was added before, the new sum takes its place among them; no other key changes. */
    method AddSum(key: string, checksum: nat, ghost added: seq<nat>)
      requires Holds(key, added)
      modifies this
      ensures Holds(key, added + [checksum])
      ensures sums - {key} == old(sums) - {key}
    {
      GatheredNext(key, added, checksum);
      if key in sums {
        var list := sums[key].checksums + [checksum];
        sums := sums[key := NewChecksum(key, list)];
      } else {
        sums := sums[key := Checksum(key, [checksum])];
      }
    }
  }

  /** What AddSum makes of sums added one after the other. */
  function Gathered(key: string, added: seq<nat>): seq<nat> {
    if added == [] then []
    else NewChecksum(key, Gathered(key, added[..|added| - 1]) + [added[|added| - 1]]).checksums
  }

  lemma GatheredNext(key: string, added: seq<nat>, x: nat)
    ensures Gathered(key, added + [x]) == NewChecksum(key, Gathered(key, added) + [x]).checksums
    ensures added == [] ==> Gathered(key, added + [x]) == [x]
  {
    assert (added + [x])[..|added|] == added;
    if added == [] {
      RisingUnique(Sort([x]), [x]);
      assert [] + [x] == [x];
    }
  }

  lemma {:induction false} GatheredIs(key: string, added: seq<nat>)
    ensures Gathered(key, added) == if TypeOf(key) == Success("Table") then Sort(added) else added
  {
    hide *;
    if added != [] {
      var init, last := added[..|added| - 1], added[|added| - 1];
      assert added == init + [last];
      GatheredIs(key, init);
      GatheredNext(key, init, last);
      NewIs(key, Gathered(key, init) + [last]);
      SortAgain(init, last);
    } else {
      NothingGathered(key);
      RisingUnique(Sort([]), []);
    }
  }

  lemma NewIs(key: string, list: seq<nat>)
    ensures NewChecksum(key, list).checksums == if TypeOf(key) == Success("Table") then Sort(list) else list
  {
  }

  lemma NothingGathered(key: string)
    ensures Gathered(key, []) == [] && Rising([])
  {
  }

  lemma SortAgain(init: seq<nat>, last: nat)
    ensures Sort(Sort(init) + [last]) == Sort(init + [last])
  {
    hide Sort;
    RisingUnique(Sort(Sort(init) + [last]), Sort(init + [last]));
  }

  /** For a table the stored list does not depend on the order of the additions. */
  lemma OrderDoesNotMatter(key: string, a: seq<nat>, b: seq<nat>)
    requires TypeOf(key) == Success("Table") && multiset(a) == multiset(b)
    ensures Gathered(key, a) == Gathered(key, b)
  {
    GatheredIs(key, a);
    GatheredIs(key, b);
    RisingUnique(Sort(a), Sort(b));
  }

  /** For anything else it does. */
  lemma OrderKept(key: string, a: seq<nat>, b: seq<nat>)
    requires TypeOf(key) != Success("Table")
    ensures Gathered(key, a) == Gathered(key, b) <==> a == b
  {
    GatheredIs(key, a);
    GatheredIs(key, b);
  }

  /** Making a checksum of a list that was one leaves it as it is. */
  lemma NewChecksumStable(key: string, added: seq<nat>)
    ensures NewChecksum(key, Gathered(key, added)) == Checksum(key, Gathered(key, added))
  {
    GatheredIs(key, added);
    RisingUnique(Sort(Sort(added)), Sort(added));
  }

  // ---------------------------------------------------------------- written out

  /** Tables, and no others, have keys that begin with Table and a slash: their list is in rising order, whatever order
      the sums came in. */
  lemma TableKeys(name: string, a: seq<nat>, b: seq<nat>)
    ensures Rising(Gathered("Table/" + name, a)) && multiset(Gathered("Table/" + name, a)) == multiset(a)
    ensures multiset(a) == multiset(b) ==> Gathered("Table/" + name, a) == Gathered("Table/" + name, b)
  {
    CutUnique("Table", name, '/');
    assert "Table" + ['/'] + name == "Table/" + name;
    GatheredIs("Table/" + name, a);
    if multiset(a) == multiset(b) {
      OrderDoesNotMatter("Table/" + name, a, b);
    }
  }

  /** Any other kind of element keeps its sums as they came, and so does a key without a slash. */
  lemma OtherKeys(kind: string, name: string, added: seq<nat>)
    requires '/' !in kind
    ensures kind != "Table" ==> Gathered(kind + "/" + name, added) == added
    ensures Gathered(kind, added) == added
  {
    CutUnique(kind, name, '/');
    assert kind + ['/'] + name == kind + "/" + name;
    GatheredIs(kind + "/" + name, added);
    GatheredIs(kind, added);
  }

  const LOWER_CASE := "0123456789abcdef"

  lemma DigitForm(d: nat)
    requires d < 16
    ensures HexDigit(d) == LOWER_CASE[d] && HexValue("0123456789ABCDEF"[d]) == HexValue(LOWER_CASE[d]) == d
  {
  }

  lemma NoDigit(c: char)
    requires c !in LOWER_CASE && c !in "ABCDEF"
    ensures HexValue(c) == -1
  {
  }

  /** Digits in lower case behind 0x, at least eight of them, and no zero in front of more than eight. */
  lemma SumTextForm(n: nat)
    ensures var s := SumText(n);
      && |s| >= 10 && s[0] == '0' && s[1] == 'x' && (|s| > 10 ==> s[2] != '0')
      && forall k :: 2 <= k < |s| ==> s[k] in LOWER_CASE
  {
    HexTextValue(n);
    PaddedValue(HexText(n));
    PaddedForm(HexText(n));
    HexTextFirst(n);
    var d := Padded(HexText(n));
    assert SumText(n) == "0x" + d;
    forall k | 0 <= k < |d| ensures d[k] in LOWER_CASE {
      LowerCaseDigit(d[k]);
    }
    hide HexText, Padded, Digit;
    assert |d| > 8 ==> d == HexText(n);
    assert |HexText(n)| > 8 ==> HexText(n)[0] != '0';
  }

  lemma LowerCaseDigit(c: char)
    requires Digit(c)
    ensures c in LOWER_CASE
  {
    assert LOWER_CASE[if c <= '9' then (c - '0') as int else (c - 'a') as int + 10] == c;
  }

  lemma {:induction false} PaddedForm(s: string)
    ensures |Padded(s)| == (if |s| < 8 then 8 else |s|) && (|s| >= 8 ==> Padded(s) == s)
    decreases 8 - |s|
  {
    if |s| < 8 {
      PaddedForm("0" + s);
    }
  }

  lemma {:induction false} HexTextFirst(n: nat)
    ensures |HexText(n)| > 1 ==> HexText(n)[0] != '0'
    ensures n > 0 ==> HexText(n)[0] != '0'
  {
    if n >= 16 {
      HexTextFirst(n / 16);
    }
  }

  lemma DigitsTried(d: string, v: nat)
    requires d != "" && HexNumber(d) == Success(v) && forall k :: 0 <= k < |d| ==> Digit(d[k])
    ensures TryParse(d) == if v <= 0xffff_ffff_ffff_ffff then Success(v) else Failure(())
  {
    hide HexNumber;
    assert Trimmed(d, IsSpace);
    TrimmedStays(d, IsSpace);
  }

  /** A number of up to 64 bits is read with or without 0x in front, the x in either case; a larger one is not. */
  lemma ParseSumForm(d: string, v: nat)
    requires d != "" && HexNumber(d) == Success(v) && forall k :: 0 <= k < |d| ==> Digit(d[k])
    ensures ParseSum(d) == ParseSum("0x" + d) == ParseSum("0X" + d)
    ensures ParseSum(d) == if v <= 0xffff_ffff_ffff_ffff then Success(v) else Failure(())
  {
    hide HexNumber, TryParse;
    DigitsTried(d, v);
    PrefixedDigits(d);
    assert "0x" + d != "" && Lower("0X" + d) == "0x" + d by {
      forall k | 0 <= k < |d| + 2 ensures LowerChar(("0X" + d)[k]) == ("0x" + d)[k] {
        assert k >= 2 ==> ("0X" + d)[k] == d[k - 2] == ("0x" + d)[k];
      }
    }
    assert Lower(d) == d by {
      forall k | 0 <= k < |d| ensures LowerChar(d[k]) == d[k] {}
    }
    assert |d| >= 2 ==> d[1] != 'x';
  }
}
