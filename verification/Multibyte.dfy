/** Characters of several bytes: the status scan of multibyte.cc, and what it says on well-formed text. */
module Multibyte {
  import opened Positional

  datatype CharacterSet = UTF8 | SJIS | BIG5 | GBK | UHC | EUC_JP | EUC_CN | EUC_KR | EUC_TW | GB18030 | SingleByte

  function Utf8Lead(stat: nat, c: nat): nat {
    if c >= 0xfc then 6 else if c >= 0xf8 then 5 else if c >= 0xf0 then 4 else if c >= 0xe0 then 3
      else if c >= 0xc0 then 2 else stat
  }

  predicate Digit(c: nat) {
    0x30 <= c <= 0x39
  }

  /** pg_CS_stat. */
  function CSStat(before: nat, c: nat, cs: CharacterSet): nat {
    var stat := if c == 0 then 0 else before;
    match cs
    case UTF8 =>
      if stat < 2 && c >= 0x80 then Utf8Lead(stat, c) else if stat > 2 && c > 0x7f then stat - 1 else 0
    case SJIS =>
      if stat < 2 && c > 0x80 && !(c > 0x9f && c < 0xe0) then 2 else if stat == 2 then 1 else 0
    case BIG5 =>
      if stat < 2 && c > 0xa0 then 2 else if stat == 2 then 1 else 0
    case GBK =>
      if stat < 2 && c > 0x7f then 2 else if stat == 2 then 1 else 0
    case UHC =>
      if stat < 2 && c > 0x7f then 2 else if stat == 2 then 1 else 0
    case EUC_JP =>
      if stat < 3 && c == 0x8f then 3
      else if stat != 2 && (c == 0x8e || c > 0xa0) then 2
      else if stat == 2 then 1 else 0
    case EUC_CN =>
      if stat < 2 && c > 0xa0 then 2 else if stat == 2 then 1 else 0
    case EUC_KR =>
      if stat < 2 && c > 0xa0 then 2 else if stat == 2 then 1 else 0
    case EUC_TW =>
      if stat < 4 && c == 0x8e then 4
      else if stat == 4 && c > 0xa0 then 3
      else if (stat == 3 || stat < 2) && c > 0xa0 then 2
      else if stat == 2 then 1 else 0
    case GB18030 =>
      if stat < 2 && c > 0x80 then 2
      else if stat == 2 then if Digit(c) then 3 else 1
      else if stat == 3 then if Digit(c) then 1 else 3
      else 0
    case SingleByte => 0
  }

  // ---------------------------------------------------------------- well-formed characters

  predicate Continues(b: seq<Byte>) {
    forall j :: 1 <= j < |b| ==> 0x80 <= b[j] <= 0xbf
  }

  /** One character.  For UTF-8 this takes in all of section 3 of RFC 3629. */
  predicate Char(cs: CharacterSet, b: seq<Byte>) {
    && 1 <= |b| <= 6 && (forall j :: 0 <= j < |b| ==> b[j] != 0)
    && var c := b[0];
       match cs
       case UTF8 => if |b| == 1 then c < 0x80 else c >= 0xc0 && |b| == Utf8Lead(0, c) && Continues(b)
       case SJIS => if |b| == 1 then c <= 0x80 || 0x9f < c < 0xe0 else |b| == 2 && c > 0x80 && !(0x9f < c < 0xe0)
       case BIG5 => if |b| == 1 then c <= 0xa0 else |b| == 2 && c > 0xa0
       case GBK => if |b| == 1 then c <= 0x7f else |b| == 2 && c > 0x7f
       case UHC => if |b| == 1 then c <= 0x7f else |b| == 2 && c > 0x7f
       case EUC_JP =>
         if |b| == 1 then c <= 0xa0 && c != 0x8e && c != 0x8f
         else if |b| == 2 then (c == 0x8e || c > 0xa0) && b[1] > 0xa0
         else |b| == 3 && c == 0x8f && b[1] > 0xa0 && b[2] > 0xa0
       case EUC_CN => if |b| == 1 then c <= 0xa0 else |b| == 2 && c > 0xa0
       case EUC_KR => if |b| == 1 then c <= 0xa0 else |b| == 2 && c > 0xa0
       case EUC_TW =>
         if |b| == 1 then c <= 0xa0 && c != 0x8e
         else if |b| == 2 then c > 0xa0 && b[1] > 0xa0
         else |b| == 4 && c == 0x8e && b[1] > 0xa0 && b[2] > 0xa0 && b[3] > 0xa0
       case GB18030 =>
         if |b| == 1 then c <= 0x80
         else if |b| == 2 then c > 0x80 && b[1] >= 0x40
         else |b| == 4 && c > 0x80 && Digit(b[1]) && b[2] > 0x80 && Digit(b[3])
       case SingleByte => |b| == 1
  }

  predicate Text(cs: CharacterSet, chars: seq<seq<Byte>>) {
    forall k :: 0 <= k < |chars| ==> Char(cs, chars[k])
  }

  function Flatten(chars: seq<seq<Byte>>): seq<Byte> {
    if chars == [] then [] else chars[0] + Flatten(chars[1..])
  }

  // ---------------------------------------------------------------- the scan

  /** The status after some bytes. */
  function Scan(cs: CharacterSet, stat: nat, s: seq<Byte>): nat {
    if s == [] then stat else CSStat(Scan(cs, stat, s[..|s| - 1]), s[|s| - 1], cs)
  }

  lemma ScanNext(cs: CharacterSet, stat: nat, s: seq<Byte>, j: nat)
    requires j < |s|
    ensures Scan(cs, stat, s[..j + 1]) == CSStat(Scan(cs, stat, s[..j]), s[j], cs)
    ensures Scan(cs, stat, s[..0]) == stat
  {
    assert s[..j + 1][..j] == s[..j];
  }

  /** The status of a byte within a character: at least 2 before its last byte, less at the end; and 0 only at the end
      of a single byte or on a byte above the ASCII range. */
  ghost predicate StatusOf(stat: nat, b: seq<Byte>, j: nat)
    requires 1 <= j <= |b|
  {
    && (stat < 2 <==> j == |b|)
    && (stat == 0 ==> |b| == 1 || b[j - 1] >= 0x80)
    && (|b| == 1 ==> stat == 0)
  }

  /** In UTF-8 the status counts down, and drops to 0 on the last byte. */
  lemma {:induction false} Utf8Status(stat: nat, b: seq<Byte>, j: nat)
    requires Char(UTF8, b) && stat < 2 && 1 <= j <= |b|
    ensures Scan(UTF8, stat, b[..j]) == if j == |b| then 0 else |b| - (j - 1)
  {
    ScanNext(UTF8, stat, b, j - 1);
    hide Scan;
    if j > 1 {
      Utf8Status(stat, b, j - 1);
    }
  }

  lemma PairStatus(cs: CharacterSet, stat: nat, b: seq<Byte>, j: nat)
    requires cs != UTF8 && Char(cs, b) && |b| <= 2 && stat < 2 && 1 <= j <= |b|
    ensures Scan(cs, stat, b[..j]) == if |b| == 1 then 0 else if j == 1 then 2 else 1
  {
    ScanNext(cs, stat, b, 0);
    if j > 1 { ScanNext(cs, stat, b, 1); }
    hide Scan;
  }

  lemma LongStatus(cs: CharacterSet, stat: nat, b: seq<Byte>, j: nat)
    requires cs != UTF8 && Char(cs, b) && |b| > 2 && stat < 2 && 1 <= j <= |b|
    ensures if j == |b| then Scan(cs, stat, b[..j]) == 1 else Scan(cs, stat, b[..j]) >= 2
  {
    ScanNext(cs, stat, b, 0);
    ScanNext(cs, stat, b, 1);
    ScanNext(cs, stat, b, 2);
    if |b| > 3 { ScanNext(cs, stat, b, 3); }
    hide Scan;
  }

  lemma CharStatus(cs: CharacterSet, stat: nat, b: seq<Byte>, j: nat)
    requires Char(cs, b) && stat < 2 && 1 <= j <= |b|
    ensures StatusOf(Scan(cs, stat, b[..j]), b, j)
  {
    if cs == UTF8 {
      Utf8Status(stat, b, j);
    } else if |b| <= 2 {
      PairStatus(cs, stat, b, j);
    } else {
      LongStatus(cs, stat, b, j);
    }
  }

  // ---------------------------------------------------------------- counting

  /** How many bytes of s end with a status below 2. */
  function Count(cs: CharacterSet, stat: nat, s: seq<Byte>): nat {
    if s == [] then 0
    else Count(cs, stat, s[..|s| - 1]) + if Scan(cs, stat, s) < 2 then 1 else 0
  }

  lemma {:induction false} ScanConcat(cs: CharacterSet, stat: nat, a: seq<Byte>, b: seq<Byte>)
    ensures Scan(cs, stat, a + b) == Scan(cs, Scan(cs, stat, a), b)
    ensures Count(cs, stat, a + b) == Count(cs, stat, a) + Count(cs, Scan(cs, stat, a), b)
  {
    if b == [] {
      assert a + b == a;
    } else {
      assert (a + b)[..|a + b| - 1] == a + b[..|b| - 1];
      ScanConcat(cs, stat, a, b[..|b| - 1]);
    }
  }

  lemma {:induction false} CountInside(cs: CharacterSet, stat: nat, b: seq<Byte>, j: nat)
    requires Char(cs, b) && stat < 2 && j <= |b|
    ensures Count(cs, stat, b[..j]) == if j == |b| then 1 else 0
  {
    if j > 0 {
      assert b[..j][..j - 1] == b[..j - 1];
      CountInside(cs, stat, b, j - 1);
      CharStatus(cs, stat, b, j);
      hide Char, Scan;
    }
  }

  /** A whole text: one count for each character. */
  lemma {:induction false} CountText(cs: CharacterSet, stat: nat, chars: seq<seq<Byte>>)
    requires Text(cs, chars) && stat < 2
    ensures Count(cs, stat, Flatten(chars)) == |chars| && Scan(cs, stat, Flatten(chars)) < 2
    ensures 0 !in Flatten(chars)
    decreases |chars|
  {
    if chars != [] {
      var b := chars[0];
      ScanConcat(cs, stat, b, Flatten(chars[1..]));
      OneChar(cs, stat, b);
      hide Scan, Count, Char;
      CountText(cs, Scan(cs, stat, b), chars[1..]);
    }
  }

  lemma OneChar(cs: CharacterSet, stat: nat, b: seq<Byte>)
    requires Char(cs, b) && stat < 2
    ensures Count(cs, stat, b) == 1 && Scan(cs, stat, b) < 2 && 0 !in b
  {
    CharStatus(cs, stat, b, |b|);
    CountInside(cs, stat, b, |b|);
    assert b[..|b|] == b;
  }

  /** The bytes before the first NUL. */
  function CString(s: seq<Byte>): (r: seq<Byte>)
    ensures |r| <= |s| && r == s[..|r|] && 0 !in r && (|r| < |s| ==> s[|r|] == 0)
  {
    if s == [] || s[0] == 0 then [] else [s[0]] + CString(s[1..])
  }

  /** pg_mbslen. */
  method MbsLen(cs: CharacterSet, s: array<Byte>) returns (len: nat)
    requires 0 in s[..]
    ensures len == Count(cs, 0, CString(s[..]))
    ensures forall chars :: Text(cs, chars) && CString(s[..]) == Flatten(chars) ==> len == |chars|
  {
    hide *;
    len := 0;
    var csStat, i := 0, 0;
    ghost var text := CString(s[..]);
    NulThere(s[..]);
    ScanEmpty(cs, text);
    while s[i] != 0
      invariant i <= |text| < s.Length
      invariant csStat == Scan(cs, 0, text[..i]) && len == Count(cs, 0, text[..i])
      decreases |text| - i
    {
      assert text[i] == s[..][i];
      ScanNext(cs, 0, text, i);
      CountNext(cs, text, i);
      csStat := CSStat(csStat, s[i], cs);
      if csStat < 2 {
        len := len + 1;
      }
      i := i + 1;
    }
    assert text[..i] == text;
    forall chars | Text(cs, chars) && text == Flatten(chars) ensures len == |chars| {
      CountText(cs, 0, chars);
    }
  }

  lemma NulThere(s: seq<Byte>)
    requires 0 in s
    ensures |CString(s)| < |s| && s[|CString(s)|] == 0
    ensures forall k :: 0 <= k < |CString(s)| ==> s[k] != 0 && CString(s)[k] == s[k]
  {
    var r := CString(s);
    assert r == s[..|r|];
    if |r| == |s| {
      assert false;
    }
    forall k | 0 <= k < |r| ensures s[k] != 0 && r[k] == s[k] {
      assert r[k] in r;
    }
  }

  lemma ScanEmpty(cs: CharacterSet, s: seq<Byte>)
    ensures Scan(cs, 0, s[..0]) == 0 && Count(cs, 0, s[..0]) == 0
  {
  }

  lemma CountNext(cs: CharacterSet, s: seq<Byte>, i: nat)
    requires i < |s|
    ensures Count(cs, 0, s[..i + 1]) == Count(cs, 0, s[..i]) + if Scan(cs, 0, s[..i + 1]) < 2 then 1 else 0
  {
    assert s[..i + 1][..i] == s[..i];
  }

  // ---------------------------------------------------------------- searching

  /** A byte that the scan takes for the character looked for. */
  predicate Hit(cs: CharacterSet, stat: nat, s: seq<Byte>, i: nat, character: Byte)
    requires i < |s|
  {
    Scan(cs, stat, s[..i + 1]) == 0 && s[i] == character
  }

  /** Where the first character of that one byte stands, or -1. */
  function FirstChar(chars: seq<seq<Byte>>, character: Byte): int {
    if chars == [] then -1
    else if chars[0] == [character] then 0
    else
      var x := FirstChar(chars[1..], character);
      if x < 0 then -1 else |chars[0]| + x
  }

  /** The first of the hits, or none. */
  ghost predicate FirstHit(cs: CharacterSet, stat: nat, s: seq<Byte>, x: int, character: Byte) {
    if x < 0 then forall i :: 0 <= i < |s| ==> !Hit(cs, stat, s, i, character)
    else x < |s| && Hit(cs, stat, s, x, character) && forall i :: 0 <= i < x ==> !Hit(cs, stat, s, i, character)
  }

  lemma HitHere(cs: CharacterSet, stat: nat, b: seq<Byte>, rest: seq<Byte>, i: nat, character: Byte)
    requires Char(cs, b) && stat < 2 && i < |b| && character < 0x80
    ensures Hit(cs, stat, b + rest, i, character) <==> b == [character]
  {
    assert (b + rest)[..i + 1] == b[..i + 1];
    CharStatus(cs, stat, b, i + 1);
    hide Char, Scan;
    assert |b| == 1 ==> b == [b[0]];
  }

  lemma HitLater(cs: CharacterSet, stat: nat, b: seq<Byte>, rest: seq<Byte>, i: nat, character: Byte)
    requires i < |rest|
    ensures Hit(cs, stat, b + rest, |b| + i, character) <==> Hit(cs, Scan(cs, stat, b), rest, i, character)
  {
    assert (b + rest)[..|b| + i + 1] == b + rest[..i + 1];
    ScanConcat(cs, stat, b, rest[..i + 1]);
  }

  /** On well-formed text a search for an ASCII character finds just that, never a byte within another character. */
  lemma {:induction false} SearchText(cs: CharacterSet, stat: nat, chars: seq<seq<Byte>>, character: Byte)
    requires Text(cs, chars) && stat < 2 && character < 0x80
    ensures FirstHit(cs, stat, Flatten(chars), FirstChar(chars, character), character)
    decreases |chars|
  {
    if chars != [] {
      var b, rest := chars[0], Flatten(chars[1..]);
      OneChar(cs, stat, b);
      assert Flatten(chars) == b + rest;
      hide Char, Scan, Hit, Count;
      SearchText(cs, Scan(cs, stat, b), chars[1..], character);
      forall i | 0 <= i < |b| ensures Hit(cs, stat, b + rest, i, character) <==> b == [character] {
        HitHere(cs, stat, b, rest, i, character);
      }
      forall i | 0 <= i < |rest|
        ensures Hit(cs, stat, b + rest, |b| + i, character) <==> Hit(cs, Scan(cs, stat, b), rest, i, character) {
        HitLater(cs, stat, b, rest, i, character);
      }
      SearchStep(cs, stat, chars, b, rest, character);
    }
  }

  lemma SearchStep(cs: CharacterSet, stat: nat, chars: seq<seq<Byte>>, b: seq<Byte>, rest: seq<Byte>, character: Byte)
    requires chars != [] && b == chars[0] && b != [] && rest == Flatten(chars[1..])
    requires forall i :: 0 <= i < |b| ==> (Hit(cs, stat, b + rest, i, character) <==> b == [character])
    requires forall i :: 0 <= i < |rest| ==>
      (Hit(cs, stat, b + rest, |b| + i, character) <==> Hit(cs, Scan(cs, stat, b), rest, i, character))
    requires FirstHit(cs, Scan(cs, stat, b), rest, FirstChar(chars[1..], character), character)
    ensures FirstHit(cs, stat, b + rest, FirstChar(chars, character), character)
  {
    hide Hit, Scan;
    var x := FirstChar(chars[1..], character);
    forall i | |b| <= i < |b + rest| && (x < 0 || i < |b| + x) && b != [character]
      ensures !Hit(cs, stat, b + rest, i, character) {
      assert Hit(cs, stat, b + rest, |b| + (i - |b|), character) <==>
        Hit(cs, Scan(cs, stat, b), rest, i - |b|, character);
    }
  }

  lemma SameHit(cs: CharacterSet, s: seq<Byte>, x: int, y: int, character: Byte)
    requires FirstHit(cs, 0, s, x, character) && FirstHit(cs, 0, s, y, character) && x >= -1 && y >= -1
    ensures x == y
  {
    hide Hit;
  }

  lemma {:induction false} FirstCharBound(chars: seq<seq<Byte>>, character: Byte)
    ensures FirstChar(chars, character) >= -1
  {
    if chars != [] {
      FirstCharBound(chars[1..], character);
    }
  }

  /** pg_mbschr: the index of the character, or -1. */
  method MbsChr(cs: CharacterSet, str: array<Byte>, character: Byte) returns (rs: int)
    requires 0 in str[..]
    ensures rs >= -1 && FirstHit(cs, 0, CString(str[..]), rs, character)
    ensures forall chars :: Text(cs, chars) && CString(str[..]) == Flatten(chars) && character < 0x80 ==>
      rs == FirstChar(chars, character)
  {
    rs := ScanFor(cs, str, character);
    forall chars | Text(cs, chars) && CString(str[..]) == Flatten(chars) && character < 0x80
      ensures rs == FirstChar(chars, character) {
      SearchText(cs, 0, chars, character);
      FirstCharBound(chars, character);
      SameHit(cs, CString(str[..]), rs, FirstChar(chars, character), character);
    }
  }

  /** The loop of it. */
  method ScanFor(cs: CharacterSet, str: array<Byte>, character: Byte) returns (rs: int)
    requires 0 in str[..]
    ensures rs >= -1 && FirstHit(cs, 0, CString(str[..]), rs, character)
  {
    hide CSStat, Scan, CString;
    var mbSt, i := 0, 0;
    ghost var text := CString(str[..]);
    NulThere(str[..]);
    ScanEmpty(cs, text);
    while str[i] != 0
      invariant i <= |text| < str.Length && mbSt == Scan(cs, 0, text[..i])
      invariant forall k :: 0 <= k < i ==> !Hit(cs, 0, text, k, character)
      decreases |text| - i
    {
      assert text[i] == str[..][i];
      ScanNext(cs, 0, text, i);
      mbSt := CSStat(mbSt, str[i], cs);
      if mbSt == 0 && str[i] == character {
        return i;
      }
      i := i + 1;
    }
    return -1;
  }

  // ---------------------------------------------------------------- written out

  /** The bytes of a UTF-8 character, of up to six as in section 2 of RFC 2279. */
  lemma Utf8Form(b: seq<Byte>)
    ensures Char(UTF8, b) <==>
      && b != [] && (forall j :: 1 <= j < |b| ==> 0x80 <= b[j] < 0xc0)
      && ((|b| == 1 && 0 < b[0] <= 0x7f) || (|b| == 2 && 0xc0 <= b[0] <= 0xdf) || (|b| == 3 && 0xe0 <= b[0] <= 0xef)
          || (|b| == 4 && 0xf0 <= b[0] <= 0xf7) || (|b| == 5 && 0xf8 <= b[0] <= 0xfb) || (|b| == 6 && 0xfc <= b[0]))
  {
  }

  /** Outside UTF-8 every byte that the scan takes for a whole character is one, and every byte that it takes for the
      first of two is one with any byte behind it, but for the sets that tell longer characters apart by that byte. */
  lemma ShortForm(cs: CharacterSet, a: Byte, b: Byte)
    requires cs != UTF8 && a != 0 && b != 0
    ensures Char(cs, [a]) <==> CSStat(0, a, cs) == 0
    ensures Char(cs, [a, b]) <==>
      && CSStat(0, a, cs) == 2 && (cs == EUC_JP || cs == EUC_TW ==> 0xa1 <= b) && (cs == GB18030 ==> 0x40 <= b)
  {
  }

  /** A second first byte within a longer character of the EUC sets begins another one only where the status says so. */
  lemma BrokenForm(stat: nat)
    requires stat <= 4
    ensures CSStat(stat, 0x8f, EUC_JP) == (if stat < 3 then 3 else 0)
    ensures CSStat(stat, 0x8e, EUC_JP) == (if stat != 2 then 2 else 1)
    ensures CSStat(stat, 0x8e, EUC_TW) == (if stat < 4 then 4 else 0)
  {
  }

  /** The three bytes of JIS X 0212 and the four of the planes of CNS 11643. */
  lemma LongForm(b: seq<Byte>)
    ensures |b| == 3 ==> (Char(EUC_JP, b) <==> b[0] == 0x8f && 0xa1 <= b[1] && 0xa1 <= b[2])
    ensures |b| == 4 ==> (Char(EUC_TW, b) <==> b[0] == 0x8e && 0xa1 <= b[1] && 0xa1 <= b[2] && 0xa1 <= b[3])
  {
  }

  /** The characters of four bytes in GB 18030: digits at the second and the fourth place. */
  lemma GB18030Form(b: seq<Byte>)
    requires |b| == 4
    ensures Char(GB18030, b) <==>
      && 0x81 <= b[0] && b[1] as char in "0123456789" && 0x81 <= b[2] && b[3] as char in "0123456789"
  {
    forall c: Byte ensures Digit(c) <==> c as char in "0123456789" {
      if Digit(c) {
        assert "0123456789"[c - 0x30] == c as char;
      }
    }
  }
}
