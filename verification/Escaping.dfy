/** convert_special_chars: a value made fit for a quoted literal, whatever the character set. */
module Escaping {
  import opened Positional
  import opened Multibyte

  const QUOTE: Byte := 0x27
  const CR: Byte := 13
  const LF: Byte := 10

  /** The byte after position i of the buffer; the terminator at its end. */
  function Ahead(s: seq<Byte>, i: nat): Byte {
    if i + 1 < |s| then s[i + 1] else 0
  }

  /** What one byte becomes, given the status it ends with and the byte after it. */
  function Piece(stat: nat, c: Byte, ahead: Byte, convlf: bool, double: bool, escape: Byte): seq<Byte> {
    if stat != 0 then [c]
    else if convlf && c == CR && ahead == LF then []
    else if double && (c == QUOTE || c == escape) then [c, c]
    else [c]
  }

  /** The first n bytes of a buffer, converted. */
  function Converted(cs: CharacterSet, s: seq<Byte>, n: nat, convlf: bool, double: bool, escape: Byte): seq<Byte>
    requires n <= |s|
  {
    if n == 0 then []
    else Converted(cs, s, n - 1, convlf, double, escape)
         + Piece(Scan(cs, 0, s[..n]), s[n - 1], Ahead(s, n - 1), convlf, double, escape)
  }

  /** How much is converted: up to the length given, or the terminator. */
  function Used(s: seq<Byte>, used: nat): (n: nat)
    ensures n <= |s| && n <= used && 0 !in s[..n] && (n < |s| && n < used ==> s[n] == 0)
  {
    if used == 0 || s == [] || s[0] == 0 then 0
    else
      var n := Used(s[1..], used - 1) + 1;
      assert s[..n] == [s[0]] + s[1..][..n - 1];
      n
  }

  /** Without dst, only the length; with it, the bytes and a terminator as well. */
  method ConvertSpecialChars(si: seq<Byte>, dst: array?<Byte>, used: nat, convlf: bool, double: bool,
        cs: CharacterSet, escape: Byte)
      returns (out: nat)
    requires dst != null ==> dst.Length > |Converted(cs, si, Used(si, used), convlf, double, escape)|
    modifies dst
    ensures out == |Converted(cs, si, Used(si, used), convlf, double, escape)|
    ensures dst != null ==> dst[..out] == Converted(cs, si, Used(si, used), convlf, double, escape) && dst[out] == 0
    ensures dst != null ==> forall k :: out < k < dst.Length ==> dst[k] == old(dst[k])
  {
    hide Scan, CSStat, Used, Converted;
    out := 0;
    if dst != null {
      dst[0] := 0;
    }
    var i, ccst := 0, 0;
    ghost var n := Used(si, used);
    ConvertedStart(cs, si, convlf, double, escape);
    UsedStart(si, used);
    while i < used && i < |si| && si[i] != 0
      invariant i <= n && ccst == Scan(cs, 0, si[..i])
      invariant out == |Converted(cs, si, i, convlf, double, escape)|
      invariant dst != null ==> out < dst.Length && dst[..out] == Converted(cs, si, i, convlf, double, escape)
      invariant dst != null ==> forall k :: out <= k < dst.Length && k > 0 ==> dst[k] == old(dst[k])
      decreases n - i
    {
      var tchar := si[i];
      UsedMore(si, used, i);
      ScanNext(cs, 0, si, i);
      ConvertedNext(cs, si, i, convlf, double, escape);
      ConvertedGrows(cs, si, i + 1, n, convlf, double, escape);
      ccst := CSStat(ccst, tchar, cs);
      i := i + 1;
      if ccst != 0 {
        if dst != null {
          dst[out] := tchar;
        }
        out := out + 1;
        continue;
      }
      if convlf && tchar == CR && Ahead(si, i - 1) == LF {
        continue;
      } else if double && (tchar == QUOTE || tchar == escape) {
        if dst != null {
          dst[out] := tchar;
        }
        out := out + 1;
      }
      if dst != null {
        dst[out] := tchar;
      }
      out := out + 1;
    }
    UsedDone(si, used, i);
    if dst != null {
      dst[out] := 0;
    }
  }

  lemma ConvertedStart(cs: CharacterSet, s: seq<Byte>, convlf: bool, double: bool, escape: Byte)
    ensures Converted(cs, s, 0, convlf, double, escape) == [] && Scan(cs, 0, s[..0]) == 0
  {
  }

  lemma ConvertedNext(cs: CharacterSet, s: seq<Byte>, i: nat, convlf: bool, double: bool, escape: Byte)
    requires i < |s|
    ensures Converted(cs, s, i + 1, convlf, double, escape) ==
      Converted(cs, s, i, convlf, double, escape)
        + Piece(Scan(cs, 0, s[..i + 1]), s[i], Ahead(s, i), convlf, double, escape)
  {
  }

  lemma {:induction false} ConvertedGrows(cs: CharacterSet, s: seq<Byte>, i: nat, n: nat, convlf: bool, double: bool,
        escape: Byte)
    requires i <= n <= |s|
    ensures |Converted(cs, s, i, convlf, double, escape)| <= |Converted(cs, s, n, convlf, double, escape)|
    decreases n
  {
    if i < n {
      ConvertedGrows(cs, s, i, n - 1, convlf, double, escape);
    }
  }

  lemma UsedStart(s: seq<Byte>, used: nat)
    ensures Used(s, used) <= |s|
  {
  }

  lemma UsedMore(s: seq<Byte>, used: nat, i: nat)
    requires i <= Used(s, used) && i < used && i < |s| && s[i] != 0
    ensures i < Used(s, used)
  {
  }

  lemma UsedDone(s: seq<Byte>, used: nat, i: nat)
    requires i <= Used(s, used) && !(i < used && i < |s| && s[i] != 0)
    ensures i == Used(s, used)
  {
    UsedNonZero(s, used);
    if i < Used(s, used) {
      assert false;
    }
  }

  lemma UsedNonZero(s: seq<Byte>, used: nat)
    ensures forall k :: 0 <= k < Used(s, used) ==> s[k] != 0
  {
    forall k | 0 <= k < Used(s, used) ensures s[k] != 0 {
      assert s[..Used(s, used)][k] == s[k];
    }
  }

  // ---------------------------------------------------------------- on characters

  /** The first byte of what follows. */
  function FirstByte(chars: seq<seq<Byte>>, tail: seq<Byte>): Byte {
    if chars != [] && chars[0] != [] then chars[0][0] else if chars == [] && tail != [] then tail[0] else 0
  }

  /** Carriage returns before line feeds taken out. */
  function DropCR(chars: seq<seq<Byte>>, tail: seq<Byte>): seq<seq<Byte>> {
    if chars == [] then []
    else (if chars[0] == [CR] && FirstByte(chars[1..], tail) == LF then [] else [chars[0]]) + DropCR(chars[1..], tail)
  }

  /** Quotes and escapes that are characters of their own, twice. */
  function Doubled(chars: seq<seq<Byte>>, escape: Byte): seq<seq<Byte>> {
    if chars == [] then []
    else
      (if chars[0] == [QUOTE] || chars[0] == [escape] then [chars[0], chars[0]] else [chars[0]])
      + Doubled(chars[1..], escape)
  }

  function Escaped(chars: seq<seq<Byte>>, tail: seq<Byte>, convlf: bool, double: bool, escape: Byte): seq<seq<Byte>> {
    var kept := if convlf then DropCR(chars, tail) else chars;
    if double then Doubled(kept, escape) else kept
  }

  /** What one character becomes. */
  function CharPiece(b: seq<Byte>, ahead: Byte, convlf: bool, double: bool, escape: Byte): seq<Byte> {
    if convlf && b == [CR] && ahead == LF then []
    else if double && (b == [QUOTE] || b == [escape]) then b + b
    else b
  }

  lemma PieceOfByte(stat: nat, b: seq<Byte>, j: nat, ahead: Byte, convlf: bool, double: bool, escape: Byte)
    requires 1 <= j <= |b| && StatusOf(stat, b, j) && escape < 0x80
    ensures |b| == 1 ==> Piece(stat, b[0], ahead, convlf, double, escape) == CharPiece(b, ahead, convlf, double, escape)
    ensures |b| > 1 ==> (Piece(stat, b[j - 1], ahead, convlf, double, escape) == [b[j - 1]]
                         && CharPiece(b, ahead, convlf, double, escape) == b)
  {
    assert |b| == 1 ==> b == [b[0]] && [b[0], b[0]] == b + b;
  }

  lemma ScanInside(cs: CharacterSet, s: seq<Byte>, m: nat, b: seq<Byte>, j: nat)
    requires Char(cs, b) && m + |b| <= |s| && s[m..m + |b|] == b && Scan(cs, 0, s[..m]) < 2 && 1 <= j <= |b|
    ensures StatusOf(Scan(cs, 0, s[..m + j]), b, j) && s[m + j - 1] == b[j - 1]
  {
    hide Char, Scan;
    ScanConcat(cs, 0, s[..m], b[..j]);
    assert s[..m + j] == s[..m] + b[..j];
    CharStatus(cs, Scan(cs, 0, s[..m]), b, j);
    assert s[m..m + |b|][j - 1] == b[j - 1];
  }

  /** The bytes of one character: nothing happens before the last. */
  lemma {:induction false} CharConverted(cs: CharacterSet, s: seq<Byte>, m: nat, b: seq<Byte>, j: nat,
                                         convlf: bool, double: bool, escape: Byte)
    requires Char(cs, b) && escape < 0x80 && m + |b| <= |s| && s[m..m + |b|] == b && Scan(cs, 0, s[..m]) < 2
      && 1 <= j <= |b|
    ensures Converted(cs, s, m + j, convlf, double, escape) == Converted(cs, s, m, convlf, double, escape)
      + if j < |b| then b[..j] else CharPiece(b, Ahead(s, m + |b| - 1), convlf, double, escape)
  {
    hide *;
    ScanInside(cs, s, m, b, j);
    ConvertedNext(cs, s, m + j - 1, convlf, double, escape);
    PieceOfByte(Scan(cs, 0, s[..m + j]), b, j, Ahead(s, m + j - 1), convlf, double, escape);
    assert b[..|b|] == b;
    if j > 1 {
      CharConverted(cs, s, m, b, j - 1, convlf, double, escape);
      assert b[..j] == b[..j - 1] + [b[j - 1]];
    } else {
      assert b[..1] == [b[0]];
    }
  }

  lemma {:induction false} FlattenConcat(a: seq<seq<Byte>>, b: seq<seq<Byte>>)
    ensures Flatten(a + b) == Flatten(a) + Flatten(b)
  {
    if a == [] {
      assert a + b == b;
    } else {
      assert (a + b)[1..] == a[1..] + b;
      FlattenConcat(a[1..], b);
    }
  }

  /** The characters from position m on. */
  lemma {:induction false} CharsConverted(cs: CharacterSet, s: seq<Byte>, m: nat, chars: seq<seq<Byte>>,
        tail: seq<Byte>,
                                          convlf: bool, double: bool, escape: Byte)
    requires Text(cs, chars) && escape < 0x80 && m <= |s| && s[m..] == Flatten(chars) + tail && Scan(cs, 0, s[..m]) < 2
    ensures m + |Flatten(chars)| <= |s|
    ensures Converted(cs, s, m + |Flatten(chars)|, convlf, double, escape)
         == Converted(cs, s, m, convlf, double, escape) + Flatten(Escaped(chars, tail, convlf, double, escape))
    decreases |chars|
  {
    hide *;
    if chars == [] {
      NoChars(tail, convlf, double, escape);
    } else {
      var b, rest := chars[0], chars[1..];
      FlattenFirst(cs, chars, tail);
      assert s[m..m + |b|] == s[m..][..|b|] == b;
      assert s[m + |b|..] == s[m..][|b|..] == Flatten(rest) + tail;
      ScanInside(cs, s, m, b, |b|);
      StatusAtEnd(cs, Scan(cs, 0, s[..m + |b|]), b);
      CharConverted(cs, s, m, b, |b|, convlf, double, escape);
      CharsConverted(cs, s, m + |b|, rest, tail, convlf, double, escape);
      AheadIs(cs, s, m + |b|, rest, tail);
      EscapedFirst(cs, chars, tail, convlf, double, escape);
    }
  }

  lemma NoChars(tail: seq<Byte>, convlf: bool, double: bool, escape: Byte)
    ensures Flatten([]) == [] && Escaped([], tail, convlf, double, escape) == []
  {
  }

  lemma FlattenFirst(cs: CharacterSet, chars: seq<seq<Byte>>, tail: seq<Byte>)
    requires chars != [] && Text(cs, chars)
    ensures Char(cs, chars[0]) && |chars[0]| >= 1 && Text(cs, chars[1..])
    ensures Flatten(chars) == chars[0] + Flatten(chars[1..])
    ensures Flatten(chars) + tail == chars[0] + (Flatten(chars[1..]) + tail)
  {
    hide Char;
    OneByteAtLeast(cs, chars[0]);
    AppendRest(chars[0], Flatten(chars[1..]), tail);
  }

  lemma AppendRest(a: seq<Byte>, b: seq<Byte>, c: seq<Byte>)
    ensures (a + b) + c == a + (b + c)
  {
  }

  lemma OneByteAtLeast(cs: CharacterSet, b: seq<Byte>)
    requires Char(cs, b)
    ensures |b| >= 1
  {
  }

  lemma StatusAtEnd(cs: CharacterSet, stat: nat, b: seq<Byte>)
    requires |b| >= 1 && StatusOf(stat, b, |b|)
    ensures stat < 2
  {
  }

  /** The byte after a character is the first of what follows. */
  lemma AheadIs(cs: CharacterSet, s: seq<Byte>, m: nat, rest: seq<seq<Byte>>, tail: seq<Byte>)
    requires 1 <= m <= |s| && s[m..] == Flatten(rest) + tail && Text(cs, rest)
    ensures Ahead(s, m - 1) == FirstByte(rest, tail)
  {
    hide Char;
    if rest != [] {
      OneByteAtLeast(cs, rest[0]);
      assert s[m..][0] == rest[0][0];
    } else if tail != [] {
      assert s[m..][0] == tail[0];
    }
  }

  lemma EscapedFirst(cs: CharacterSet, chars: seq<seq<Byte>>, tail: seq<Byte>, convlf: bool, double: bool, escape: Byte)
    requires chars != []
    ensures Flatten(Escaped(chars, tail, convlf, double, escape)) ==
      CharPiece(chars[0], FirstByte(chars[1..], tail), convlf, double, escape)
        + Flatten(Escaped(chars[1..], tail, convlf, double, escape))
  {
    var b, rest := chars[0], chars[1..];
    var kept := if convlf then DropCR(rest, tail) else rest;
    if convlf && b == [CR] && FirstByte(rest, tail) == LF {
      assert DropCR(chars, tail) == [] + DropCR(rest, tail) == kept;
    } else {
      assert convlf ==> DropCR(chars, tail) == [b] + kept;
      assert !convlf ==> chars == [b] + kept;
      DoubledFirst(b, kept, escape);
    }
  }

  lemma DoubledFirst(b: seq<Byte>, kept: seq<seq<Byte>>, escape: Byte)
    ensures Flatten([b] + kept) == b + Flatten(kept)
    ensures Flatten(Doubled([b] + kept, escape)) ==
      (if b == [QUOTE] || b == [escape] then b + b else b) + Flatten(Doubled(kept, escape))
  {
    assert ([b] + kept)[1..] == kept;
    FlattenConcat([b], kept);
    FlattenConcat([b, b], Doubled(kept, escape));
    FlattenConcat([b], Doubled(kept, escape));
    assert Flatten([b]) == b + Flatten([]) == b;
    assert [b, b][1..] == [b];
    assert Flatten([b, b]) == b + Flatten([b]);
  }

  /** Well-formed text is converted character by character: only whole quotes and escapes are doubled, only whole
      carriage returns dropped. */
  lemma TextConverted(cs: CharacterSet, chars: seq<seq<Byte>>, tail: seq<Byte>, convlf: bool, double: bool,
        escape: Byte)
    requires Text(cs, chars) && escape < 0x80
    ensures Converted(cs, Flatten(chars) + tail, |Flatten(chars)|, convlf, double, escape)
         == Flatten(Escaped(chars, tail, convlf, double, escape))
  {
    hide *;
    var s := Flatten(chars) + tail;
    assert s[0..] == s;
    ConvertedStart(cs, s, convlf, double, escape);
    CharsConverted(cs, s, 0, chars, tail, convlf, double, escape);
    assert [] + Flatten(Escaped(chars, tail, convlf, double, escape)) ==
      Flatten(Escaped(chars, tail, convlf, double, escape));
  }

  // ---------------------------------------------------------------- reading the literal back

  datatype Literal = Unterminated | Literal(value: seq<seq<Byte>>, rest: seq<seq<Byte>>)

  function Behind(c: seq<Byte>, l: Literal): Literal {
    if l.Unterminated? then l else l.(value := [c] + l.value)
  }

  /** What a reader of SQL makes of the characters after an opening quote; an escape of 0 means that there is none. */
  function ReadLiteral(chars: seq<seq<Byte>>, escape: Byte): Literal
    decreases |chars|
  {
    if chars == [] then Unterminated
    else if chars[0] == [QUOTE] then
      if |chars| > 1 && chars[1] == [QUOTE] then Behind([QUOTE], ReadLiteral(chars[2..], escape))
      else Literal([], chars[1..])
    else if chars[0] == [escape] && escape != 0 then
      if |chars| > 1 then Behind(chars[1], ReadLiteral(chars[2..], escape)) else Unterminated
    else Behind(chars[0], ReadLiteral(chars[1..], escape))
  }

  lemma ReadPair(c: seq<Byte>, more: seq<seq<Byte>>, escape: Byte)
    requires c == [QUOTE] || (c == [escape] && escape != 0)
    ensures ReadLiteral([c, c] + more, escape) == Behind(c, ReadLiteral(more, escape))
  {
    assert ([c, c] + more)[2..] == more;
  }

  lemma ReadPlain(c: seq<Byte>, more: seq<seq<Byte>>, escape: Byte)
    requires c != [QUOTE] && c != [escape]
    ensures ReadLiteral([c] + more, escape) == Behind(c, ReadLiteral(more, escape))
  {
    assert ([c] + more)[1..] == more;
  }

  lemma ReadEnd(rest: seq<seq<Byte>>, escape: Byte)
    requires rest == [] || rest[0] != [QUOTE]
    ensures ReadLiteral([[QUOTE]] + rest, escape) == Literal([], rest)
  {
    assert ([[QUOTE]] + rest)[1..] == rest;
  }

  lemma DoubledCons(chars: seq<seq<Byte>>, escape: Byte)
    requires chars != []
    ensures Doubled(chars, escape) ==
      (if chars[0] == [QUOTE] || chars[0] == [escape] then [chars[0], chars[0]] else [chars[0]])
        + Doubled(chars[1..], escape)
  {
  }

  /** The doubled text, closed by a quote, reads as the text, and the literal ends at that quote. */
  lemma {:induction false} ReadsBack(chars: seq<seq<Byte>>, rest: seq<seq<Byte>>, escape: Byte)
    requires [0] !in chars && (rest == [] || rest[0] != [QUOTE])
    ensures ReadLiteral(Doubled(chars, escape) + [[QUOTE]] + rest, escape) == Literal(chars, rest)
    decreases |chars|
  {
    hide *;
    if chars == [] {
      ReadEnd(rest, escape);
      NoneDoubled(rest, escape);
    } else {
      var c := chars[0];
      var more := Doubled(chars[1..], escape) + [[QUOTE]] + rest;
      DoubledCons(chars, escape);
      Regroup(if c == [QUOTE] || c == [escape] then [c, c] else [c], Doubled(chars[1..], escape), [[QUOTE]], rest);
      ReadsBack(chars[1..], rest, escape);
      BehindIs(c, chars, rest);
      if c == [QUOTE] || c == [escape] {
        ReadPair(c, more, escape);
      } else {
        ReadPlain(c, more, escape);
      }
    }
  }

  lemma NoneDoubled(rest: seq<seq<Byte>>, escape: Byte)
    ensures Doubled([], escape) + [[QUOTE]] + rest == [[QUOTE]] + rest
  {
  }

  lemma Regroup(a: seq<seq<Byte>>, b: seq<seq<Byte>>, c: seq<seq<Byte>>, d: seq<seq<Byte>>)
    ensures (a + b) + c + d == a + (b + c + d)
  {
  }

  lemma BehindIs(c: seq<Byte>, chars: seq<seq<Byte>>, rest: seq<seq<Byte>>)
    requires chars != [] && c == chars[0]
    ensures Behind(c, Literal(chars[1..], rest)) == Literal(chars, rest)
  {
    assert chars == [c] + chars[1..];
  }

  /** Well-formed bytes are characters in one way only. */
  lemma {:induction false} OneReading(cs: CharacterSet, a: seq<seq<Byte>>, b: seq<seq<Byte>>)
    requires Text(cs, a) && Text(cs, b) && Flatten(a) == Flatten(b)
    ensures a == b
  {
    hide Char, Scan;
    if a == [] || b == [] {
      if a != [] { OneByteAtLeast(cs, a[0]); }
      if b != [] { OneByteAtLeast(cs, b[0]); }
    } else {
      var s := Flatten(a);
      assert s == a[0] + Flatten(a[1..]) == b[0] + Flatten(b[1..]);
      OneByteAtLeast(cs, a[0]);
      OneByteAtLeast(cs, b[0]);
      SameLength(cs, a[0], b[0], s);
      SameLength(cs, b[0], a[0], s);
      assert a[0] == s[..|a[0]|] == b[0];
      assert Flatten(a[1..]) == s[|a[0]|..] == Flatten(b[1..]);
      OneReading(cs, a[1..], b[1..]);
    }
  }

  lemma SameLength(cs: CharacterSet, x: seq<Byte>, y: seq<Byte>, s: seq<Byte>)
    requires Char(cs, x) && Char(cs, y) && |x| <= |s| && |y| <= |s| && s[..|x|] == x && s[..|y|] == y
    ensures |x| <= |y|
  {
    hide Char, Scan;
    OneByteAtLeast(cs, y);
    assert |y| <= |x| ==> x[..|y|] == s[..|x|][..|y|] == s[..|y|];
    assert y[..|y|] == y;
    if |y| < |x| {
      CharStatus(cs, 0, x, |y|);
      CharStatus(cs, 0, y, |y|);
      assert false;
    }
  }

  /** Whatever characters a reader of the same set finds in the converted bytes between the quotes and after, the
      literal it reads is the text, carriage returns before line feeds left out when asked. */
  lemma LiteralSafe(cs: CharacterSet, chars: seq<seq<Byte>>, convlf: bool, escape: Byte, rest: seq<seq<Byte>>,
        seen: seq<seq<Byte>>)
    requires Text(cs, chars) && Text(cs, rest) && Text(cs, seen) && escape < 0x80 && (rest == [] || rest[0] != [QUOTE])
    requires Flatten(seen) ==
      Converted(cs, Flatten(chars), |Flatten(chars)|, convlf, true, escape) + [QUOTE] + Flatten(rest)
    ensures ReadLiteral(seen, escape) == Literal(if convlf then DropCR(chars, []) else chars, rest)
  {
    hide *;
    assert Flatten(chars) + [] == Flatten(chars);
    TextConverted(cs, chars, [], convlf, true, escape);
    EscapedIs(chars, convlf, escape);
    DropCRText(cs, chars, []);
    var kept := if convlf then DropCR(chars, []) else chars;
    Closed(cs, kept, rest, escape);
    OneReading(cs, seen, Doubled(kept, escape) + [[QUOTE]] + rest);
    NoNul(cs, kept);
    ReadsBack(kept, rest, escape);
  }

  lemma EscapedIs(chars: seq<seq<Byte>>, convlf: bool, escape: Byte)
    ensures Escaped(chars, [], convlf, true, escape) == Doubled(if convlf then DropCR(chars, []) else chars, escape)
  {
  }

  lemma Closed(cs: CharacterSet, kept: seq<seq<Byte>>, rest: seq<seq<Byte>>, escape: Byte)
    requires Text(cs, kept) && Text(cs, rest)
    ensures var out := Doubled(kept, escape) + [[QUOTE]] + rest;
      Text(cs, out) && Flatten(out) == Flatten(Doubled(kept, escape)) + [QUOTE] + Flatten(rest)
  {
    DoubledText(cs, kept, escape);
    QuoteIsChar(cs);
    hide Char, Doubled;
    FlattenConcat(Doubled(kept, escape) + [[QUOTE]], rest);
    FlattenConcat(Doubled(kept, escape), [[QUOTE]]);
    assert Flatten([[QUOTE]]) == [QUOTE] + Flatten([]) == [QUOTE];
  }

  lemma QuoteIsChar(cs: CharacterSet)
    ensures Char(cs, [QUOTE])
  {
  }

  lemma {:induction false} DropCRText(cs: CharacterSet, chars: seq<seq<Byte>>, tail: seq<Byte>)
    requires Text(cs, chars)
    ensures Text(cs, DropCR(chars, tail))
  {
    hide Char;
    if chars != [] {
      DropCRText(cs, chars[1..], tail);
    }
  }

  lemma {:induction false} DoubledText(cs: CharacterSet, chars: seq<seq<Byte>>, escape: Byte)
    requires Text(cs, chars)
    ensures Text(cs, Doubled(chars, escape))
  {
    hide Char;
    if chars != [] {
      DoubledText(cs, chars[1..], escape);
    }
  }

  lemma NoNul(cs: CharacterSet, chars: seq<seq<Byte>>)
    requires Text(cs, chars)
    ensures [0] !in chars
  {
    forall k | 0 <= k < |chars| ensures chars[k] != [0] {
      assert Char(cs, chars[k]);
    }
  }

  // ---------------------------------------------------------------- text that is not well-formed

  /** The conversion from place n on. */
  function ConvertedFrom(cs: CharacterSet, s: seq<Byte>, n: nat, convlf: bool, escape: Byte): seq<Byte>
    requires n <= |s|
    decreases |s| - n
  {
    if n == |s| then []
    else
      Piece(Scan(cs, 0, s[..n + 1]), s[n], Ahead(s, n), convlf, true, escape)
      + ConvertedFrom(cs, s, n + 1, convlf, escape)
  }

  lemma {:induction false} ConvertedSplit(cs: CharacterSet, s: seq<Byte>, n: nat, convlf: bool, escape: Byte)
    requires n <= |s|
    ensures Converted(cs, s, |s|, convlf, true, escape) ==
      Converted(cs, s, n, convlf, true, escape) + ConvertedFrom(cs, s, n, convlf, escape)
    decreases |s| - n
  {
    hide Piece, Scan;
    if n < |s| {
      ConvertedSplit(cs, s, n + 1, convlf, escape);
      ConvertedNext(cs, s, n, convlf, true, escape);
    }
  }

  /** Where a reader that scans bytes as the driver does finds the quote that closes the literal. */
  function ClosedAt(cs: CharacterSet, stat: nat, s: seq<Byte>, escape: Byte): (n: int)
    ensures n >= -1
    decreases |s|
  {
    if s == [] then -1
    else
      var now := CSStat(stat, s[0], cs);
      if now == 0 && s[0] == QUOTE then
        if |s| > 1 && s[1] == QUOTE then Further(2, ClosedAt(cs, CSStat(now, s[1], cs), s[2..], escape)) else 0
      else if now == 0 && s[0] == escape && escape != 0 then
        if |s| > 1 then Further(2, ClosedAt(cs, CSStat(now, s[1], cs), s[2..], escape)) else -1
      else Further(1, ClosedAt(cs, now, s[1..], escape))
  }

  function Further(k: nat, n: int): (r: int)
    requires n >= -1
    ensures r >= -1 && (r >= 0 ==> r >= k)
  {
    if n < 0 then -1 else k + n
  }

  /** ASCII characters that are no digits are all alike to the scan. */
  lemma AsciiAlike(cs: CharacterSet, stat: nat, c: Byte, d: Byte)
    requires 0 < c < 0x80 && 0 < d < 0x80 && !Digit(c) && !Digit(d)
    ensures CSStat(stat, c, cs) == CSStat(stat, d, cs)
  {
  }

  lemma AsciiAfterNone(cs: CharacterSet, c: Byte)
    requires c < 0x80
    ensures CSStat(0, c, cs) == 0
  {
  }

  /** The status of the reader: that of the scan, except behind a carriage return that was left out. */
  predicate InStep(cs: CharacterSet, s: seq<Byte>, n: nat, stat: nat)
    requires n <= |s|
  {
    stat == Scan(cs, 0, s[..n]) || (n < |s| && s[n] == LF && CSStat(stat, LF, cs) == 0 && Scan(cs, 0, s[..n]) == 0)
  }

  lemma InStepNext(cs: CharacterSet, s: seq<Byte>, n: nat, stat: nat)
    requires n < |s| && InStep(cs, s, n, stat)
    ensures CSStat(stat, s[n], cs) == Scan(cs, 0, s[..n + 1])
  {
    hide CSStat, Scan;
    ScanNext(cs, 0, s, n);
    AsciiAfterNone(cs, LF);
  }

  lemma DroppedReturn(cs: CharacterSet, s: seq<Byte>, n: nat, stat: nat)
    requires n + 1 < |s| && s[n] == CR && s[n + 1] == LF && InStep(cs, s, n, stat) && Scan(cs, 0, s[..n + 1]) == 0
    ensures InStep(cs, s, n + 1, stat)
  {
    hide CSStat, Scan;
    InStepNext(cs, s, n, stat);
    AsciiAlike(cs, stat, CR, LF);
  }

  lemma ReadTwo(cs: CharacterSet, stat: nat, c: Byte, more: seq<Byte>, escape: Byte)
    requires (c == QUOTE || (c == escape && escape != 0)) && c < 0x80 && CSStat(stat, c, cs) == 0
    ensures ClosedAt(cs, stat, [c, c] + more, escape) == Further(2, ClosedAt(cs, 0, more, escape))
  {
    hide CSStat;
    AsciiAfterNone(cs, c);
    assert ([c, c] + more)[2..] == more;
  }

  lemma ReadOne(cs: CharacterSet, stat: nat, c: Byte, more: seq<Byte>, escape: Byte)
    requires CSStat(stat, c, cs) != 0 || (c != QUOTE && c != escape)
    ensures ClosedAt(cs, stat, [c] + more, escape) == Further(1, ClosedAt(cs, CSStat(stat, c, cs), more, escape))
  {
    hide CSStat;
    assert ([c] + more)[1..] == more;
  }

  lemma ReadClosing(cs: CharacterSet, stat: nat, rest: seq<Byte>, escape: Byte)
    requires rest == [] || rest[0] != QUOTE
    ensures ClosedAt(cs, stat, [QUOTE] + rest, escape) == 0 <==> CSStat(stat, QUOTE, cs) == 0
  {
    hide CSStat;
  }

  lemma {:induction false} ClosedFrom(cs: CharacterSet, s: seq<Byte>, n: nat, stat: nat, convlf: bool, escape: Byte,
                                      rest: seq<Byte>)
    requires n <= |s| && 0 !in s && escape < 0x80 && (rest == [] || rest[0] != QUOTE) && InStep(cs, s, n, stat)
    ensures var out := ConvertedFrom(cs, s, n, convlf, escape);
      ClosedAt(cs, stat, out + ([QUOTE] + rest), escape) == |out| <==> CSStat(Scan(cs, 0, s), QUOTE, cs) == 0
    decreases |s| - n
  {
    hide CSStat, Scan, ClosedAt, InStep;
    var out := ConvertedFrom(cs, s, n, convlf, escape);
    if n == |s| {
      AtEnd(cs, s, stat);
      ReadClosing(cs, stat, rest, escape);
      assert out + ([QUOTE] + rest) == [QUOTE] + rest;
    } else {
      var c, now := s[n], Scan(cs, 0, s[..n + 1]);
      var more := ConvertedFrom(cs, s, n + 1, convlf, escape);
      var tail := more + ([QUOTE] + rest);
      assert c in s;
      InStepNext(cs, s, n, stat);
      InStepScan(cs, s, n + 1);
      if now == 0 && convlf && c == CR && Ahead(s, n) == LF {
        DroppedReturn(cs, s, n, stat);
        ClosedFrom(cs, s, n + 1, stat, convlf, escape, rest);
        assert out == more;
      } else if now == 0 && (c == QUOTE || c == escape) {
        ReadTwo(cs, stat, c, tail, escape);
        ClosedFrom(cs, s, n + 1, now, convlf, escape, rest);
        assert out == [c, c] + more && out + ([QUOTE] + rest) == [c, c] + tail;
      } else {
        ReadOne(cs, stat, c, tail, escape);
        ClosedFrom(cs, s, n + 1, now, convlf, escape, rest);
        assert out == [c] + more && out + ([QUOTE] + rest) == [c] + tail;
      }
    }
  }

  lemma AtEnd(cs: CharacterSet, s: seq<Byte>, stat: nat)
    requires InStep(cs, s, |s|, stat)
    ensures stat == Scan(cs, 0, s)
  {
    assert s[..|s|] == s;
  }

  lemma InStepScan(cs: CharacterSet, s: seq<Byte>, n: nat)
    requires n <= |s|
    ensures InStep(cs, s, n, Scan(cs, 0, s[..n]))
  {
  }

  /** Any bytes at all: the literal ends at the quote put behind the converted bytes if and only if the scan of the
      bytes ends where a quote is a character of its own. */
  lemma LiteralEnds(cs: CharacterSet, s: seq<Byte>, convlf: bool, escape: Byte, rest: seq<Byte>)
    requires 0 !in s && escape < 0x80 && (rest == [] || rest[0] != QUOTE)
    ensures var out := Converted(cs, s, |s|, convlf, true, escape);
      ClosedAt(cs, 0, out + [QUOTE] + rest, escape) == |out| <==> CSStat(Scan(cs, 0, s), QUOTE, cs) == 0
  {
    hide CSStat, Scan, ClosedAt, InStep;
    var out := Converted(cs, s, |s|, convlf, true, escape);
    ConvertedStart(cs, s, convlf, true, escape);
    ConvertedSplit(cs, s, 0, convlf, escape);
    InStepScan(cs, s, 0);
    ClosedFrom(cs, s, 0, 0, convlf, escape, rest);
    assert out == ConvertedFrom(cs, s, 0, convlf, escape);
    assert out + [QUOTE] + rest == out + ([QUOTE] + rest);
  }

  /** It always is below status 2, and in the middle of a character it is in UTF-8, where the scan starts afresh. */
  lemma QuoteAlone(cs: CharacterSet, stat: nat)
    ensures stat < 2 ==> CSStat(stat, QUOTE, cs) == 0
    ensures stat == 2 ==> (CSStat(stat, QUOTE, cs) == 0 <==> cs in {UTF8, SingleByte})
    ensures stat > 2 ==> (CSStat(stat, QUOTE, cs) == 0 <==> !(cs.GB18030? && stat == 3))
  {
  }

  // ---------------------------------------------------------------- ASCII text written out

  /** ASCII text with its quotes and escapes doubled, and without carriage returns in front of line feeds if asked. */
  function Literally(s: seq<Byte>, n: nat, convlf: bool, escape: Byte): seq<Byte>
    requires n <= |s|
    decreases |s| - n
  {
    if n == |s| then []
    else
      (if convlf && n + 1 < |s| && s[n] as char == '\r' && s[n + 1] as char == '\n' then []
       else if s[n] as char == '\'' || s[n] == escape then [s[n], s[n]]
       else [s[n]])
      + Literally(s, n + 1, convlf, escape)
  }

  lemma {:induction false} AsciiScan(cs: CharacterSet, s: seq<Byte>)
    requires forall k :: 0 <= k < |s| ==> s[k] < 0x80
    ensures Scan(cs, 0, s) == 0
  {
    if s != [] {
      AsciiScan(cs, s[..|s| - 1]);
      AsciiAfterNone(cs, s[|s| - 1]);
    }
  }

  lemma {:induction false} LiterallyFrom(cs: CharacterSet, s: seq<Byte>, n: nat, convlf: bool, escape: Byte)
    requires n <= |s| && forall k :: 0 <= k < |s| ==> 0 < s[k] < 0x80
    ensures ConvertedFrom(cs, s, n, convlf, escape) == Literally(s, n, convlf, escape)
    decreases |s| - n
  {
    if n < |s| {
      LiterallyFrom(cs, s, n + 1, convlf, escape);
      AsciiScan(cs, s[..n + 1]);
      hide Scan;
    }
  }

  /** Whatever the character set, that is what becomes of ASCII text. */
  lemma AsciiForm(cs: CharacterSet, s: seq<Byte>, convlf: bool, escape: Byte)
    requires forall k :: 0 <= k < |s| ==> 0 < s[k] < 0x80
    ensures Converted(cs, s, |s|, convlf, true, escape) == Literally(s, 0, convlf, escape)
  {
    hide Converted, ConvertedFrom, Literally, Scan;
    ConvertedStart(cs, s, convlf, true, escape);
    ConvertedSplit(cs, s, 0, convlf, escape);
    LiterallyFrom(cs, s, 0, convlf, escape);
    assert [] + ConvertedFrom(cs, s, 0, convlf, escape) == ConvertedFrom(cs, s, 0, convlf, escape);
  }

  /** To either reader a quote behind a lone escape does not end the literal; without an escape it does. */
  lemma EscapeHides(cs: CharacterSet, escape: Byte, more: seq<Byte>, chars: seq<seq<Byte>>)
    requires 0 < escape < 0x80 && escape != 0x27
    ensures ClosedAt(cs, 0, [escape, 0x27] + more, escape) == Further(2, ClosedAt(cs, 0, more, escape))
    ensures ClosedAt(cs, 0, [escape, 0x27, 0x30] + more, 0) == 1
    ensures ReadLiteral([[escape], [0x27]] + chars, escape) == Behind([0x27], ReadLiteral(chars, escape))
    ensures ReadLiteral([[escape], [0x27], [0x30]] + chars, 0) == Literal([[escape]], [[0x30]] + chars)
  {
    var s, z := [escape, 0x27] + more, [escape, 0x27, 0x30] + more;
    assert s[2..] == more && z[1..] == [0x27, 0x30] + more;
    assert CSStat(0, escape, cs) == 0 && CSStat(0, 0x27, cs) == 0;
    var t, u := [[escape], [0x27]] + chars, [[escape], [0x27], [0x30]] + chars;
    assert t[2..] == chars && u[1..] == [[0x27], [0x30]] + chars && u[1..][1..] == [[0x30]] + chars;
    assert ReadLiteral(u[1..], 0) == Literal([], [[0x30]] + chars);
  }
}
