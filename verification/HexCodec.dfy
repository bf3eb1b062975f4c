/** Bytes and hexadecimal text in one memory: pg_bin2hex and pg_hex2bin, whose buffers may overlap. */
module HexCodec {
  import opened Positional

  function HexDigit(n: int): (c: Byte)
    requires 0 <= n < 16
    ensures c != 0
  {
    if n < 10 then 48 + n else 55 + n
  }

  /** Two upper-case digits to a byte. */
  function Hex(s: seq<Byte>): (h: seq<Byte>)
    ensures |h| == 2 * |s| && forall k :: 0 <= k < |h| ==> h[k] != 0
    ensures forall k :: 0 <= k < |s| ==> h[2 * k] == HexDigit(s[k] / 16)
    ensures forall k :: 0 <= k < |s| ==> h[2 * k + 1] == HexDigit(s[k] % 16)
  {
    if s == [] then [] else Hex(s[..|s| - 1]) + [HexDigit(s[|s| - 1] / 16), HexDigit(s[|s| - 1] % 16)]
  }

  /** Letters of either case; anything else counts from '0'. */
  function HexValue(c: Byte): int {
    if 97 <= c <= 102 then c - 87 else if 65 <= c <= 70 then c - 55 else c - 48
  }

  /** The length of the text in front of the first NUL. */
  function TextLength(s: seq<Byte>): (n: nat)
    ensures n <= |s| && (forall k :: 0 <= k < n ==> s[k] != 0) && (n < |s| ==> s[n] == 0)
  {
    if s == [] || s[0] == 0 then 0 else 1 + TextLength(s[1..])
  }

  function PairValue(high: Byte, low: Byte): (r: Byte) {
    (HexValue(high) * 16 % 256 + HexValue(low)) % 256
  }

  /** A byte for each whole pair of digits in front of the first NUL. */
  function Unhex(s: seq<Byte>): (b: seq<Byte>) {
    seq(TextLength(s) / 2, k requires 0 <= k < TextLength(s) / 2 => PairValue(s[2 * k], s[2 * k + 1]))
  }

  /** Sequences that agree pair by pair are equal. */
  lemma PairsEqual(a: seq<Byte>, b: seq<Byte>, n: nat)
    requires |a| == |b| == 2 * n
    requires forall k :: 0 <= k < n ==> a[2 * k] == b[2 * k] && a[2 * k + 1] == b[2 * k + 1]
    ensures a == b
  {
    forall i | 0 <= i < 2 * n
      ensures a[i] == b[i]
    {
      var k := i / 2;
      assert i == 2 * k || i == 2 * k + 1;
    }
  }

  /** Decoding inverts encoding. */
  lemma UnhexHex(s: seq<Byte>)
    ensures Unhex(Hex(s)) == s
  {
    var h := Hex(s);
    hide Hex, TextLength, HexDigit, HexValue;
    assert TextLength(h) == |h|;
    assert |Unhex(h)| == |s|;
    forall k | 0 <= k < |s|
      ensures Unhex(h)[k] == s[k]
    {
      DigitValue(s[k] / 16);
      DigitValue(s[k] % 16);
    }
  }

  lemma DigitValue(n: int)
    requires 0 <= n < 16
    ensures HexValue(HexDigit(n)) == n
  {
  }

  /** The overlaps that get no answer. */
  predicate Refused(src: nat, dst: nat, length: nat) {
    dst < src && dst + length > src + 1
  }

  /** The two digits of byte i fall on byte j. */
  predicate Falls(src: nat, dst: nat, i: nat, j: nat) {
    src + j == dst + 2 * i || src + j == dst + 2 * i + 1
  }

  /** From the front, no byte is overwritten before it is read ... */
  ghost predicate FrontSafe(src: nat, dst: nat, length: nat) {
    forall i, j :: 0 <= i < j < length ==> !Falls(src, dst, i, j)
  }

  /** ... and from the back. */
  ghost predicate BackSafe(src: nat, dst: nat, length: nat) {
    forall i, j :: 0 <= j < i < length ==> !Falls(src, dst, i, j)
  }

  /** Which overlaps each direction can handle.  Those that are refused cannot be encoded from the front, and only one
      cell apart from the back; there the refusal was not needed. */
  lemma RefusedIff(src: nat, dst: nat, length: nat)
    ensures FrontSafe(src, dst, length) <==> src + length <= dst || dst + length <= src + 1
    ensures BackSafe(src, dst, length) <==> src <= dst + 1 || 2 * length <= src - dst
    ensures Refused(src, dst, length) ==>
      !FrontSafe(src, dst, length) && (BackSafe(src, dst, length) <==> src == dst + 1)
    ensures !Refused(src, dst, length) ==>
      if dst >= src && dst < src + length then BackSafe(src, dst, length) else FrontSafe(src, dst, length)
  {
    if dst < src && dst + length > src + 1 {
      assert Falls(src, dst, src - dst, src - dst + 1);
    } else if src <= dst < src + length && dst + length > src + 1 {
      var j := if dst == src then 1 else dst - src;
      assert Falls(src, dst, 0, j);
    }
    if src > dst + 1 && 2 * length > src - dst {
      var i := (src - dst) / 2;
      assert Falls(src, dst, i, 0);
    }
  }

  /** m is what encoding leaves behind: the text, its terminator, and every other cell as before. */
  ghost predicate Encoded(was: seq<Byte>, m: seq<Byte>, src: nat, dst: nat, length: nat)
    requires src + length <= |was| && dst + 2 * length < |was|
  {
    && |m| == |was|
    && m[dst..dst + 2 * length] == Hex(was[src..src + length])
    && m[dst + 2 * length] == 0
    && (forall k :: 0 <= k < |m| && !(dst <= k <= dst + 2 * length) ==> m[k] == was[k])
  }

  /** Source and destination are places in the same memory.  Whenever the result is not -1 the text is that
      of the original bytes, however the two overlap. */
  method PgBin2Hex(mem: array<Byte>, src: nat, dst: nat, length: nat) returns (r: int)
    requires src + length <= mem.Length && dst + 2 * length < mem.Length
    modifies mem
    ensures r == if Refused(src, dst, length) then -1 else length
    ensures r == -1 ==> mem[..] == old(mem[..])
    ensures r != -1 ==> Encoded(old(mem[..]), mem[..], src, dst, length)
  {
    hide Hex, HexDigit, Written;
    ghost var was := mem[..];
    var backwards := false;
    if dst < src {
      if dst + length > src + 1 {
        return -1;
      }
    } else if dst < src + length {
      backwards := true;
    }
    if backwards {
      Backward(mem, src, dst, length);
    } else {
      Forward(mem, src, dst, length);
    }
    WrittenIsHex(was, mem[..], src, dst, length);
    mem[dst + 2 * length] := 0;
    return length;
  }

  lemma WrittenIsHex(was: seq<Byte>, m: seq<Byte>, src: nat, dst: nat, length: nat)
    requires src + length <= |was| == |m| && dst + 2 * length < |was|
    requires Written(was, m, src, dst, 0, length)
    ensures m[dst..dst + 2 * length] == Hex(was[src..src + length])
  {
    var t, h := m[dst..dst + 2 * length], Hex(was[src..src + length]);
    hide Hex, HexDigit;
    forall k | 0 <= k < length
      ensures t[2 * k] == h[2 * k] && t[2 * k + 1] == h[2 * k + 1]
    {
      assert was[src..src + length][k] == was[src + k];
      assert t[2 * k] == m[dst + 2 * k] && t[2 * k + 1] == m[dst + 2 * k + 1];
    }
    PairsEqual(t, h, length);
  }

  /** Cells lo..hi of the text are written. */
  ghost predicate Written(was: seq<Byte>, m: seq<Byte>, src: nat, dst: nat, lo: nat, hi: nat)
    requires src + hi <= |was| == |m| && dst + 2 * hi <= |was|
  {
    forall k :: lo <= k < hi ==>
      m[dst + 2 * k] == HexDigit(was[src + k] / 16) && m[dst + 2 * k + 1] == HexDigit(was[src + k] % 16)
  }

  method Backward(mem: array<Byte>, src: nat, dst: nat, length: nat)
    requires src + length <= mem.Length && dst + 2 * length < mem.Length && src <= dst + 1
    modifies mem
    ensures Written(old(mem[..]), mem[..], src, dst, 0, length)
    ensures forall k :: 0 <= k < mem.Length && !(dst <= k < dst + 2 * length) ==> mem[k] == old(mem[k])
  {
    for left := length downto 0
      invariant forall k :: 0 <= k < mem.Length && !(dst + 2 * left <= k < dst + 2 * length) ==> mem[k] == old(mem[k])
      invariant Written(old(mem[..]), mem[..], src, dst, left, length)
    {
      var chr := mem[src + left];
      assert chr == old(mem[src + left]);
      mem[dst + 2 * left + 1] := HexDigit(chr % 16);
      mem[dst + 2 * left] := HexDigit(chr / 16);
    }
  }

  method Forward(mem: array<Byte>, src: nat, dst: nat, length: nat)
    requires src + length <= mem.Length && dst + 2 * length < mem.Length
    requires src + length <= dst || dst + length <= src + 1
    modifies mem
    ensures Written(old(mem[..]), mem[..], src, dst, 0, length)
    ensures forall k :: 0 <= k < mem.Length && !(dst <= k < dst + 2 * length) ==> mem[k] == old(mem[k])
  {
    for i := 0 to length
      invariant forall k :: 0 <= k < mem.Length && !(dst <= k < dst + 2 * i) ==> mem[k] == old(mem[k])
      invariant Written(old(mem[..]), mem[..], src, dst, 0, i)
    {
      var chr := mem[src + i];
      assert chr == old(mem[src + i]);
      mem[dst + 2 * i] := HexDigit(chr / 16);
      mem[dst + 2 * i + 1] := HexDigit(chr % 16);
    }
  }

  lemma UnhexAt(text: seq<Byte>, k: nat)
    requires 2 * k + 1 < TextLength(text)
    ensures k < |Unhex(text)| && Unhex(text)[k] == (HexValue(text[2 * k]) * 16 % 256 + HexValue(text[2 * k + 1])) % 256
  {
  }

  /** The destination does not begin in the text behind its first character: in front of the end that is looked for. */
  predicate Apart(text: seq<Byte>, src: nat, dst: nat) {
    dst <= src || src + CellsRead(text) <= dst
  }

  /** Decoding stops at the first NUL. */
  function CellsRead(text: seq<Byte>): nat {
    if TextLength(text) < |text| then TextLength(text) + 1 else |text|
  }

  /** That is where no digit falls on a character that is still to be read. */
  lemma ApartIff(text: seq<Byte>, src: nat, dst: nat)
    ensures Apart(text, src, dst) <==>
      forall i, j :: 0 <= i < TextLength(text) && i < j < CellsRead(text) ==> !DigitFalls(src, dst, i, j)
  {
    hide TextLength;
    if !Apart(text, src, dst) {
      var j := dst - src;
      assert 0 < j < CellsRead(text) && DigitFalls(src, dst, 0, j);
    }
  }

  /** The cell of digit i is that of character j. */
  predicate DigitFalls(src: nat, dst: nat, i: nat, j: nat) {
    src + j == dst + i / 2
  }

  /** Decoding after `pairs` whole pairs, and one more digit if `half`: what is written, and that the rest
      of the memory, in particular all text still to be read, is as it was. */
  ghost predicate Decoding(was: seq<Byte>, m: seq<Byte>, src: nat, dst: nat, length: nat, pairs: nat, half: bool)
    requires src + length <= |was|
  {
    var text := was[src..src + length];
    var i := 2 * pairs + if half then 1 else 0;
    && |m| == |was| && i <= TextLength(text) && dst + length / 2 < |m| && Apart(text, src, dst)
    && (forall k :: 0 <= k < |m| && !(dst <= k < dst + pairs + if half then 1 else 0) ==> m[k] == was[k])
    && (forall k :: 0 <= k < pairs ==> m[dst + k] == Unhex(text)[k])
    && (half ==> m[dst + pairs] == HexValue(text[i - 1]) * 16 % 256)
  }

  /** The next character still to be read is as it was, and there is room for what it becomes. */
  lemma DecodeAhead(was: seq<Byte>, m: seq<Byte>, src: nat, dst: nat, length: nat, pairs: nat, half: bool)
    requires src + length <= |was| && Decoding(was, m, src, dst, length, pairs, half)
    ensures var i := 2 * pairs + if half then 1 else 0;
      && |m| == |was|
      && i <= length && (i < length ==> dst + pairs < |m| && m[src + i] == was[src + i])
      && (i < length && m[src + i] != 0 ==> i < TextLength(was[src..src + length]))
  {
    hide TextLength, Unhex, HexValue, PairValue;
    var text := was[src..src + length];
    var i := 2 * pairs + if half then 1 else 0;
    if i < length {
      assert m[src + i] == was[src + i] == text[i];
    }
  }

  lemma DecodeHigh(was: seq<Byte>, m: seq<Byte>, src: nat, dst: nat, length: nat, pairs: nat)
    requires src + length <= |was| && Decoding(was, m, src, dst, length, pairs, false)
    requires 2 * pairs < length && m[src + 2 * pairs] != 0
    ensures dst + pairs < |m|
      && Decoding(was, m[dst + pairs := HexValue(m[src + 2 * pairs]) * 16 % 256], src, dst, length, pairs, true)
  {
    DecodeAhead(was, m, src, dst, length, pairs, false);
    hide TextLength, Unhex, HexValue, PairValue;
    assert was[src..src + length][2 * pairs] == m[src + 2 * pairs];
  }

  lemma DecodeLow(was: seq<Byte>, m: seq<Byte>, src: nat, dst: nat, length: nat, pairs: nat)
    requires src + length <= |was| && Decoding(was, m, src, dst, length, pairs, true)
    requires 2 * pairs + 1 < length && m[src + 2 * pairs + 1] != 0
    ensures dst + pairs < |m|
      && Decoding(was, m[dst + pairs := (m[dst + pairs] + HexValue(m[src + 2 * pairs + 1])) % 256], src, dst, length,
                  pairs + 1, false)
  {
    DecodeAhead(was, m, src, dst, length, pairs, true);
    var text := was[src..src + length];
    UnhexAt(text, pairs);
    hide TextLength, Unhex, HexValue, PairValue;
    assert text[2 * pairs + 1] == m[src + 2 * pairs + 1];
  }

  lemma DecodeDigit(was: seq<Byte>, m: seq<Byte>, src: nat, dst: nat, length: nat, pairs: nat, half: bool)
    requires src + length <= |was| && Decoding(was, m, src, dst, length, pairs, half)
    ensures var i := 2 * pairs + if half then 1 else 0;
      && |m| == |was|
      && i <= length && (i < length ==> dst + pairs < |m| && m[src + i] == was[src + i])
      && (i < length && m[src + i] != 0 ==>
          var val := HexValue(m[src + i]);
          if half then
            Decoding(was, m[dst + pairs := (m[dst + pairs] + val) % 256], src, dst, length, pairs + 1, false)
          else Decoding(was, m[dst + pairs := val * 16 % 256], src, dst, length, pairs, true))
  {
    hide *;
    var i := 2 * pairs + if half then 1 else 0;
    DecodeAhead(was, m, src, dst, length, pairs, half);
    if i < length && m[src + i] != 0 {
      if half {
        DecodeLow(was, m, src, dst, length, pairs);
      } else {
        DecodeHigh(was, m, src, dst, length, pairs);
      }
    }
  }

  lemma Decoded(was: seq<Byte>, m: seq<Byte>, src: nat, dst: nat, length: nat, pairs: nat, half: bool)
    requires src + length <= |was| && Decoding(was, m, src, dst, length, pairs, half)
    requires var i := 2 * pairs + if half then 1 else 0; i == length || was[src + i] == 0
    ensures var bytes := Unhex(was[src..src + length]);
      && |bytes| == pairs <= length / 2 && m[dst..dst + pairs] == bytes && dst + pairs < |m|
      && forall k :: 0 <= k < |m| && !(dst <= k <= dst + pairs) ==> m[k] == was[k]
  {
    var text := was[src..src + length];
    hide HexValue, PairValue;
    assert TextLength(text) == 2 * pairs + if half then 1 else 0;
  }

  /** The memory after decoding from the i-th character on, whatever is written over whatever. */
  function DecodeFrom(m: seq<Byte>, src: nat, dst: nat, length: nat, i: nat): seq<Byte>
    requires src + length <= |m| && dst + length / 2 < |m| && i <= length
    decreases length - i
  {
    var out := dst + i / 2;
    if i == length || m[src + i] == 0 then m[out := 0]
    else
      var val := HexValue(m[src + i]);
      DecodeFrom(m[out := if i % 2 == 0 then val * 16 % 256 else (m[out] + val) % 256], src, dst, length, i + 1)
  }

  lemma DecodeStep(m: seq<Byte>, src: nat, dst: nat, length: nat, i: nat)
    requires src + length <= |m| && dst + length / 2 < |m| && i <= length
    ensures var out := dst + i / 2;
      DecodeFrom(m, src, dst, length, i) ==
        if i == length || m[src + i] == 0 then m[out := 0]
        else
          var val := HexValue(m[src + i]);
          DecodeFrom(m[out := if i % 2 == 0 then val * 16 % 256 else (m[out] + val) % 256], src, dst, length, i + 1)
  {
    hide HexValue;
  }

  /** Decoding reads ahead of what it writes, so it also works in place: with the destination apart, each pair in front
      of the first NUL becomes a byte. */
  lemma {:induction false} DecodedApart(was: seq<Byte>, m: seq<Byte>, src: nat, dst: nat, length: nat, pairs: nat,
                                        half: bool)
    requires src + length <= |was| && dst + length / 2 < |m| == |was|
    requires Decoding(was, m, src, dst, length, pairs, half)
    ensures var i := 2 * pairs + if half then 1 else 0;
      i <= length && IsDecoded(was, DecodeFrom(m, src, dst, length, i), src, dst, length)
    decreases length - (2 * pairs + if half then 1 else 0)
  {
    hide *;
    var i := 2 * pairs + if half then 1 else 0;
    DecodeDigit(was, m, src, dst, length, pairs, half);
    DecodeStep(m, src, dst, length, i);
    assert i / 2 == pairs && (i % 2 == 0 <==> !half);
    if i == length || m[src + i] == 0 {
      Decoded(was, m, src, dst, length, pairs, half);
      DecodedEnd(was, m, src, dst, length, pairs);
    } else {
      var val := HexValue(m[src + i]);
      if half {
        DecodedApart(was, m[dst + pairs := (m[dst + pairs] + val) % 256], src, dst, length, pairs + 1, false);
      } else {
        DecodedApart(was, m[dst + pairs := val * 16 % 256], src, dst, length, pairs, true);
      }
    }
  }

  /** The bytes, a terminator, and every other cell as before. */
  ghost predicate IsDecoded(was: seq<Byte>, m: seq<Byte>, src: nat, dst: nat, length: nat)
    requires src + length <= |was|
  {
    var bytes := Unhex(was[src..src + length]);
    && |bytes| <= length / 2 && |m| == |was| && dst + |bytes| < |m|
    && m[dst..dst + |bytes|] == bytes && m[dst + |bytes|] == 0
    && forall k :: 0 <= k < |m| && !(dst <= k <= dst + |bytes|) ==> m[k] == was[k]
  }

  lemma DecodedEnd(was: seq<Byte>, m: seq<Byte>, src: nat, dst: nat, length: nat, pairs: nat)
    requires src + length <= |was| == |m| && dst + pairs < |m| && pairs <= length / 2
    requires var bytes := Unhex(was[src..src + length]); |bytes| == pairs && m[dst..dst + pairs] == bytes
    requires forall k :: 0 <= k < |m| && !(dst <= k <= dst + pairs) ==> m[k] == was[k]
    ensures IsDecoded(was, m[dst + pairs := 0], src, dst, length)
  {
    hide Unhex;
    var m' := m[dst + pairs := 0];
    assert m'[dst..dst + pairs] == m[dst..dst + pairs];
  }

  method PgHex2Bin(mem: array<Byte>, src: nat, dst: nat, length: nat) returns (r: nat)
    requires src + length <= mem.Length && dst + length / 2 < mem.Length
    modifies mem
    ensures r == length
    ensures mem[..] == DecodeFrom(old(mem[..]), src, dst, length, 0)
    ensures Apart(old(mem[src..src + length]), src, dst) ==> IsDecoded(old(mem[..]), mem[..], src, dst, length)
  {
    hide *;
    ghost var was := mem[..];
    var i, out, hByte := 0, dst, true;
    while i < length && mem[src + i] != 0
      invariant i <= length && out == dst + i / 2 && (hByte <==> i % 2 == 0)
      invariant |was| == mem.Length && DecodeFrom(mem[..], src, dst, length, i) == DecodeFrom(was, src, dst, length, 0)
      decreases length - i
    {
      ghost var m := mem[..];
      DecodeStep(m, src, dst, length, i);
      var val := HexValue(mem[src + i]);
      var cell: Byte := if hByte then val * 16 % 256 else (mem[out] as int + val) % 256;
      mem[out] := cell;
      assert mem[..] == m[out := cell];
      if !hByte {
        out := out + 1;
      }
      hByte := !hByte;
      i := i + 1;
    }
    ghost var m := mem[..];
    DecodeStep(m, src, dst, length, i);
    mem[out] := 0;
    assert mem[..] == m[out := 0];
    assert was[src..src + length] == old(mem[src..src + length]);
    if Apart(was[src..src + length], src, dst) {
      StartDecoding(was, src, dst, length);
      DecodedApart(was, was, src, dst, length, 0, false);
    }
    return length;
  }

  lemma StartDecoding(was: seq<Byte>, src: nat, dst: nat, length: nat)
    requires src + length <= |was| && dst + length / 2 < |was| && Apart(was[src..src + length], src, dst)
    ensures Decoding(was, was, src, dst, length, 0, false)
  {
  }
}
