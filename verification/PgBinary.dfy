/** Bytes in octal-escaped text: convert_to_pgbinary, convert_from_pgbinary and their helpers. */
module PgBinary {
  import opened Positional

  const BACKSLASH: Byte := 92

  /** ASCII letters, digits and the blank travel as they are. */
  predicate IsPlain(c: Byte) {
    48 <= c <= 57 || 65 <= c <= 90 || 97 <= c <= 122 || c == 32
  }

  function Octal(c: Byte): (r: seq<Byte>)
    ensures |r| == 4
  {
    [BACKSLASH, 48 + c / 64, 48 + c / 8 % 8, 48 + c % 8]
  }

  /** One byte as text.  `escape` is the character that doubles the backslash inside a literal, 0 for none. */
  function Piece(c: Byte, escape: Byte): (r: seq<Byte>)
    ensures 1 <= |r| <= 5
  {
    if IsPlain(c) then [c] else if escape != 0 then [escape] + Octal(c) else Octal(c)
  }

  function ToText(s: seq<Byte>, escape: Byte): (t: seq<Byte>)
    ensures |t| <= 5 * |s|
  {
    if s == [] then [] else Piece(s[0], escape) + ToText(s[1..], escape)
  }

  /** Every backslash is doubled or starts three more characters, and there is no NUL. */
  predicate WellEscaped(t: seq<Byte>) {
    if t == [] then true
    else if t[0] == 0 then false
    else if t[0] != BACKSLASH then WellEscaped(t[1..])
    else if |t| >= 2 && t[1] == BACKSLASH then WellEscaped(t[2..])
    else |t| >= 4 && t[1] != 0 && t[2] != 0 && t[3] != 0 && WellEscaped(t[4..])
  }

  /** Three octal digits, cut to a byte. */
  function FromOctal(a: Byte, b: Byte, c: Byte): (r: Byte) {
    ((a as int - 48) * 64 + (b as int - 48) * 8 + (c as int - 48)) % 256
  }

  function FromText(t: seq<Byte>): (s: seq<Byte>)
    requires WellEscaped(t)
    ensures |s| <= |t|
  {
    if t == [] then []
    else if t[0] != BACKSLASH then [t[0]] + FromText(t[1..])
    else if t[1] == BACKSLASH then [BACKSLASH] + FromText(t[2..])
    else [FromOctal(t[1], t[2], t[3])] + FromText(t[4..])
  }

  /** What a literal says: an escape character stands for the character behind it. */
  function Undouble(t: seq<Byte>, escape: Byte): seq<Byte> {
    if t == [] then []
    else if t[0] == escape && |t| >= 2 then [t[1]] + Undouble(t[2..], escape)
    else [t[0]] + Undouble(t[1..], escape)
  }

  // ---------------------------------------------------------------- round trip

  lemma OctalValue(c: Byte)
    ensures FromOctal(Octal(c)[1], Octal(c)[2], Octal(c)[3]) == c
  {
    assert c == c / 64 * 64 + c / 8 % 8 * 8 + c % 8;
  }

  lemma {:induction false} UndoublePlain(p: seq<Byte>, rest: seq<Byte>, escape: Byte)
    requires escape !in p
    ensures Undouble(p + rest, escape) == p + Undouble(rest, escape)
  {
    if p == [] {
      assert p + rest == rest;
    } else {
      assert (p + rest)[1..] == p[1..] + rest;
      UndoublePlain(p[1..], rest, escape);
    }
  }

  lemma UndoublePiece(c: Byte, escape: Byte, rest: seq<Byte>)
    requires escape == 0 || escape == BACKSLASH
    ensures Undouble(Piece(c, escape) + rest, escape) == (if IsPlain(c) then [c] else Octal(c)) + Undouble(rest, escape)
  {
    var o := Octal(c);
    if IsPlain(c) {
      UndoublePlain([c], rest, escape);
    } else if escape == 0 {
      UndoublePlain(o, rest, escape);
    } else {
      var t := Piece(c, escape) + rest;
      assert t[2..] == o[1..] + rest;
      UndoublePlain(o[1..], rest, escape);
      assert [o[0]] + (o[1..] + Undouble(rest, escape)) == o + Undouble(rest, escape);
    }
  }

  lemma FromPiece(c: Byte, rest: seq<Byte>)
    requires WellEscaped(rest)
    ensures var t := (if IsPlain(c) then [c] else Octal(c)) + rest;
      WellEscaped(t) && FromText(t) == [c] + FromText(rest)
  {
    var t := (if IsPlain(c) then [c] else Octal(c)) + rest;
    if IsPlain(c) {
      assert t[1..] == rest;
    } else {
      assert t[4..] == rest;
      OctalValue(c);
    }
  }

  /** Whatever the bytes and whether or not the backslash was doubled, the server reads them back. */
  lemma {:induction false} BinaryRoundTrip(s: seq<Byte>, escape: Byte)
    requires escape == 0 || escape == BACKSLASH
    ensures var t := Undouble(ToText(s, escape), escape);
      WellEscaped(t) && FromText(t) == s
  {
    if s != [] {
      BinaryRoundTrip(s[1..], escape);
      var rest := ToText(s[1..], escape);
      UndoublePiece(s[0], escape, rest);
      FromPiece(s[0], Undouble(rest, escape));
    }
  }

  // ---------------------------------------------------------------- the loops

  lemma OctalDigits(val: Byte)
    ensures Octal(val) == [BACKSLASH, 48 + val / 8 / 8 % 8, 48 + val / 8 % 8, 48 + val % 8]
    ensures val / 8 / 8 % 8 < 8
  {
    assert val / 8 / 8 % 8 == val / 64;
  }

  /** conv_to_octal and conv_to_octal2: the digits are written last one first. */
  method ConvToOctal(val: Byte, out: array<Byte>, o: nat, escape: Byte) returns (len: nat)
    requires !IsPlain(val) && o + 5 < out.Length
    modifies out
    ensures len == |Piece(val, escape)| && out[o..o + len] == Piece(val, escape) && out[o + len] == 0
    ensures out[..o] == old(out[..o]) && forall k :: o + len < k < out.Length ==> out[k] == old(out[k])
  {
    hide Octal, IsPlain;
    var pos := o;
    if escape != 0 {
      out[pos] := escape;
      pos := pos + 1;
    }
    out[pos] := BACKSLASH;
    out[pos + 4] := 0;
    OctalDigits(val);
    var low, mid, high := val % 8, val / 8 % 8, val / 8 / 8 % 8;
    out[pos + 3] := 48 + low;
    out[pos + 2] := 48 + mid;
    out[pos + 1] := 48 + high;
    assert out[pos..pos + 4] == Octal(val);
    len := pos + 4 - o;
    assert out[o..o + len] == Piece(val, escape);
  }

  method ConvertToPgBinary(input: seq<Byte>, out: array<Byte>, escape: Byte) returns (o: nat)
    requires 5 * |input| + 1 <= out.Length
    modifies out
    ensures o == |ToText(input, escape)| && out[..o] == ToText(input, escape)
    ensures forall k :: o < k < out.Length ==> out[k] == old(out[k])
  {
    hide *;
    o := 0;
    ghost var done: seq<Byte> := [];
    assert input[0..] == input;
    for i := 0 to |input|
      invariant o == |done| <= 5 * i && out[..o] == done
      invariant forall k :: o < k < out.Length ==> out[k] == old(out[k])
      invariant ToText(input, escape) == done + ToText(input[i..], escape)
    {
      ghost var p := Piece(input[i], escape);
      PlainPiece(input[i], escape);
      TextStep(input, i, escape);
      if IsPlain(input[i]) {
        out[o] := input[i];
        o := o + 1;
      } else {
        var len := ConvToOctal(input[i], out, o, escape);
        o := o + len;
      }
      assert out[..o] == done + p;
      assert done + (p + ToText(input[i + 1..], escape)) == (done + p) + ToText(input[i + 1..], escape);
      done := done + p;
    }
    TextEnd(input[|input|..], escape);
  }

  lemma TextStep(input: seq<Byte>, i: nat, escape: Byte)
    requires i < |input|
    ensures ToText(input[i..], escape) == Piece(input[i], escape) + ToText(input[i + 1..], escape)
  {
    assert input[i..][1..] == input[i + 1..];
  }

  lemma TextEnd(s: seq<Byte>, escape: Byte)
    requires s == []
    ensures ToText(s, escape) == []
  {
  }

  lemma PlainPiece(c: Byte, escape: Byte)
    ensures IsPlain(c) ==> Piece(c, escape) == [c]
  {
  }

  /** One pass over the text.  Without a buffer it only measures, and both passes agree. */
  method ConvertFromPgBinary(value: seq<Byte>, rgbValue: array?<Byte>) returns (o: nat)
    requires WellEscaped(value)
    requires rgbValue != null ==> rgbValue.Length > |FromText(value)|
    modifies if rgbValue != null then {rgbValue} else {}
    ensures o == |FromText(value)|
    ensures rgbValue != null ==> rgbValue[..o] == FromText(value) && rgbValue[o] == 0
    ensures rgbValue != null ==> forall k :: o < k < rgbValue.Length ==> rgbValue[k] == old(rgbValue[k])
  {
    hide *;
    assert value[0..] == value;
    var i := 0;
    o := 0;
    ghost var all, done: seq<Byte> := FromText(value), [];
    while i < |value|
      invariant i <= |value| && WellEscaped(value[i..]) && all == done + FromText(value[i..]) && o == |done|
      invariant rgbValue != null ==> rgbValue[..o] == done
      invariant rgbValue != null ==> forall k :: o <= k < rgbValue.Length ==> rgbValue[k] == old(rgbValue[k])
    {
      var step, c := NextByte(value, i);
      if rgbValue != null {
        rgbValue[o] := c;
        assert rgbValue[..o + 1] == rgbValue[..o] + [c];
      }
      assert done + ([c] + FromText(value[i + step..])) == done + [c] + FromText(value[i + step..]);
      done := done + [c];
      i := i + step;
      o := o + 1;
    }
    NothingLeft(value[i..]);
    if rgbValue != null {
      rgbValue[o] := 0;
    }
  }

  lemma NothingLeft(t: seq<Byte>)
    requires t == []
    ensures WellEscaped(t) && FromText(t) == []
  {
  }

  /** The byte at place i of the text and the number of characters it takes. */
  method NextByte(value: seq<Byte>, i: nat) returns (step: nat, c: Byte)
    requires i < |value| && WellEscaped(value[i..])
    ensures 0 < step && i + step <= |value| && WellEscaped(value[i + step..])
    ensures FromText(value[i..]) == [c] + FromText(value[i + step..])
  {
    ghost var t := value[i..];
    assert t[1..] == value[i + 1..];
    if value[i] == BACKSLASH {
      if value[i + 1] == BACKSLASH {
        assert t[2..] == value[i + 2..];
        return 2, value[i];
      } else {
        assert t[4..] == value[i + 4..];
        return 4, FromOctal(value[i + 1], value[i + 2], value[i + 3]);
      }
    } else {
      return 1, value[i];
    }
  }
}
