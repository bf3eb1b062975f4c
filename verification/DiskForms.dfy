/** Element files and checksum lists, written out character by character. */
module DiskForms {
  import opened Text
  import opened Wrappers
  import opened Checksums
  import opened DiskSchema
  import TableText

  /** The sums of a list are separated by single blanks. */
  lemma {:induction false} SumStringForm(sums: seq<nat>, x: nat)
    ensures SumString([]) == "" && SumString([x]) == SumText(x)
    ensures sums != [] ==> SumString(sums + [x]) == SumString(sums) + " " + SumText(x)
  {
    hide SumText;
    OneJoined(x);
    if sums != [] {
      assert Texts(sums + [x]) == Texts(sums) + [SumText(x)];
      JoinMore(Texts(sums), SumText(x));
    }
  }

  lemma OneJoined(x: nat)
    ensures SumString([x]) == SumText(x)
  {
    hide SumText;
    assert Texts([x]) == [SumText(x)];
  }

  lemma {:induction false} JoinMore(parts: seq<string>, last: string)
    requires parts != []
    ensures Join(parts + [last], ' ') == Join(parts, ' ') + " " + last
  {
    if |parts| > 1 {
      assert (parts + [last])[1..] == parts[1..] + [last];
      JoinMore(parts[1..], last);
    } else {
      assert (parts + [last])[1..] == [last];
    }
  }

  /** The header of a file, and the text behind it. */
  lemma FileForm(digest: string -> string, elem: SchemaElement, sums: seq<nat>)
    ensures ToStringWithHeader(digest, elem, sums) ==
      "!!SCHEMAMATIC " + (digest(TextOf(elem)) + (" " + (SumString(sums) + (" \r\n" + TextOf(elem)))))
  {
    var d, s, t := digest(TextOf(elem)), SumString(sums), TextOf(elem);
    hide SumString, TextOf;
    assert "!!SCHEMAMATIC" + " " == "!!SCHEMAMATIC ";
    assert " \r" + "\n" == " \r\n";
  }

  /** The parts of a header line: up to the first blank, up to the second, and all the rest. */
  lemma FieldsForm(a: string, b: string, c: string)
    requires ' ' !in a && ' ' !in b
    ensures Fields(a) == (a, "", "") && Fields(a + " " + b) == (a, b, "")
    ensures Fields(a + " " + (b + " " + c)) == (a, b, c)
  {
    CutUnique(a, b, ' ');
    CutUnique(a, b + " " + c, ' ');
    CutUnique(b, c, ' ');
    hide Cut;
    assert a + [' '] + b == a + " " + b && b + [' '] + c == b + " " + c;
    assert a + [' '] + (b + " " + c) == a + " " + (b + " " + c);
  }

  /** Carriage returns are left out, and nothing else. */
  lemma {:induction false} WithoutForm(a: string, b: string)
    requires '\r' !in a
    ensures Without(a + "\r" + b, '\r') == a + Without(b, '\r') && Without(a, '\r') == a
  {
    var s := a + "\r" + b;
    if a == "" {
      assert s[1..] == b;
    } else {
      assert s[1..] == a[1..] + "\r" + b && a == [a[0]] + a[1..];
      WithoutForm(a[1..], b);
    }
  }

  /** Only tables are read as elements, and only if their text can be. */
  lemma CreateForm(kind: string, name: string, text: string)
    ensures kind != "Table" ==> Create(kind, name, text) == Success(Verbatim(kind, name, text))
    ensures var parsed := TableText.Parse(text, DiskSchema.IsSpace);
      kind == "Table" ==>
        Create(kind, name, text) ==
          if parsed.Success? then Success(TableElement(name, parsed.value))
          else if parsed.error.DuplicateEntry? then Failure(parsed.error)
          else Success(Verbatim("Table", name, text))
    ensures DiskSchema.Key(kind, name) == kind + "/" + name
  {
    hide TableText.Parse;
  }

  /** The case of letters does not count for a digest. */
  lemma LowerForm(k: nat)
    requires k < 26
    ensures LowerChar("ABCDEFGHIJKLMNOPQRSTUVWXYZ"[k]) == LowerChar("abcdefghijklmnopqrstuvwxyz"[k])
    ensures LowerChar("abcdefghijklmnopqrstuvwxyz"[k]) == "abcdefghijklmnopqrstuvwxyz"[k]
  {
  }

  lemma OtherLower(c: char)
    requires c !in "ABCDEFGHIJKLMNOPQRSTUVWXYZ"
    ensures LowerChar(c) == c
  {
  }

  /** What counts as white space here. */
  lemma SpaceForm(c: char)
    ensures DiskSchema.IsSpace(c) <==> c as int in {9, 10, 11, 12, 13, 32}
  {
  }
}
