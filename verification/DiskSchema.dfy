/** Schema elements as files: a header line with a digest and checksums, and the element's text. */
module DiskSchema {
  import opened Text
  import opened Wrappers
  import TableText
  import Checksums

  /** Most elements keep their text as it is; a table whose text can be read is kept as its elements. */
  datatype SchemaElement =
    | Verbatim(kind: string, name: string, raw: string)
    | TableElement(name: string, elems: seq<TableText.Element>)

  function KindOf(e: SchemaElement): string {
    if e.TableElement? then "Table" else e.kind
  }

  function TextOf(e: SchemaElement): string {
    if e.TableElement? then TableText.PrintAll(e.elems) else e.raw
  }

  function Key(kind: string, name: string): string {
    kind + "/" + name
  }

  function IsSpace(c: char): bool {
    Checksums.IsSpace(c)
  }

  /** VxSchemaElement.create: unreadable table text is kept verbatim, but a duplicate entry is an error of its own. */
  function Create(kind: string, name: string, text: string): Result<SchemaElement, TableText.ParseError> {
    if kind != "Table" then Success(Verbatim(kind, name, text))
    else match TableText.Parse(text, IsSpace)
      case Success(es) => Success(TableElement(name, es))
      case Failure(e) => if e.DuplicateEntry? then Failure(e) else Success(Verbatim(kind, name, text))
  }

  const MARK := "!!SCHEMAMATIC"

  /** The digest is a function on texts; its result is written in lower-case hexadecimal digits. */
  ghost predicate IsDigest(digest: string -> string) {
    forall text :: IsHex(digest(text))
  }

  predicate IsHex(s: string) {
    forall k :: 0 <= k < |s| ==> Checksums.Digit(s[k])
  }

  function Header(md5: string, sums: seq<nat>): string {
    MARK + " " + md5 + " " + Checksums.SumString(sums) + " \r"
  }

  function ToStringWithHeader(digest: string -> string, elem: SchemaElement, sums: seq<nat>): string {
    Header(digest(TextOf(elem)), sums) + "\n" + TextOf(elem)
  }

  function Without(s: string, c: char): string {
    if s == "" then "" else (if s[0] == c then "" else [s[0]]) + Without(s[1..], c)
  }

  /** Up to three parts between spaces. */
  function Fields(header: string): (string, string, string) {
    match Cut(header, ' ')
    case Failure(_) => (header, "", "")
    case Success((prefix, rest)) =>
      match Cut(rest, ' ')
      case Failure(_) => (prefix, rest, "")
      case Success((md5, dbsum)) => (prefix, md5, dbsum)
  }

  datatype FileRead =
    | Thrown(error: TableText.ParseError)
    | FileRead(valid: bool, elem: Option<SchemaElement>, sum: Option<Checksums.Checksum>)

  /** What a file holds, from its header line and body. */
  function ReadParts(digest: string -> string, kind: string, name: string, header: string, body: string): FileRead {
    match Create(kind, name, body)
    case Failure(e) => Thrown(e)
    case Success(elem) =>
      var (prefix, md5, dbsum) := Fields(Without(header, '\r'));
      if prefix != MARK then FileRead(false, Some(elem), None)
      else
        var sumlist := if Checksums.Lower(md5) == digest(body) then Checksums.ParseSums(dbsum) else [];
        FileRead(true, Some(elem), Some(Checksums.NewChecksum(Key(KindOf(elem), elem.name), sumlist)))
  }

  function ReadFile(digest: string -> string, kind: string, name: string, file: string): FileRead {
    match Cut(file, '\n')
    case Failure(_) => FileRead(false, None, None)
    case Success((header, body)) => ReadParts(digest, kind, name, header, body)
  }

  // ---------------------------------------------------------------- the reader

  method ReadSchemaFile(digest: string -> string, bytes: string, kind: string, name: string) returns (r: FileRead)
    ensures r == ReadFile(digest, kind, name, bytes)
  {
    var ii := 0;
    while ii < |bytes|
      invariant ii <= |bytes| && '\n' !in bytes[..ii]
    {
      if bytes[ii] == '\n' {
        break;
      }
      ii := ii + 1;
    }
    if ii == |bytes| {
      assert bytes[..ii] == bytes;
      NoCut(bytes, '\n');
      return FileRead(false, None, None);
    }
    assert bytes == bytes[..ii] + ['\n'] + bytes[ii + 1..];
    CutUnique(bytes[..ii], bytes[ii + 1..], '\n');
    var header := Without(bytes[..ii], '\r');
    ii := ii + 1;
    var body := bytes[ii..];
    var created := Create(kind, name, body);
    if created.Failure? {
      return Thrown(created.error);
    }
    var elem := created.value;
    var (prefix, headerMd5, dbsum) := Fields(header);
    if prefix != MARK {
      return FileRead(false, Some(elem), None);
    }
    var contentMd5 := digest(body);
    var sumlist := [];
    if Checksums.Lower(headerMd5) == contentMd5 {
      sumlist := Checksums.ParseSumString(dbsum);
    }
    return FileRead(true, Some(elem), Some(Checksums.NewChecksum(Key(KindOf(elem), elem.name), sumlist)));
  }

  lemma NoCut(s: string, c: char)
    requires c !in s
    ensures Cut(s, c).Failure?
  {
  }

  // ---------------------------------------------------------------- adding to the containers

  datatype AddError =
    | ConflictingSchemaKey(key: string)
    | ConflictingSumsKey(key: string)
    | BadTable(error: TableText.ParseError)

  class Containers {
    var schema: Option<map<string, SchemaElement>>
    var sums: Option<map<string, Checksums.Checksum>>

    constructor (schema: Option<map<string, SchemaElement>>, sums: Option<map<string, Checksums.Checksum>>)
      ensures this.schema == schema && this.sums == sums
    {
      this.schema, this.sums := schema, sums;
    }

    /** A key that is there already is refused before anything changes; no other key is touched. */
    method AddFromFile(digest: string -> string, bytes: string, kind: string, name: string) returns (r: Result<(),
          AddError>)
      modifies this
      ensures var key := Key(kind, name);
        match r
        case Failure(e) =>
          && schema == old(schema) && sums == old(sums)
          && (e.ConflictingSchemaKey? <==> old(schema).Some? && key in old(schema).value)
          && (e.ConflictingSumsKey? ==> old(sums).Some? && key in old(sums).value)
          && (e.BadTable? ==> ReadFile(digest, kind, name, bytes) == Thrown(e.error))
        case Success(_) =>
          && ReadFile(digest, kind, name, bytes).FileRead?
          && var got := ReadFile(digest, kind, name, bytes);
             && schema == (if old(schema).Some? && got.elem.Some? then Some(old(schema).value[key := got.elem.value])
                          else old(schema))
             && sums == (if old(sums).Some? && got.sum.Some? then Some(old(sums).value[key := got.sum.value])
                        else old(sums))
             && (old(schema).Some? ==> key !in old(schema).value) && (old(sums).Some? ==> key !in old(sums).value)
    {
      hide ReadFile;
      var key := Key(kind, name);
      if schema.Some? && key in schema.value {
        return Failure(ConflictingSchemaKey(key));
      }
      if sums.Some? && key in sums.value {
        return Failure(ConflictingSumsKey(key));
      }
      var got := ReadSchemaFile(digest, bytes, kind, name);
      if got.Thrown? {
        return Failure(BadTable(got.error));
      }
      if schema.Some? && got.elem.Some? {
        schema := Some(schema.value[key := got.elem.value]);
      }
      if sums.Some? && got.sum.Some? {
        sums := Some(sums.value[key := got.sum.value]);
      }
      return Success(());
    }
  }

  // ---------------------------------------------------------------- what was written is read

  /** Reading the text of a created element creates it again. */
  lemma CreateSettles(kind: string, name: string, text: string)
    requires Create(kind, name, text).Success?
    ensures var e := Create(kind, name, text).value;
      KindOf(e) == kind && e.name == name && Create(kind, name, TextOf(e)) == Success(e)
  {
    if Create(kind, name, text).value.TableElement? {
      TableText.TextNormalises(text, IsSpace);
    }
  }

  lemma {:induction false} WithoutNone(s: string, c: char)
    requires c !in s
    ensures Without(s, c) == s && Without(s + [c], c) == s
  {
    if s == "" {
      assert s + [c] == [c] && [c][1..] == "";
    } else {
      WithoutNone(s[1..], c);
      assert (s + [c])[1..] == s[1..] + [c] && s == [s[0]] + s[1..];
    }
  }

  /** The text of a list of sums is made of digits, x and spaces. */
  lemma {:induction false} JoinChars(parts: seq<string>)
    requires |parts| >= 1 && forall k, c :: 0 <= k < |parts| && c in parts[k] ==> c == 'x' || Checksums.Digit(c)
    ensures forall c :: c in Join(parts, ' ') ==> c == 'x' || c == ' ' || Checksums.Digit(c)
  {
    if |parts| > 1 {
      JoinChars(parts[1..]);
    }
  }

  lemma SumStringChars(sums: seq<nat>)
    requires Checksums.Sums(sums)
    ensures forall c :: c in Checksums.SumString(sums) ==> c == 'x' || c == ' ' || Checksums.Digit(c)
  {
    if sums != [] {
      var parts := Checksums.Texts(sums);
      forall k, c | 0 <= k < |parts| && c in parts[k] ensures c == 'x' || Checksums.Digit(c) {
        Checksums.SumTextValue(sums[k]);
      }
      JoinChars(parts);
    }
  }

  /** The header line holds no line end, and its fields are what was put in. */
  lemma HeaderFields(md5: string, sums: seq<nat>)
    requires IsHex(md5) && Checksums.Sums(sums)
    ensures '\n' !in Header(md5, sums)
    ensures Fields(Without(Header(md5, sums), '\r')) == (MARK, md5, Checksums.SumString(sums) + " ")
  {
    hide *;
    var dbsum := Checksums.SumString(sums);
    SumStringChars(sums);
    HexChars(md5, sums);
    NotIn('\n', md5, dbsum);
    NotIn('\r', md5, dbsum);
    var line := MARK + " " + md5 + " " + dbsum + " ";
    HeaderIs(md5, sums, line);
    WithoutNone(line, '\r');
    FieldsOf(MARK, md5, dbsum + " ");
    LineIs(md5, dbsum);
  }

  lemma HexChars(md5: string, sums: seq<nat>)
    requires IsHex(md5)
    requires forall c :: c in Checksums.SumString(sums) ==> c == 'x' || c == ' ' || Checksums.Digit(c)
    ensures '\n' !in md5 && '\r' !in md5 && ' ' !in md5 && ' ' !in MARK
    ensures '\n' !in Checksums.SumString(sums) && '\r' !in Checksums.SumString(sums)
  {
    hide Checksums.SumString;
  }

  lemma NotIn(c: char, md5: string, dbsum: string)
    requires (c == '\n' || c == '\r') && c !in md5 && c !in dbsum
    ensures c !in MARK + " " + md5 + " " + dbsum + " "
  {
    var a := MARK + " ";
    assert c !in a;
    assert c !in a + md5;
    assert c !in a + md5 + " ";
    assert c !in a + md5 + " " + dbsum;
  }

  lemma HeaderIs(md5: string, sums: seq<nat>, line: string)
    requires line == MARK + " " + md5 + " " + Checksums.SumString(sums) + " "
    ensures Header(md5, sums) == line + ['\r'] && ('\n' !in line ==> '\n' !in Header(md5, sums))
  {
    hide Checksums.SumString;
    assert " \r" == " " + ['\r'];
    assert Header(md5, sums) == line + ['\r'];
  }

  lemma LineIs(md5: string, dbsum: string)
    ensures MARK + " " + md5 + " " + dbsum + " " == MARK + [' '] + (md5 + [' '] + (dbsum + " "))
  {
  }

  lemma FieldsOf(prefix: string, md5: string, dbsum: string)
    requires ' ' !in prefix && ' ' !in md5
    ensures Fields(prefix + [' '] + (md5 + [' '] + dbsum)) == (prefix, md5, dbsum)
  {
    hide Cut;
    CutUnique(prefix, md5 + [' '] + dbsum, ' ');
    CutUnique(md5, dbsum, ' ');
  }

  /** A file with a header written for md5 and sums, whatever its body: the sums are there exactly if the digest
      fits. */
  lemma ReadHeader(digest: string -> string, kind: string, name: string, md5: string, sums: seq<nat>, body: string)
    requires IsHex(md5) && Checksums.Sums(sums) && Create(kind, name, body).Success?
    ensures ReadFile(digest, kind, name, Header(md5, sums) + "\n" + body) ==
      FileRead(true, Some(Create(kind, name, body).value),
               Some(Checksums.NewChecksum(Key(kind, name), if md5 == digest(body) then sums else [])))
  {
    var header := Header(md5, sums);
    HeaderFields(md5, sums);
    CutUnique(header, body, '\n');
    assert header + "\n" + body == header + ['\n'] + body;
    CreateSettles(kind, name, body);
    Checksums.SumsRoundTrip(sums);
    LowerHex(md5);
    hide Header, Cut, Create, Fields, Without, Checksums.ParseSums;
  }

  lemma LowerHex(s: string)
    requires IsHex(s)
    ensures Checksums.Lower(s) == s
  {
  }

  /** An element read from what was written for it is that element, with the same checksums. */
  lemma WrittenIsRead(digest: string -> string, kind: string, name: string, text: string, added: seq<nat>)
    requires IsDigest(digest) && Create(kind, name, text).Success?
    requires Checksums.Sums(Checksums.Gathered(Key(kind, name), added))
    ensures var elem := Create(kind, name, text).value;
      var sum := Checksums.Checksum(Key(kind, name), Checksums.Gathered(Key(kind, name), added));
      ReadFile(digest, kind, name, ToStringWithHeader(digest, elem, sum.checksums)) ==
        FileRead(true, Some(elem), Some(sum))
  {
    hide Create, Header, ReadFile, TextOf, Checksums.Gathered, Checksums.NewChecksum;
    var elem := Create(kind, name, text).value;
    CreateSettles(kind, name, text);
    var sums := Checksums.Gathered(Key(kind, name), added);
    var body := TextOf(elem);
    assert IsHex(digest(body));
    ReadHeader(digest, kind, name, digest(body), sums, body);
    Checksums.NewChecksumStable(Key(kind, name), added);
  }

  /** A body changed afterwards, so that its digest differs, reads with no checksums at all, and so is unlike any
      element that has some. */
  lemma ChangedBodyHasNoSums(digest: string -> string, kind: string, name: string, text: string, sums: seq<nat>,
        body: string)
    requires IsDigest(digest) && Checksums.Sums(sums)
    requires Create(kind, name, body).Success? && digest(body) != digest(text)
    ensures var r := ReadFile(digest, kind, name, Header(digest(text), sums) + "\n" + body);
      && r.FileRead? && r.valid && r.elem == Some(Create(kind, name, body).value)
      && r.sum == Some(Checksums.Checksum(Key(kind, name), []))
      && forall other: Checksums.Checksum :: other.checksums != [] ==> r.sum.value != other
  {
    hide Create, Header, ReadFile;
    assert IsHex(digest(text));
    ReadHeader(digest, kind, name, digest(text), sums, body);
  }

  /** Any file: checksums are only believed when the digest in the header is that of the body. */
  lemma SumsNeedDigest(digest: string -> string, kind: string, name: string, header: string, body: string)
    requires '\n' !in header
    ensures var r := ReadFile(digest, kind, name, header + "\n" + body);
      r.FileRead? && r.sum.Some? && r.sum.value.checksums != [] ==>
        Fields(Without(header, '\r')).0 == MARK && Checksums.Lower(Fields(Without(header, '\r')).1) == digest(body)
  {
    CutUnique(header, body, '\n');
    assert header + "\n" + body == header + ['\n'] + body;
    hide Cut, Create, Fields, Without, Checksums.ParseSums;
  }
}
