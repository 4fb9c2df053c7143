/** The code generator: from the `types` and `messages` maps of a protocol declaration, the C++
    structs with their `operator>>` / `operator<<`, and the JS classes with their
    `InBuffer.prototype.read*` / `OutBuffer.prototype.write*` methods. */
module Ubuf {
  import opened PyStr

  /** One `attr: type` entry of a declaration, in declared order. */
  datatype Field = Field(attr: string, typ: string)

  /** A declaration as the YAML loader hands it over: empty, a type name, or a map of fields. */
  datatype RawDecl = Null | Text(s: string) | Dict(fields: seq<Field>)

  /** One `name: decl` entry of the `types` or `messages` map, in declared order. */
  datatype Entry = Entry(name: string, decl: RawDecl)

  /** What the generator makes of a declaration: an alias of another type, or a record. */
  datatype Decl = Alias(target: string) | Struct(fields: seq<Field>)

  /** `if not decl: decl = {}` then `isinstance(decl, str)`: an empty declaration, the empty
      string included, is a record without fields. */
  function Normalize(raw: RawDecl): (d: Decl)
    ensures d.Alias? <==> raw.Text? && raw.s != ""
    ensures d.Alias? ==> d.target == raw.s
    ensures d.Struct? ==> d.fields == if raw.Dict? then raw.fields else []
  {
    match raw
    case Null => Struct([])
    case Text(s) => if s == "" then Struct([]) else Alias(s)
    case Dict(fields) => Struct(fields)
  }

  /** Nothing the generator pastes into a line holds a line break. */
  predicate Clean(name: string, fs: seq<Field>)
  {
    NoNewline(name) && forall i :: 0 <= i < |fs| ==> NoNewline(fs[i].attr) && NoNewline(fs[i].typ)
  }

  // ---------------------------------------------------------------------------------------
  // C++

  /** `c_translate_type`: `string` is `std::string`; every other name is a C++ type already. */
  function CTranslateType(t: string): (r: string)
    ensures t == "string" ==> r == "std::string"
    ensures t != "string" ==> r == t
  {
    if t == "string" then "std::string" else t
  }

  /** Translating twice is translating once. */
  lemma CTranslateIdempotent(t: string)
    ensures CTranslateType(CTranslateType(t)) == CTranslateType(t)
  {
    assert "std::string" != "string" by { assert |"std::string"| != |"string"|; }
  }

  /** The shape of every C++ template: an opening line, a body, and a closing `};` line. */
  function Braced(opening: string, body: string): string
  {
    opening + "\n" + body + "\n" + "};" + "\n"
  }

  function CStructOpening(name: string): string
  {
    "struct " + name + " {"
  }

  function CReaderOpening(name: string): string
  {
    "void operator>>(InBuffer &buf, " + name + "& out) {"
  }

  function CWriterOpening(name: string): string
  {
    "void operator<<(OutBuffer &buf, const " + name + " &el) {"
  }

  /** The line by which a message's writer emits its `id_`. */
  const CWriteIdLine := "  buf << el.id_;"

  function CFieldDecls(fs: seq<Field>): (r: seq<string>)
    ensures |r| == |fs|
  {
    seq(|fs|, i requires 0 <= i < |fs| => "  " + CTranslateType(fs[i].typ) + " " + fs[i].attr + ";")
  }

  function CIdLine(id: nat): string
  {
    "  static constexpr char id_ = " + Decimal(id) + ";"
  }

  /** `c_struct`: the record, with the `id_` constant first for a message. */
  function CStruct(name: string, fs: seq<Field>, id: nat, isMessage: bool): string
  {
    var fields := (if isMessage then CIdLine(id) + "\n" else "") + Join("\n", CFieldDecls(fs));
    Braced(CStructOpening(name), fields)
  }

  function CReadLines(fs: seq<Field>): (r: seq<string>)
    ensures |r| == |fs|
  {
    seq(|fs|, i requires 0 <= i < |fs| => "  buf >> out." + fs[i].attr + ";")
  }

  /** `c_reader`: one read per field, in declared order. */
  function CReader(name: string, fs: seq<Field>): string
  {
    Braced(CReaderOpening(name), Join("\n", CReadLines(fs)))
  }

  function CWriteLines(fs: seq<Field>): (r: seq<string>)
    ensures |r| == |fs|
  {
    seq(|fs|, i requires 0 <= i < |fs| => "  buf << el." + fs[i].attr + ";")
  }

  /** `c_writer`: for a message the `id_` byte first, then one write per field. */
  function CWriter(name: string, fs: seq<Field>, isMessage: bool): string
  {
    var fields := Join("\n", CWriteLines(fs));
    Braced(CWriterOpening(name),
      if isMessage then CWriteIdLine + "\n" + fields else fields)
  }

  /** The code for the entry with index `id`: a `using` alias, or struct, reader and writer. */
  function CEntry(id: nat, e: Entry, isMessage: bool): string
  {
    match Normalize(e.decl)
    case Alias(t) => "using " + e.name + " = " + CTranslateType(t) + ";" + "\n"
    case Struct(fs) => CStruct(e.name, fs, id, isMessage) + CReader(e.name, fs) + CWriter(e.name, fs, isMessage)
  }

  /** The code of every entry, each with its index in the map as its id. */
  function CEntries(types: seq<Entry>, isMessage: bool): (r: seq<string>)
    ensures |r| == |types|
  {
    seq(|types|, i requires 0 <= i < |types| => CEntry(i, types[i], isMessage))
  }

  /** `c_code`: the entries in map order, numbered from 0, aliases included, joined by
      newlines. */
  method CCode(types: seq<Entry>, isMessage: bool) returns (r: string)
    ensures r == Join("\n", CEntries(types, isMessage))
  {
    var ans: seq<string> := [];
    for id := 0 to |types|
      invariant ans == CEntries(types, isMessage)[..id]
    {
      var name := types[id].name;
      var code: string;
      match Normalize(types[id].decl) {
        case Alias(decl) =>
          code := "using " + name + " = " + CTranslateType(decl) + ";" + "\n";
        case Struct(decl) =>
          var struct := CStruct(name, decl, id, isMessage);
          var reader := CReader(name, decl);
          var writer := CWriter(name, decl, isMessage);
          code := struct + reader + writer;
      }
      ans := ans + [code];
    }
    assert ans == CEntries(types, isMessage);
    r := Join("\n", ans);
  }

  /** The lines of a block, and of a block followed by more text. */
  lemma BracedLines(opening: string, body: string, rest: string)
    requires NoNewline(opening)
    ensures Split(Braced(opening, body), '\n') == [opening] + Split(body, '\n') + ["};", ""]
    ensures Split(Braced(opening, body) + rest, '\n') == [opening] + Split(body, '\n') + ["};"] + Split(rest, '\n')
  {
    var upToBody := opening + "\n" + body;
    var upToClose := upToBody + "\n" + "};";
    SplitLine(upToBody, "};");
    SplitLine(opening, body);
    OneLine(opening);
    OneLine("};");
    LastLine(upToClose);
    SplitLine(upToClose, rest);
  }

  /** Regrouping the lines of a block. */
  lemma LinesAssoc(a: seq<string>, b: seq<string>, c: seq<string>, close: string)
    ensures a + (b + c) + [close, ""] == a + b + c + [close] + [""]
  {
  }

  /** A block whose body has the lines `head + rest`. */
  lemma BracedBlock(opening: string, body: string, head: seq<string>, rest: seq<string>)
    requires NoNewline(opening)
    requires Split(body, '\n') == head + rest
    ensures Split(Braced(opening, body), '\n') == [opening] + head + rest + ["};"] + [""]
  {
    BracedLines(opening, body, "");
    LinesAssoc([opening], head, rest, "};");
  }

  lemma SeqAssoc<T>(a: seq<T>, b: seq<T>, c: seq<T>, d: seq<T>, e: seq<T>)
    ensures a + (b + c) + d + e == a + b + c + d + e
  {
  }

  lemma SeqAssocRight<T>(a: seq<T>, b: seq<T>, c: seq<T>, d: seq<T>)
    ensures a + (b + (c + d)) == a + b + c + d
    ensures a + b + c == a + (b + c)
  {
  }

  /** A name without line breaks pasted into a one-line template stays one line. */
  lemma PasteClean(a: string, name: string, b: string)
    requires NoNewline(a) && NoNewline(name) && NoNewline(b)
    ensures NoNewline(a + name + b)
  {
  }

  /** The opening lines of the templates are single lines. */
  lemma OpeningsClean(name: string)
    requires NoNewline(name)
    ensures NoNewline(CStructOpening(name)) && NoNewline(CReaderOpening(name)) && NoNewline(CWriterOpening(name))
    ensures NoNewline(JsReaderOpening(name)) && NoNewline(JsWriterOpening(name)) && NoNewline(JsWriteIdCall(name))
  {
    CStructOpeningClean(name);
    CReaderOpeningClean(name);
    CWriterOpeningClean(name);
    JsReaderOpeningClean(name);
    JsWriterOpeningClean(name);
    JsWriteIdCallClean(name);
  }

  lemma CStructOpeningClean(name: string)
    requires NoNewline(name)
    ensures NoNewline(CStructOpening(name))
  {
    PasteClean("struct ", name, " {");
  }

  lemma CReaderOpeningClean(name: string)
    requires NoNewline(name)
    ensures NoNewline(CReaderOpening(name))
  {
    PasteClean("void operator>>(InBuffer &buf, ", name, "& out) {");
  }

  lemma CWriterOpeningClean(name: string)
    requires NoNewline(name)
    ensures NoNewline(CWriterOpening(name))
  {
    PasteClean("void operator<<(OutBuffer &buf, const ", name, " &el) {");
  }

  lemma JsReaderOpeningClean(name: string)
    requires NoNewline(name)
    ensures NoNewline(JsReaderOpening(name))
  {
    PasteClean("InBuffer.prototype.read", name, " = function () {");
  }

  lemma JsWriterOpeningClean(name: string)
    requires NoNewline(name)
    ensures NoNewline(JsWriterOpening(name))
  {
    PasteClean("OutBuffer.prototype.write", name, " = function (el) {");
  }

  lemma JsWriteIdCallClean(name: string)
    requires NoNewline(name)
    ensures NoNewline(JsWriteIdCall(name))
  {
    PasteClean("this.writeChar(", name, ".id);");
  }

  lemma DecimalClean(id: nat)
    ensures NoNewline(Decimal(id))
  {
    var d := Decimal(id);
    assert forall i :: 0 <= i < |d| ==> IsDigit(d[i]);
  }

  /** The lines that carry an id are single lines. */
  lemma IdLineClean(id: nat)
    ensures NoNewline(CIdLine(id)) && NoNewline(JsIdMember(id))
  {
    DecimalClean(id);
    PasteClean("  static constexpr char id_ = ", Decimal(id), ";");
    PasteClean("  id_ = ", Decimal(id), ";");
  }

  /** The JS class template's lines after the constructor are single lines. */
  lemma ClassTailClean(name: string)
    requires NoNewline(name)
    ensures NoNewlines(JsClassTail(name))
    ensures NoNewline("  return new " + name + "(")
  {
    var t := JsClassTail(name);
    assert NoNewline(t[3]) by {
      PasteClean("    buf.write", name, "(this);");
    }
    assert NoNewline(t[7]) by {
      PasteClean("    return buffer.read", name, "();");
    }
    FixedTailClean();
    FixedTailClean2();
    PasteClean("  return new ", name, "(");
  }

  /** The lines of the class template that do not mention the class name. */
  lemma FixedTailClean()
    ensures NoNewline("  }") && NoNewline("  serialize() {") && NoNewline("    const buf = new OutBuffer();")
  {
  }

  lemma FixedTailClean2()
    ensures NoNewline("    return buf.serialize();") && NoNewline("  deserialize(buffer) {")
  {
  }

  lemma FieldDeclsClean(fs: seq<Field>)
    requires forall i :: 0 <= i < |fs| ==> NoNewline(fs[i].attr) && NoNewline(fs[i].typ)
    ensures NoNewlines(CFieldDecls(fs))
  {
    forall i | 0 <= i < |fs|
      ensures NoNewline(CFieldDecls(fs)[i])
    {
      assert NoNewline(CTranslateType(fs[i].typ));
    }
  }

  lemma CFieldLines(fs: seq<Field>, id: nat, isMessage: bool)
    requires forall i :: 0 <= i < |fs| ==> NoNewline(fs[i].attr) && NoNewline(fs[i].typ)
    ensures Split((if isMessage then CIdLine(id) + "\n" else "") + Join("\n", CFieldDecls(fs)), '\n') ==
      (if isMessage then [CIdLine(id)] else []) + Lines(CFieldDecls(fs))
  {
    var body := Join("\n", CFieldDecls(fs));
    FieldDeclsClean(fs);
    JoinLines(CFieldDecls(fs));
    if isMessage {
      SplitLine(CIdLine(id), body);
      IdLineClean(id);
      OneLine(CIdLine(id));
    } else {
      assert "" + body == body;
    }
  }

  /** The lines of a C++ struct: the header, the `id_` line exactly for a message, one member per
      field in declared order (a blank line when there are none), and the closing line. */
  function StructLines(name: string, fs: seq<Field>, id: nat, isMessage: bool): seq<string>
  {
    [CStructOpening(name)] + (if isMessage then [CIdLine(id)] else []) + Lines(CFieldDecls(fs)) + ["};"]
  }

  /** The lines of a C++ reader: one `buf >> out.<attr>;` per field in declared order, and no
      read of the id. */
  function ReaderLines(name: string, fs: seq<Field>): seq<string>
  {
    [CReaderOpening(name)] + Lines(CReadLines(fs)) + ["};"]
  }

  /** The lines of a C++ writer: `buf << el.id_;` first exactly for a message, then one write per
      field in declared order. */
  function WriterLines(name: string, fs: seq<Field>, isMessage: bool): seq<string>
  {
    [CWriterOpening(name)]
      + (if isMessage then [CWriteIdLine] else []) + Lines(CWriteLines(fs)) + ["};"]
  }

  lemma CStructLines(name: string, fs: seq<Field>, id: nat, isMessage: bool, rest: string)
    requires Clean(name, fs)
    ensures Split(CStruct(name, fs, id, isMessage) + rest, '\n') == StructLines(name, fs, id, isMessage) + Split(rest, '\n')
  {
    var opening := CStructOpening(name);
    var body := (if isMessage then CIdLine(id) + "\n" else "") + Join("\n", CFieldDecls(fs));
    var bodyLines := (if isMessage then [CIdLine(id)] else []) + Lines(CFieldDecls(fs));
    assert Split(body, '\n') == bodyLines by {
      CFieldLines(fs, id, isMessage);
    }
    OpeningsClean(name);
    BracedLines(opening, body, rest);
    SeqAssoc([opening], if isMessage then [CIdLine(id)] else [], Lines(CFieldDecls(fs)), ["};"], Split(rest, '\n'));
  }

  lemma CReaderLines(name: string, fs: seq<Field>, rest: string)
    requires Clean(name, fs)
    ensures Split(CReader(name, fs) + rest, '\n') == ReaderLines(name, fs) + Split(rest, '\n')
  {
    JoinLines(CReadLines(fs));
    OpeningsClean(name);
    BracedLines(CReaderOpening(name), Join("\n", CReadLines(fs)), rest);
  }

  lemma CWriterLines(name: string, fs: seq<Field>, isMessage: bool)
    requires Clean(name, fs)
    ensures Split(CWriter(name, fs, isMessage), '\n') == WriterLines(name, fs, isMessage) + [""]
  {
    OpeningsClean(name);
    assert Split(Join("\n", CWriteLines(fs)), '\n') == Lines(CWriteLines(fs)) by {
      JoinLines(CWriteLines(fs));
    }
    WriterLinesFrom(name, fs, isMessage);
  }

  lemma WriterLinesFrom(name: string, fs: seq<Field>, isMessage: bool)
    requires NoNewline(CWriterOpening(name))
    requires Split(Join("\n", CWriteLines(fs)), '\n') == Lines(CWriteLines(fs))
    ensures Split(CWriter(name, fs, isMessage), '\n') == WriterLines(name, fs, isMessage) + [""]
  {
    var fields := Join("\n", CWriteLines(fs));
    if isMessage {
      SplitLine(CWriteIdLine, fields);
      OneLine(CWriteIdLine);
      BracedBlock(CWriterOpening(name), CWriteIdLine + "\n" + fields, [CWriteIdLine], Lines(CWriteLines(fs)));
    } else {
      BracedBlock(CWriterOpening(name), fields, [], Lines(CWriteLines(fs)));
    }
  }

  /** A record's code is its struct, then its reader, then its writer. */
  lemma CRecordLines(id: nat, name: string, fs: seq<Field>, isMessage: bool)
    requires Clean(name, fs)
    ensures Split(CStruct(name, fs, id, isMessage) + CReader(name, fs) + CWriter(name, fs, isMessage), '\n') ==
      StructLines(name, fs, id, isMessage) + ReaderLines(name, fs) + WriterLines(name, fs, isMessage) + [""]
  {
    var struct, reader, writer := CStruct(name, fs, id, isMessage), CReader(name, fs), CWriter(name, fs, isMessage);
    CWriterLines(name, fs, isMessage);
    CReaderLines(name, fs, writer);
    CStructLines(name, fs, id, isMessage, reader + writer);
    SeqAssocRight(struct, reader, writer, "");
    SeqAssocRight(StructLines(name, fs, id, isMessage), ReaderLines(name, fs), WriterLines(name, fs, isMessage), [""]);
  }

  /** The lines of an entry: an alias is one `using` line with no reader or writer; a record is
      its struct, numbered by the entry's index, then its reader, then its writer. */
  lemma CEntryLines(id: nat, e: Entry, isMessage: bool)
    requires Normalize(e.decl).Struct? ==> Clean(e.name, Normalize(e.decl).fields)
    requires Normalize(e.decl).Alias? ==> NoNewline(e.name) && NoNewline(e.decl.s)
    ensures Normalize(e.decl).Alias? ==>
      Split(CEntry(id, e, isMessage), '\n') == ["using " + e.name + " = " + CTranslateType(e.decl.s) + ";", ""]
    ensures Normalize(e.decl).Struct? ==>
      var fs := Normalize(e.decl).fields;
      Split(CEntry(id, e, isMessage), '\n') ==
        StructLines(e.name, fs, id, isMessage) + ReaderLines(e.name, fs) + WriterLines(e.name, fs, isMessage) + [""]
  {
    match Normalize(e.decl)
    case Alias(t) =>
      var line := "using " + e.name + " = " + CTranslateType(t) + ";";
      LastLine(line);
      OneLine(line);
    case Struct(fs) =>
      CRecordLines(id, e.name, fs, isMessage);
  }

  /** Entries at different indices carry different `id_` lines. */
  lemma CIdsDistinct(i: nat, j: nat)
    requires i != j
    ensures CIdLine(i) != CIdLine(j)
  {
    DecimalInjective(i, j);
    var p := "  static constexpr char id_ = ";
    assert Decimal(i) == CIdLine(i)[|p|..|CIdLine(i)| - 1];
    assert Decimal(j) == CIdLine(j)[|p|..|CIdLine(j)| - 1];
  }

  // ---------------------------------------------------------------------------------------
  // JS

  /** `snake_case_to_CamelCase`: split on `_`, capitalize each piece, and concatenate. */
  function Camel(t: string): string
  {
    Concat(Caps(Split(t, '_')))
  }

  function Caps(ps: seq<string>): (r: seq<string>)
    ensures |r| == |ps|
  {
    seq(|ps|, i requires 0 <= i < |ps| => Capitalize(ps[i]))
  }

  /** `js_translate_type`: a registered alias's JS name, or the CamelCase form of the name. */
  function JsTranslateType(env: map<string, string>, t: string): string
  {
    if t in env then env[t] else Camel(t)
  }

  function JsIdMember(id: nat): string
  {
    "  id_ = " + Decimal(id) + ";"
  }

  function JsStaticId(name: string, id: nat): string
  {
    name + ".id = " + Decimal(id) + ";"
  }

  function Attrs(fs: seq<Field>): (r: seq<string>)
    ensures |r| == |fs|
  {
    seq(|fs|, i requires 0 <= i < |fs| => fs[i].attr)
  }

  function Assigns(fs: seq<Field>): (r: seq<string>)
    ensures |r| == |fs|
  {
    seq(|fs|, i requires 0 <= i < |fs| => "this." + fs[i].attr + " = " + fs[i].attr + ";")
  }

  /** The class template's lines before the constructor's body. */
  function JsClassHead(name: string, fs: seq<Field>): seq<string>
  {
    ["", "export class " + name + " {", "  constructor(" + Join(", ", Attrs(fs)) + ") {"]
  }

  /** The class template's lines from the end of the constructor to the closing brace of
      `deserialize`. */
  function JsClassTail(name: string): seq<string>
  {
    ["  }", "  serialize() {", "    const buf = new OutBuffer();", "    buf.write" + name + "(this);",
     "    return buf.serialize();", "  }", "  deserialize(buffer) {", "    return buffer.read" + name + "();",
     "  }"]
  }

  /** The constructor's body: the assignments joined by a newline and four spaces. */
  function JsConstructorBody(fs: seq<Field>): string
  {
    "    " + Join("\n    ", Assigns(fs))
  }

  /** `js_struct`: the class, with the instance `id_` and the static `id` for a message. */
  function JsStruct(name: string, fs: seq<Field>, id: nat, isMessage: bool): string
  {
    var cls := Join("\n", JsClassHead(name, fs) + [JsConstructorBody(fs)] + JsClassTail(name));
    if isMessage then cls + "\n" + JsIdMember(id) + "\n" + "}" + "\n" + JsStaticId(name, id) + "\n"
    else cls + "\n" + "}" + "\n"
  }

  function ReadCalls(env: map<string, string>, fs: seq<Field>): (r: seq<string>)
    ensures |r| == |fs|
  {
    seq(|fs|, i requires 0 <= i < |fs| => "this.read" + JsTranslateType(env, fs[i].typ) + "(),")
  }

  function JsReaderOpening(name: string): string
  {
    "InBuffer.prototype.read" + name + " = function () {"
  }

  /** `js_reader`: the constructor called on one read per field, in declared order. */
  function JsReader(env: map<string, string>, name: string, fs: seq<Field>): string
  {
    Braced(JsReaderOpening(name), "  return new " + name + "(" + Join("\n    ", ReadCalls(env, fs)) + ");")
  }

  function WriteCalls(env: map<string, string>, fs: seq<Field>): (r: seq<string>)
    ensures |r| == |fs|
  {
    seq(|fs|, i requires 0 <= i < |fs| => "this.write" + JsTranslateType(env, fs[i].typ) + "(el." + fs[i].attr + ");")
  }

  function JsWriterOpening(name: string): string
  {
    "OutBuffer.prototype.write" + name + " = function (el) {"
  }

  function JsWriteIdCall(name: string): string
  {
    "this.writeChar(" + name + ".id);"
  }

  /** `js_writer`: for a message the `writeChar` of the static id first, then one write per
      field. */
  function JsWriter(env: map<string, string>, name: string, fs: seq<Field>, isMessage: bool): string
  {
    var fields := Join("\n  ", WriteCalls(env, fs));
    var fields' := if isMessage then JsWriteIdCall(name) + "\n  " + fields else fields;
    Braced(JsWriterOpening(name), "  " + fields')
  }

  /** What `js_code` has done after some entries: the alias table, and the code so far. */
  datatype JsOut = JsOut(env: map<string, string>, codes: seq<string>)

  /** `js_code` over `types`, from alias table `env`: an alias is registered and emits nothing; a
      record emits class, reader and writer, translated with the aliases registered before it,
      and numbered by its index among all entries. */
  function JsRun(env: map<string, string>, types: seq<Entry>, isMessage: bool): JsOut
    decreases |types|
  {
    if |types| == 0 then JsOut(env, [])
    else
      var prev := JsRun(env, types[..|types| - 1], isMessage);
      var id := |types| - 1;
      var e := types[id];
      match Normalize(e.decl)
      case Alias(t) => JsOut(prev.env[e.name := Camel(t)], prev.codes)
      case Struct(fs) =>
        JsOut(prev.env, prev.codes + [JsRecord(prev.env, id, e.name, fs, isMessage)])
  }

  /** The code of one record: its class, its reader and its writer. */
  function JsRecord(env: map<string, string>, id: nat, name: string, fs: seq<Field>, isMessage: bool): string
  {
    JsStruct(name, fs, id, isMessage) + JsReader(env, name, fs) + JsWriter(env, name, fs, isMessage)
  }

  /** The generator's one piece of state, the module-level `JS_TYPES` table. */
  class JsGenerator {
    var jsTypes: map<string, string>

    constructor ()
      ensures jsTypes == map[]
    {
      jsTypes := map[];
    }

    /** `js_register_type`: the alias now translates to the CamelCase form of its target. */
    method RegisterType(name: string, decl: string)
      modifies this
      ensures jsTypes == old(jsTypes)[name := Camel(decl)]
      ensures JsTranslateType(jsTypes, name) == Camel(decl)
    {
      jsTypes := jsTypes[name := Camel(decl)];
    }

    /** `js_code`: the entries in map order, numbered from 0, aliases included; the code of
        the records joined by newlines. */
    method JsCode(types: seq<Entry>, isMessage: bool) returns (r: string)
      modifies this
      ensures var out := JsRun(old(jsTypes), types, isMessage);
        jsTypes == out.env && r == Join("\n", out.codes)
    {
      var ans: seq<string> := [];
      for id := 0 to |types|
        invariant JsRun(old(jsTypes), types[..id], isMessage) == JsOut(jsTypes, ans)
      {
        assert types[..id + 1][..id] == types[..id];
        var name := types[id].name;
        match Normalize(types[id].decl) {
          case Alias(decl) =>
            RegisterType(name, decl);
          case Struct(decl) =>
            var struct := JsStruct(name, decl, id, isMessage);
            var reader := JsReader(jsTypes, name, decl);
            var writer := JsWriter(jsTypes, name, decl, isMessage);
            ans := ans + [struct + reader + writer];
        }
      }
      assert types[..|types|] == types;
      r := Join("\n", ans);
    }
  }

  // ---------------------------------------------------------------------------------------
  // JS: what the generator promises

  /** The number of entries that declare a record rather than an alias. */
  function RecordCount(types: seq<Entry>): nat
    decreases |types|
  {
    if |types| == 0 then 0
    else RecordCount(types[..|types| - 1]) + (if Normalize(types[|types| - 1].decl).Struct? then 1 else 0)
  }

  /** Some entry of `types` declares `name` as an alias. */
  ghost predicate AliasNamed(types: seq<Entry>, name: string)
  {
    exists i :: 0 <= i < |types| && types[i].name == name && Normalize(types[i].decl).Alias?
  }

  /** `js_code` emits one block per record and none per alias; the alias table keeps every
      name it had, gains every alias declared, and gains nothing else. */
  lemma {:induction false} JsRunShape(env: map<string, string>, types: seq<Entry>, isMessage: bool)
    ensures |JsRun(env, types, isMessage).codes| == RecordCount(types)
    ensures forall k :: k in env ==> k in JsRun(env, types, isMessage).env
    ensures forall i :: 0 <= i < |types| && Normalize(types[i].decl).Alias? ==>
      types[i].name in JsRun(env, types, isMessage).env
    ensures forall k :: k in JsRun(env, types, isMessage).env ==> k in env || AliasNamed(types, k)
    decreases |types|
  {
    if |types| > 0 {
      var init := types[..|types| - 1];
      JsRunShape(env, init, isMessage);
      var prev := JsRun(env, init, isMessage);
      var out := JsRun(env, types, isMessage);
      forall i | 0 <= i < |types| && Normalize(types[i].decl).Alias?
        ensures types[i].name in out.env
      {
        if i < |types| - 1 {
          assert types[i] == init[i];
        }
      }
      forall k | k in out.env
        ensures k in env || AliasNamed(types, k)
      {
        if k in prev.env {
          if k !in env {
            var i :| 0 <= i < |init| && init[i].name == k && Normalize(init[i].decl).Alias?;
            assert types[i] == init[i];
          }
        } else {
          assert types[|types| - 1].name == k;
        }
      }
    }
  }

  /** The pieces of a `_`-joined name are CamelCased independently. */
  lemma CamelAppend(a: string, b: string)
    ensures Camel(a + "_" + b) == Camel(a) + Camel(b)
  {
    assert a + "_" + b == a + ['_'] + b;
    SplitAppend(a, '_', b);
    var pa, pb := Split(a, '_'), Split(b, '_');
    assert Caps(pa + pb) == Caps(pa) + Caps(pb);
    ConcatAppend(Caps(pa), Caps(pb));
  }

  /** A name without `_` is only capitalized. */
  lemma CamelPlain(t: string)
    requires '_' !in t
    ensures Camel(t) == Capitalize(t)
  {
    SplitNoSep(t, '_');
    assert Caps([t]) == [Capitalize(t)];
    assert [Capitalize(t)][1..] == [];
    assert Concat([Capitalize(t)]) == Capitalize(t) + Concat([]);
  }

  /** CamelCase removes every `_` and brings in no other character that is not a letter. */
  lemma CamelAvoids(t: string, d: char)
    requires !IsUpper(d) && !IsLower(d)
    requires d == '_' || d !in t
    ensures d !in Camel(t)
  {
    var pieces := Split(t, '_');
    if d != '_' {
      SplitAvoids(t, '_', d);
    }
    forall i | 0 <= i < |pieces|
      ensures d !in Caps(pieces)[i]
    {
      CapitalizeAvoids(pieces[i], d);
    }
    ConcatAvoids(Caps(pieces), d);
  }

  lemma CamelExample()
    ensures Camel("coord_t") == "CoordT"
  {
    CamelAppend("coord", "t");
    assert "coord" + "_" + "t" == "coord_t";
    CamelPlain("coord");
    CamelPlain("t");
    CapitalizeExample();
  }

  lemma CapitalizeExample()
    ensures Capitalize("coord") == "Coord" && Capitalize("t") == "T"
  {
    assert "coord"[1..] == "oord";
    assert LowerAll("oord") == "oord";
    assert LowerAll("") == "";
  }

  /** No JS name in the alias table spans two lines. */
  predicate EnvClean(env: map<string, string>)
  {
    forall k :: k in env ==> NoNewline(env[k])
  }

  lemma TranslateClean(env: map<string, string>, t: string)
    requires EnvClean(env) && NoNewline(t)
    ensures NoNewline(JsTranslateType(env, t))
  {
    if t !in env {
      CamelAvoids(t, '\n');
    }
  }

  lemma CallsClean(env: map<string, string>, name: string, fs: seq<Field>)
    requires EnvClean(env) && Clean(name, fs)
    ensures NoNewlines(ReadCalls(env, fs)) && NoNewlines(WriteCalls(env, fs))
  {
    forall i | 0 <= i < |fs|
      ensures NoNewline(ReadCalls(env, fs)[i]) && NoNewline(WriteCalls(env, fs)[i])
    {
      TranslateClean(env, fs[i].typ);
    }
  }

  /** The lines of a JS class: header and constructor with one assignment per field in declared
      order, the `serialize` and `deserialize` methods, then for a message the instance `id_`
      inside the class and the static `id` after it. */
  function ClassLines(name: string, fs: seq<Field>, id: nat, isMessage: bool): seq<string>
  {
    JsClassHead(name, fs) + (if |fs| == 0 then ["    "] else Indent("    ", Assigns(fs))) + JsClassTail(name)
      + (if isMessage then [JsIdMember(id)] else []) + ["}"] + (if isMessage then [JsStaticId(name, id)] else [])
  }

  /** The lines of a JS reader: the constructor called on one read per field, in declared order. */
  function ReadMethodLines(env: map<string, string>, name: string, fs: seq<Field>): seq<string>
  {
    [JsReaderOpening(name)] + Block("  return new " + name + "(", "    ", ReadCalls(env, fs), ");") + ["};"]
  }

  /** The lines of a JS writer: `writeChar` of the static id first exactly for a message, then one
      write per field in declared order. */
  function WriteMethodLines(env: map<string, string>, name: string, fs: seq<Field>, isMessage: bool): seq<string>
  {
    [JsWriterOpening(name)] + (if isMessage then ["  " + JsWriteIdCall(name)] else [])
      + (if |fs| == 0 then ["  "] else Indent("  ", WriteCalls(env, fs))) + ["};"]
  }

  lemma IndentedLines(ind: string, ps: seq<string>)
    requires NoNewline(ind) && NoNewlines(ps)
    ensures Split(ind + Join("\n" + ind, ps), '\n') == if |ps| == 0 then [ind] else Indent(ind, ps)
  {
    BlockLines(ind, ind, ps, "");
    assert ind + Join("\n" + ind, ps) + "" == ind + Join("\n" + ind, ps);
    if |ps| == 0 {
      assert ind + "" == ind;
    } else {
      BlockIndent(ind, ps);
    }
  }

  lemma JsClassLinesOf(name: string, fs: seq<Field>)
    requires Clean(name, fs)
    ensures Split(Join("\n", JsClassHead(name, fs) + [JsConstructorBody(fs)] + JsClassTail(name)), '\n') ==
      JsClassHead(name, fs) + (if |fs| == 0 then ["    "] else Indent("    ", Assigns(fs))) + JsClassTail(name)
  {
    assert NoNewlines(JsClassHead(name, fs)) by {
      JoinNoSep(", ", Attrs(fs), '\n');
    }
    ClassTailClean(name);
    assert Split(JsConstructorBody(fs), '\n') == if |fs| == 0 then ["    "] else Indent("    ", Assigns(fs)) by {
      assert "\n    " == "\n" + "    ";
      IndentedLines("    ", Assigns(fs));
    }
    JoinAround(JsClassHead(name, fs), JsConstructorBody(fs), JsClassTail(name));
  }

  lemma JsStructLines(name: string, fs: seq<Field>, id: nat, isMessage: bool, rest: string)
    requires Clean(name, fs)
    ensures Split(JsStruct(name, fs, id, isMessage) + rest, '\n') == ClassLines(name, fs, id, isMessage) + Split(rest, '\n')
  {
    var cls := Join("\n", JsClassHead(name, fs) + [JsConstructorBody(fs)] + JsClassTail(name));
    JsClassLinesOf(name, fs);
    OneLine("}");
    if isMessage {
      var member, staticId := JsIdMember(id), JsStaticId(name, id);
      IdLineClean(id);
      PasteClean(name + ".id = ", Decimal(id), ";");
      OneLine(member);
      OneLine(staticId);
      var upToMember := cls + "\n" + member;
      var upToClose := upToMember + "\n" + "}";
      var upToStatic := upToClose + "\n" + staticId;
      SplitLine(cls, member);
      SplitLine(upToMember, "}");
      SplitLine(upToClose, staticId);
      SplitLine(upToStatic, rest);
    } else {
      SplitLine(cls, "}");
      SplitLine(cls + "\n" + "}", rest);
    }
  }

  lemma JsReaderLines(env: map<string, string>, name: string, fs: seq<Field>, rest: string)
    requires EnvClean(env) && Clean(name, fs)
    ensures Split(JsReader(env, name, fs) + rest, '\n') == ReadMethodLines(env, name, fs) + Split(rest, '\n')
  {
    var first := "  return new " + name + "(";
    var calls := ReadCalls(env, fs);
    ClassTailClean(name);
    OpeningsClean(name);
    CallsClean(env, name, fs);
    assert "\n    " == "\n" + "    ";
    BlockLines(first, "    ", calls, ");");
    BracedLines(JsReaderOpening(name), first + Join("\n    ", calls) + ");", rest);
  }

  lemma JsWriterLines(env: map<string, string>, name: string, fs: seq<Field>, isMessage: bool)
    requires EnvClean(env) && Clean(name, fs)
    ensures Split(JsWriter(env, name, fs, isMessage), '\n') == WriteMethodLines(env, name, fs, isMessage) + [""]
  {
    var calls := WriteCalls(env, fs);
    OpeningsClean(name);
    assert Split("  " + Join("\n  ", calls), '\n') == if |fs| == 0 then ["  "] else Indent("  ", calls) by {
      CallsClean(env, name, fs);
      assert "\n  " == "\n" + "  ";
      IndentedLines("  ", calls);
    }
    WriteLinesFrom(env, name, fs, isMessage);
  }

  lemma WriteLinesFrom(env: map<string, string>, name: string, fs: seq<Field>, isMessage: bool)
    requires NoNewline(JsWriteIdCall(name)) && NoNewline(JsWriterOpening(name))
    requires Split("  " + Join("\n  ", WriteCalls(env, fs)), '\n') ==
      if |fs| == 0 then ["  "] else Indent("  ", WriteCalls(env, fs))
    ensures Split(JsWriter(env, name, fs, isMessage), '\n') == WriteMethodLines(env, name, fs, isMessage) + [""]
  {
    var fields := Join("\n  ", WriteCalls(env, fs));
    var callLines := if |fs| == 0 then ["  "] else Indent("  ", WriteCalls(env, fs));
    if isMessage {
      MessageWriteLines(JsWriteIdCall(name), fields, Split("  " + fields, '\n'));
      BracedBlock(JsWriterOpening(name), "  " + (JsWriteIdCall(name) + "\n  " + fields), ["  " + JsWriteIdCall(name)], callLines);
    } else {
      BracedBlock(JsWriterOpening(name), "  " + fields, [], callLines);
    }
  }

  /** The body of a message's JS writer: the id call on a line of its own, then the field calls. */
  lemma MessageWriteLines(idCall: string, fields: string, fieldLines: seq<string>)
    requires NoNewline(idCall)
    requires Split("  " + fields, '\n') == fieldLines
    ensures Split("  " + (idCall + "\n  " + fields), '\n') == ["  " + idCall] + fieldLines
  {
    assert "  " + (idCall + "\n  " + fields) == ("  " + idCall) + "\n" + ("  " + fields);
    SplitLine("  " + idCall, "  " + fields);
    OneLine("  " + idCall);
  }

  /** A record's JS code is its class, then its reader, then its writer. */
  lemma JsRecordLines(env: map<string, string>, id: nat, name: string, fs: seq<Field>, isMessage: bool)
    requires EnvClean(env) && Clean(name, fs)
    ensures Split(JsRecord(env, id, name, fs, isMessage), '\n') ==
      ClassLines(name, fs, id, isMessage) + ReadMethodLines(env, name, fs) + WriteMethodLines(env, name, fs, isMessage) + [""]
  {
    var struct, reader, writer := JsStruct(name, fs, id, isMessage), JsReader(env, name, fs), JsWriter(env, name, fs, isMessage);
    JsWriterLines(env, name, fs, isMessage);
    JsReaderLines(env, name, fs, writer);
    JsStructLines(name, fs, id, isMessage, reader + writer);
    SeqAssocRight(struct, reader, writer, "");
    SeqAssocRight(ClassLines(name, fs, id, isMessage), ReadMethodLines(env, name, fs),
      WriteMethodLines(env, name, fs, isMessage), [""]);
  }
}
