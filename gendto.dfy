/**
 * The DTO part of the code generator (cmdgen/genapi/gendto.go): reading
 * struct declarations out of a DTO description (`MatchDto`, with
 * `parseDtoFieldDeclaration` for each field line) and writing them back
 * as Go source (`formatStruct`).
 *
 * The struct pattern of `MatchDto` is not modelled: its captures, a name
 * and the text between the braces, are the input.  The field pattern
 * `^\s*(?:(\w+)\s+)?([\w\*\[\]]+)(?:\s+`([^`]*)`)?\s*$` is modelled as
 * the function `ParseDtoFieldDeclaration`, following the regular
 * expression's leftmost-first choice: the optional name group is tried
 * first, and each repetition is greedy.
 */
module GenDto {
  import opened Wrappers
  import opened StringHelpers
  import Sequences

  /** `dtoFieldSpec` */
  datatype DtoField = DtoField(name: string, typ: string, tag: string, comment: string)

  /** `dtoContentsSpec` */
  datatype DtoContents = DtoContents(name: string, fields: seq<DtoField>)

  /** The struct pattern's captures: the struct name and the text between its braces. */
  datatype StructMatch = StructMatch(name: string, fieldsBlock: string)

  // ---------------------------------------------------------------------
  // The field pattern
  // ---------------------------------------------------------------------

  /** `\s` of Go's regular expressions. */
  predicate IsRegexSpace(c: char)
  {
    c == ' ' || c == '\t' || c == '\n' || c == '\U{C}' || c == '\r'
  }

  /** `\w` */
  predicate IsWordChar(c: char)
  {
    'a' <= c <= 'z' || 'A' <= c <= 'Z' || '0' <= c <= '9' || c == '_'
  }

  /** `[\w\*\[\]]`, the characters of a field type. */
  predicate IsTypeChar(c: char)
  {
    IsWordChar(c) || c == '*' || c == '[' || c == ']'
  }

  /** The character classes of the field pattern. */
  datatype CharClass = Space | Word | TypeChar

  predicate In(c: char, k: CharClass)
  {
    match k
    case Space => IsRegexSpace(c)
    case Word => IsWordChar(c)
    case TypeChar => IsTypeChar(c)
  }

  /** The length of the longest prefix of `s` in class `k`: a greedy repetition. */
  function Span(s: string, k: CharClass): (n: nat)
    ensures n <= |s| && (forall i | 0 <= i < n :: In(s[i], k)) && (n < |s| ==> !In(s[n], k))
  {
    if s == [] || !In(s[0], k) then 0 else 1 + Span(s[1..], k)
  }

  /** The length of the longest suffix of `s` in class `k`. */
  function SpanBack(s: string, k: CharClass): (n: nat)
    ensures n <= |s| && (forall i | |s| - n <= i < |s| :: In(s[i], k)) && (n < |s| ==> !In(s[|s| - n - 1], k))
  {
    if s == [] || !In(s[|s| - 1], k) then 0 else 1 + SpanBack(s[..|s| - 1], k)
  }

  /** The text between the leading `^\s*` and the trailing `\s*$`. */
  function Strip(s: string): (u: string)
    ensures u != [] ==> !IsRegexSpace(u[0]) && !IsRegexSpace(u[|u| - 1])
  {
    var t := s[Span(s, Space)..];
    t[..|t| - SpanBack(t, Space)]
  }

  /**
   * `([\w\*\[\]]+)(?:\s+`([^`]*)`)?` on the whole of `rest`: the type and
   * the tag ("" when the tag group does not take part).
   */
  function TypeAndTag(rest: string): Option<(string, string)>
  {
    var t := Span(rest, TypeChar);
    if t == 0 then None
    else
      var r := rest[t..];
      if r == [] then Some((rest[..t], ""))
      else
        var q := r[Span(r, Space)..];
        if Span(r, Space) > 0 && IsQuoted(q) then Some((rest[..t], q[1..|q| - 1])) else None
  }

  /** `q` is a text between back quotes that holds none: what `(`[^`]*`)` accepts. */
  predicate IsQuoted(q: string)
  {
    |q| >= 2 && q[0] == '`' && q[|q| - 1] == '`' && '`' !in q[1..|q| - 1]
  }

  /** The match with the name group `(\w+)\s+` taking part, if there is one. */
  function Named(u: string): Option<DtoField>
  {
    var w := Span(u, Word);
    if w == 0 then None else NamedTail(u[..w], u[w..])
  }

  /** The rest of the name group, `\s+` and what follows, once the name is read. */
  function NamedTail(name: string, tail: string): Option<DtoField>
  {
    var sp := Span(tail, Space);
    if sp == 0 then None
    else
      match TypeAndTag(tail[sp..])
      case Some(tt) => Some(DtoField(name, tt.0, tt.1, ""))
      case None => None
  }

  /**
   * `parseDtoFieldDeclaration(declaration)`: the name group is tried first.
   * The pattern has three groups, so the comment is never set.
   */
  function ParseDtoFieldDeclaration(declaration: string): (r: Result<DtoField>)
    ensures r.Ok? ==> r.value.comment == "" && r.value.typ != []
    ensures r.Err? ==> r.msg == "invalid field declaration format: " + declaration
  {
    var u := Strip(declaration);
    match Named(u)
    case Some(f) => Ok(f)
    case None =>
      match TypeAndTag(u)
      case Some(tt) => Ok(DtoField("", tt.0, tt.1, ""))
      case None => Err("invalid field declaration format: " + declaration)
  }

  /** The type read is a non-empty run of type characters, and the tag holds no back quote. */
  lemma TypeAndTagShape(rest: string)
    ensures var r := TypeAndTag(rest);
      r.Some? ==> TypeChars(r.value.0) && '`' !in r.value.1
  {
  }

  /**
   * A declaration read has a name of word characters, possibly empty, a
   * type of type characters, never empty, a tag without back quotes and
   * no comment.  A declaration is refused exactly when neither reading
   * fits.
   */
  lemma ParseShape(declaration: string)
    ensures var r := ParseDtoFieldDeclaration(declaration);
      r.Ok? ==> WordChars(r.value.name) && TypeChars(r.value.typ) && '`' !in r.value.tag && r.value.comment == ""
    ensures var u := Strip(declaration);
      ParseDtoFieldDeclaration(declaration).Err? <==> Named(u).None? && TypeAndTag(u).None?
  {
    var u := Strip(declaration);
    match Named(u)
    case Some(f) =>
      NamedShape(u);
      assert ParseDtoFieldDeclaration(declaration) == Ok(f);
    case None =>
      TypeAndTagShape(u);
  }

  /** The name group reads a name of word characters. */
  lemma NamedShape(u: string)
    ensures Named(u).Some? ==>
      var f := Named(u).value;
      WordChars(f.name) && TypeChars(f.typ) && '`' !in f.tag && f.comment == ""
  {
    var w := Span(u, Word);
    if w > 0 {
      NamedTailShape(u[..w], u[w..]);
      forall i | 0 <= i < w ensures IsWordChar(u[..w][i]) {
        assert In(u[i], Word);
      }
    }
  }

  /** The rest of the name group keeps the name and reads a type and a tag. */
  lemma NamedTailShape(name: string, tail: string)
    ensures NamedTail(name, tail).Some? ==>
      var f := NamedTail(name, tail).value;
      f.name == name && TypeChars(f.typ) && '`' !in f.tag && f.comment == ""
  {
    var sp := Span(tail, Space);
    if sp > 0 {
      TypeAndTagShape(tail[sp..]);
    }
  }

  // ---------------------------------------------------------------------
  // MatchDto
  // ---------------------------------------------------------------------

  /** What one line of a fields block contributes: blank and unparseable lines nothing. */
  function Kept(line: string): seq<DtoField>
  {
    var t := TrimSpace(line);
    if t == "" then []
    else
      match ParseDtoFieldDeclaration(t)
      case Ok(f) => [f]
      case Err(_) => []
  }

  /** The fields of the lines of a fields block, in order. */
  function FieldsOf(lines: seq<string>): seq<DtoField>
  {
    if lines == [] then [] else FieldsOf(lines[..|lines| - 1]) + Kept(lines[|lines| - 1])
  }

  /** The `dtoContentsSpec` of one struct match. */
  function DtoOf(m: StructMatch): DtoContents
  {
    DtoContents(m.name, FieldsOf(Split(m.fieldsBlock, '\n')))
  }

  /** The line loop of `MatchDto`. */
  method ParseFields(lines: seq<string>) returns (fields: seq<DtoField>)
    ensures fields == FieldsOf(lines)
  {
    fields := [];
    for k := 0 to |lines|
      invariant fields == FieldsOf(lines[..k])
    {
      assert lines[..k + 1][..k] == lines[..k];
      var line := TrimSpace(lines[k]);
      if line == "" {
        continue;
      }
      var field := ParseDtoFieldDeclaration(line);
      if field.Err? {
        continue;
      }
      fields := fields + [field.value];
    }
    assert lines[..|lines|] == lines;
  }

  /** `MatchDto(content)`: the new `dtoContents`, one entry per struct match, in order. */
  method MatchDto(matches: seq<StructMatch>) returns (dtoContents: seq<DtoContents>)
    ensures |dtoContents| == |matches|
    ensures forall i | 0 <= i < |matches| :: dtoContents[i] == DtoOf(matches[i])
  {
    dtoContents := [];
    for k := 0 to |matches|
      invariant |dtoContents| == k
      invariant forall i | 0 <= i < k :: dtoContents[i] == DtoOf(matches[i])
    {
      var name := matches[k].name;
      var fields := ParseFields(Split(matches[k].fieldsBlock, '\n'));
      dtoContents := dtoContents + [DtoContents(name, fields)];
    }
  }

  /** Lines side by side give their fields side by side. */
  lemma {:induction false} FieldsOfAppend(a: seq<string>, b: seq<string>)
    ensures FieldsOf(a + b) == FieldsOf(a) + FieldsOf(b)
  {
    if b == [] {
      assert a + b == a;
    } else {
      var front := b[..|b| - 1];
      assert (a + b)[..|a + b| - 1] == a + front;
      assert (a + b)[|a + b| - 1] == b[|b| - 1];
      FieldsOfAppend(a, front);
    }
  }

  /** Every field read has a type and no comment. */
  lemma {:induction false} FieldsOfShape(lines: seq<string>)
    ensures forall f | f in FieldsOf(lines) :: f.typ != [] && f.comment == ""
  {
    if lines != [] {
      FieldsOfShape(lines[..|lines| - 1]);
      ParseShape(TrimSpace(lines[|lines| - 1]));
    }
  }

  /** Blank and unparseable lines are skipped without a trace. */
  lemma {:induction false} FieldsOfSkipped(lines: seq<string>)
    requires forall i | 0 <= i < |lines| :: TrimSpace(lines[i]) == "" || ParseDtoFieldDeclaration(TrimSpace(lines[i])).Err?
    ensures FieldsOf(lines) == []
  {
    if lines != [] {
      FieldsOfSkipped(lines[..|lines| - 1]);
    }
  }

  // ---------------------------------------------------------------------
  // formatStruct
  // ---------------------------------------------------------------------

  /** The tag as written after the type: nothing for an empty tag. */
  function TagSuffix(tag: string): string
  {
    if tag != "" then " " + Quoted(tag) else ""
  }

  function Quoted(tag: string): string
  {
    "`" + tag + "`"
  }

  /** The line `formatStruct` writes for a field, without its line break. */
  function FieldLine(f: DtoField): string
  {
    "\t" + f.name + " " + f.typ + TagSuffix(f.tag)
  }

  /** The field lines, each ended by a line break. */
  function FieldsText(fields: seq<DtoField>): string
  {
    if fields == [] then "" else FieldsText(fields[..|fields| - 1]) + FieldLine(fields[|fields| - 1]) + "\n"
  }

  function StructText(s: DtoContents): string
  {
    "type " + s.name + " struct {\n" + FieldsText(s.fields) + "}\n\n"
  }

  /** `formatStruct(s)` */
  method FormatStruct(s: DtoContents) returns (structDef: string)
    ensures structDef == StructText(s)
  {
    var header := "type " + s.name + " struct {\n";
    structDef := header;
    for k := 0 to |s.fields|
      invariant structDef == header + FieldsText(s.fields[..k])
    {
      var field := s.fields[k];
      var tag := "";
      if field.tag != "" {
        tag := " " + Quoted(field.tag);
      }
      var line := "\t" + field.name + " " + field.typ + tag + "\n";
      FieldsTextStep(s.fields, k);
      Sequences.AppendAssoc(header, FieldsText(s.fields[..k]), line);
      structDef := structDef + line;
    }
    assert s.fields[..|s.fields|] == s.fields;
    structDef := structDef + "}\n\n";
  }

  lemma FieldsTextStep(fields: seq<DtoField>, k: nat)
    requires k < |fields|
    ensures FieldsText(fields[..k + 1]) == FieldsText(fields[..k]) + (FieldLine(fields[k]) + "\n")
  {
    assert fields[..k + 1][..k] == fields[..k];
  }


  // ---------------------------------------------------------------------
  // Reading back what formatStruct writes
  // ---------------------------------------------------------------------

  predicate WordChars(s: string)
  {
    forall i | 0 <= i < |s| :: IsWordChar(s[i])
  }

  /** A type the field pattern accepts. */
  predicate TypeChars(s: string)
  {
    s != [] && forall i | 0 <= i < |s| :: IsTypeChar(s[i])
  }

  /**
   * A field `formatStruct` can write so that it reads back: a name of word
   * characters (or none), a type the field pattern accepts, a tag without
   * back quotes, line breaks or closing braces, and no comment.
   */
  predicate WellFormed(f: DtoField)
  {
    WordChars(f.name) && TypeChars(f.typ) && '`' !in f.tag && '\n' !in f.tag && '}' !in f.tag && f.comment == ""
  }

  /** The field lines, without their line breaks. */
  function FieldLines(fields: seq<DtoField>): (ls: seq<string>)
    ensures |ls| == |fields|
  {
    if fields == [] then [] else FieldLines(fields[..|fields| - 1]) + [FieldLine(fields[|fields| - 1])]
  }

  /** A greedy repetition stops where its characters stop. */
  lemma {:induction false} SpanPrefix(a: string, b: string, k: CharClass)
    requires forall i | 0 <= i < |a| :: In(a[i], k)
    requires b == [] || !In(b[0], k)
    ensures Span(a + b, k) == |a|
  {
    if a != [] {
      assert (a + b)[0] == a[0] && (a + b)[1..] == a[1..] + b;
      SpanPrefix(a[1..], b, k);
    } else {
      assert a + b == b;
    }
  }

  /** A text that neither starts nor ends in white space is its own stripped text. */
  lemma StripClean(u: string)
    requires u != [] && !IsRegexSpace(u[0]) && !IsRegexSpace(u[|u| - 1])
    ensures Strip(u) == u
  {
    assert u[0..] == u;
  }

  /** The tag suffix after a space: the tag between back quotes. */
  lemma QuotedTag(tag: string)
    requires '`' !in tag
    ensures var q := Quoted(tag);
      && IsQuoted(q) && q[1..|q| - 1] == tag
      && Span(" " + q, Space) == 1 && (" " + q)[1..] == q
  {
    var q := Quoted(tag);
    Sequences.Enclosed('`', tag, '`');
    SpanPrefix(" ", q, Space);
    Sequences.AppendSlices(" ", q);
  }

  /** The type and the tag suffix read back as the type and the tag. */
  lemma TypeAndTagRoundTrip(typ: string, tag: string)
    requires TypeChars(typ) && '`' !in tag
    ensures TypeAndTag(typ + TagSuffix(tag)) == Some((typ, tag))
  {
    var suffix := TagSuffix(tag);
    SpanPrefix(typ, suffix, TypeChar);
    Sequences.AppendSlices(typ, suffix);
    if tag != "" {
      QuotedTag(tag);
      Sequences.Enclosed('`', tag, '`');
    }
  }

  /** The first and last characters of a type with its tag suffix. */
  lemma RestEnds(typ: string, tag: string)
    requires TypeChars(typ)
    ensures var rest := typ + TagSuffix(tag);
      rest != [] && rest[0] == typ[0] && (rest[|rest| - 1] == '`' || rest[|rest| - 1] == typ[|typ| - 1])
  {
    if tag != "" {
      Sequences.Enclosed('`', tag, '`');
    }
  }

  /** A named field line, trimmed, parses back to its field. */
  lemma NamedRoundTrip(name: string, typ: string, tag: string)
    requires name != [] && WordChars(name) && TypeChars(typ) && '`' !in tag
    ensures ParseDtoFieldDeclaration(name + (" " + (typ + TagSuffix(tag)))) == Ok(DtoField(name, typ, tag, ""))
  {
    var rest := typ + TagSuffix(tag);
    var u := name + (" " + rest);
    RestEnds(typ, tag);
    assert In(rest[0], TypeChar);
    NameThenRest(name, rest);
    TypeAndTagRoundTrip(typ, tag);
    NamedOf(u, |name|, 1, (typ, tag));
    ParseOfNamed(u, DtoField(name, typ, tag, ""));
  }

  /** The spans of a name, one space and the rest of a line. */
  lemma NameThenRest(name: string, rest: string)
    requires name != [] && WordChars(name)
    requires rest != [] && In(rest[0], TypeChar) && !IsRegexSpace(rest[|rest| - 1])
    ensures var u := name + (" " + rest);
      && Strip(u) == u && Span(u, Word) == |name| && u[..|name|] == name
      && Span(u[|name|..], Space) == 1 && u[|name| + 1..] == rest
  {
    var u := name + (" " + rest);
    Sequences.AppendSlices(name, " " + rest);
    assert u[0] == name[0] && u[|u| - 1] == rest[|rest| - 1];
    StripClean(u);
    SpanPrefix(name, " " + rest, Word);
    OneSpace(rest);
    assert u[|name|..][1..] == rest;
  }

  /** A declaration read by the name group. */
  lemma ParseOfNamed(u: string, f: DtoField)
    requires Strip(u) == u && Named(u) == Some(f)
    ensures ParseDtoFieldDeclaration(u) == Ok(f)
  {
  }

  /** A declaration read without the name group. */
  lemma ParseOfUnnamed(u: string, tt: (string, string))
    requires Strip(u) == u && Named(u).None? && TypeAndTag(u) == Some(tt)
    ensures ParseDtoFieldDeclaration(u) == Ok(DtoField("", tt.0, tt.1, ""))
  {
  }

  /** The name group read in full. */
  lemma NamedOf(u: string, w: nat, sp: nat, tt: (string, string))
    requires w == Span(u, Word) && w > 0
    requires sp == Span(u[w..], Space) && sp > 0 && TypeAndTag(u[w + sp..]) == Some(tt)
    ensures Named(u) == Some(DtoField(u[..w], tt.0, tt.1, ""))
  {
    NamedSteps(u, w, sp);
  }

  /** The name group, once its name and its spaces are read. */
  lemma NamedSteps(u: string, w: nat, sp: nat)
    requires w == Span(u, Word) && w > 0
    requires sp == Span(u[w..], Space) && sp > 0
    ensures Named(u) == match TypeAndTag(u[w + sp..])
      case Some(x) => Some(DtoField(u[..w], x.0, x.1, ""))
      case None => None
  {
    assert Named(u) == NamedTail(u[..w], u[w..]);
    assert u[w..][sp..] == u[w + sp..];
  }

  /** A single space before a text that does not start with one. */
  lemma OneSpace(rest: string)
    requires rest != [] && !IsRegexSpace(rest[0])
    ensures Span(" " + rest, Space) == 1 && (" " + rest)[1..] == rest
  {
    var s := " " + rest;
    assert s[0] == ' ' && s[1..] == rest;
  }

  /** An unnamed field line, trimmed, parses back to its field. */
  lemma UnnamedRoundTrip(typ: string, tag: string)
    requires TypeChars(typ) && '`' !in tag
    ensures ParseDtoFieldDeclaration(typ + TagSuffix(tag)) == Ok(DtoField("", typ, tag, ""))
  {
    var u := typ + TagSuffix(tag);
    RestEnds(typ, tag);
    assert !IsRegexSpace(u[0]) by {
      assert In(typ[0], TypeChar);
    }
    StripClean(u);
    TypeAndTagRoundTrip(typ, tag);
    NoNameGroup(typ, tag);
    ParseOfUnnamed(u, (typ, tag));
  }

  /** In an unnamed line the optional name group never takes part. */
  lemma NoNameGroup(typ: string, tag: string)
    requires TypeChars(typ) && '`' !in tag
    ensures Named(typ + TagSuffix(tag)).None?
  {
    var suffix := TagSuffix(tag);
    var u := typ + suffix;
    var w := Span(u, Word);
    if w > 0 && Span(u[w..], Space) > 0 {
      WordSpanInType(typ, suffix);
      assert w == |typ| && suffix != [];
      QuotedTag(tag);
      var q := Quoted(tag);
      assert u[w..] == " " + q;
      assert u[w + 1..] == q;
      QuotedIsNoType(tag);
    }
  }

  /** A quoted tag does not start with a type character. */
  lemma QuotedIsNoType(tag: string)
    ensures TypeAndTag(Quoted(tag)).None?
  {
    Sequences.Enclosed('`', tag, '`');
    assert !In(Quoted(tag)[0], TypeChar);
  }

  /**
   * Where the word characters of a type followed by a space-led suffix stop:
   * inside the type, before a character that is not a space, or at its end.
   */
  lemma WordSpanInType(typ: string, suffix: string)
    requires TypeChars(typ) && (suffix == [] || suffix[0] == ' ')
    ensures var u := typ + suffix; var w := Span(u, Word);
      && w <= |typ| && u[..|typ|] == typ && u[|typ|..] == suffix
      && (Span(u[w..], Space) > 0 ==> w == |typ|)
  {
    var u := typ + suffix;
    var w := Span(u, Word);
    Sequences.AppendSlices(typ, suffix);
    if w < |typ| {
      assert u[w..][0] == typ[w];
      assert In(typ[w], TypeChar);
    }
  }

  /** `MatchDto` keeps exactly the field of a line `formatStruct` wrote. */
  lemma KeptFieldLine(f: DtoField)
    requires WellFormed(f)
    ensures Kept(FieldLine(f)) == [f]
  {
    var rest := f.typ + TagSuffix(f.tag);
    RestEnds(f.typ, f.tag);
    assert In(f.typ[0], TypeChar) && In(f.typ[|f.typ| - 1], TypeChar);
    LineShape(f.name, f.typ, f.tag);
    if f.name != [] {
      assert In(f.name[0], Word);
      TrimFieldLine(f.name, rest);
      NamedRoundTrip(f.name, f.typ, f.tag);
      KeptOf(FieldLine(f), f.name + (" " + rest), f);
    } else {
      TrimFieldLine(f.name, rest);
      UnnamedRoundTrip(f.typ, f.tag);
      KeptOf(FieldLine(f), rest, f);
    }
  }

  /** The field of a line whose trimmed text parses. */
  lemma KeptOf(line: string, t: string, f: DtoField)
    requires t != [] && TrimSpace(line) == t && ParseDtoFieldDeclaration(t) == Ok(f)
    ensures Kept(line) == [f]
  {
  }

  /** Trimming a field line leaves the name, a space and the rest, or the rest alone. */
  lemma TrimFieldLine(name: string, rest: string)
    requires rest != [] && !IsSpace(rest[0]) && !IsSpace(rest[|rest| - 1])
    requires name != [] ==> !IsSpace(name[0])
    ensures TrimSpace("\t" + (name + (" " + rest))) == if name == [] then rest else name + (" " + rest)
  {
    var t := name + (" " + rest);
    Sequences.AppendSlices("\t", t);
    Sequences.AppendSlices(name, " " + rest);
    Sequences.AppendSlices(" ", rest);
    if name == [] {
      assert t == " " + rest;
      TrimSpaceTrimmed(rest);
    } else {
      assert t[0] == name[0] && t[|t| - 1] == rest[|rest| - 1];
      TrimSpaceTrimmed(t);
    }
  }

  /** A field line, grouped from the right. */
  lemma LineShape(name: string, typ: string, tag: string)
    ensures FieldLine(DtoField(name, typ, tag, "")) == "\t" + (name + (" " + (typ + TagSuffix(tag))))
  {
  }

  /** The lines of well-formed fields give back the fields. */
  lemma {:induction false} FieldsOfFieldLines(fields: seq<DtoField>)
    requires forall i | 0 <= i < |fields| :: WellFormed(fields[i])
    ensures FieldsOf(FieldLines(fields)) == fields
  {
    if fields != [] {
      var front, f := fields[..|fields| - 1], fields[|fields| - 1];
      var ls := FieldLines(fields);
      FieldsOfFieldLines(front);
      KeptFieldLine(f);
      assert ls[..|ls| - 1] == FieldLines(front);
      assert ls[|ls| - 1] == FieldLine(f);
      assert FieldsOf(ls) == FieldsOf(FieldLines(front)) + Kept(FieldLine(f));
      Sequences.InitLast(fields);
    }
  }

  /** A field line holds no line break. */
  lemma NoBreak(f: DtoField)
    requires WellFormed(f)
    ensures '\n' !in FieldLine(f)
  {
    assert !IsTypeChar('\n') && !IsWordChar('\n');
    if f.tag != "" {
      Sequences.Enclosed('`', f.tag, '`');
    }
  }

  /** The text between the braces splits into its field lines, with an empty line at each end. */
  lemma {:induction false} BlockLines(fields: seq<DtoField>)
    requires forall i | 0 <= i < |fields| :: WellFormed(fields[i])
    ensures Split("\n" + FieldsText(fields), '\n') == [""] + FieldLines(fields) + [""]
  {
    if fields == [] {
      SplitAt("", '\n', "");
      assert "\n" + FieldsText(fields) == "" + ['\n'] + "";
    } else {
      var front, f := fields[..|fields| - 1], fields[|fields| - 1];
      BlockLines(front);
      NoBreak(f);
      BlockStep("\n" + FieldsText(front), FieldLine(f), FieldLines(front));
      assert FieldsText(fields) == FieldsText(front) + FieldLine(f) + "\n";
      Sequences.AppendAssoc(FieldsText(front), FieldLine(f), "\n");
      Sequences.AppendAssoc("\n", FieldsText(front), FieldLine(f) + "\n");
      assert FieldLines(fields) == FieldLines(front) + [FieldLine(f)];
    }
  }

  /**
   * `MatchDto`, given the block `formatStruct` writes between the braces
   * of a struct, reads back the struct (see `StructTextShape`).
   */
  lemma StructRoundTrip(s: DtoContents)
    requires forall i | 0 <= i < |s.fields| :: WellFormed(s.fields[i])
    ensures DtoOf(StructMatch(s.name, "\n" + FieldsText(s.fields))) == s
  {
    BlockLines(s.fields);
    FieldsOfFramed(FieldLines(s.fields));
    FieldsOfFieldLines(s.fields);
  }

  /** The text of a struct encloses, between its braces, the block a struct match captures. */
  lemma StructTextShape(s: DtoContents)
    ensures StructText(s) == "type " + s.name + " struct {" + ("\n" + FieldsText(s.fields)) + "}\n\n"
  {
  }

  /** The empty lines before the first field line and after the last one contribute no field. */
  lemma FieldsOfFramed(lines: seq<string>)
    ensures FieldsOf([""] + lines + [""]) == FieldsOf(lines)
  {
    FieldsOfAppend([""] + lines, [""]);
    FieldsOfAppend([""], lines);
    assert FieldsOf([""]) == [] by {
      assert [""][..0] == [];
    }
  }
}
